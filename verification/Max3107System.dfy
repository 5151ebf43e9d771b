/** Driver, device and tty together: the work thread takes one word or one decision at a time, and between
    any two of those the device may send or receive a byte, the tty may queue more, an interrupt may come,
    and other threads may ask for new settings or for a sleep mode.  set_sleep does not wait for the work thread:
    it notes MODE1 under the lock, and its word reaches the device at any later time. */
module Max3107System {
  import opened Max3107Device
  import opened Max3107Programs
  import opened Wrappers

  /** What a transfer is for.  JRx skips the words in front of the n data bytes; the number that others
      carry is the RX level the loop of the work function will look at in the end. */
  datatype Job = JLevel | JRx(skip: nat, n: nat) | JRxOn | JIrq | JTxOff(level: nat) | JTx(level: nat)
               | JConfig(level: nat)

  /** Where the work thread is; a transfer is through when each of its words has been answered. */
  datatype Pc = Idle | Xfer(job: Job, words: seq<Word>, replies: seq<Word>)
              | AtRx(level: nat) | AtRxLoop(level: nat) | AtIrq
              | AtTx(level: nat) | AtConfig(level: nat) | AtEnd(level: nat)

  /** sleep is the MODE1 value that set_sleep has noted under the lock and not yet sent; pending is the xmit ring;
      queued, wire, arrived and pushed are histories: what the tty has queued, what
      has gone out on the wire, what the device has taken in, what the driver has given to the tty. */
  datatype State = State(port: Port, dev: Device, pc: Pc, sleep: Option<Byte>, pending: seq<Byte>,
                         queued: seq<Byte>, wire: seq<Byte>, arrived: seq<Byte>, pushed: seq<Byte>)

  datatype Event = StartWork | Reply(word: Word) | Advance(txStopped: bool)
                 | Queue(bytes: seq<Byte>) | ShiftOut | Arrive(byte: Byte) | Irq
                 | StopRx | SetTermios(lcr: Byte, brg: Brg) | NoteSleep(bit: Byte, on: bool) | SleepWord

  function Bytes(words: seq<Word>): (bytes: seq<Byte>)
    ensures |bytes| == |words|
  {
    seq(|words|, i requires 0 <= i < |words| => ValOf(words[i]))
  }

  /** The words still to go. */
  function Todo(pc: Pc): seq<Word> {
    if pc.Xfer? && |pc.replies| <= |pc.words| then pc.words[|pc.replies|..] else []
  }

  predicate JobShaped(job: Job, words: seq<Word>) {
    match job
    case JLevel => words == [Rd(RXFIFOLVL)]
    case JIrq => words == IrqProgram()
    case JRx(skip, n) => RxShaped(words, skip, n)
    case _ => WritesOnly(words)
  }

  predicate RxShaped(words: seq<Word>, skip: nat, n: nat) {
    && |words| == skip + n + 1
    && (forall i :: 0 <= i < skip ==> Writes(words[i], IRQEN))
    && (forall i :: skip <= i < skip + n ==> words[i] == Rd(FIFO))
    && words[skip + n] == Rd(RXFIFOLVL)
  }

  predicate Shaped(pc: Pc) {
    pc.Xfer? ==> |pc.replies| <= |pc.words| && JobShaped(pc.job, pc.words)
  }

  /* ---------------------------------------------------------------- the work function */

  /** What becomes of a transfer's answers. */
  function Finish(s: State): State
    requires Shaped(s.pc) && s.pc.Xfer? && |s.pc.replies| == |s.pc.words|
  {
    var replies := s.pc.replies;
    match s.pc.job
    case JLevel => s.(pc := AtRx(ValOf(replies[0]) as nat))
    case JRx(skip, n) =>
      s.(pushed := s.pushed + Bytes(replies[skip..skip + n]), pc := AtRxLoop(ValOf(replies[skip + n]) as nat))
    case JRxOn => s.(pc := AtIrq)
    case JIrq => FinishIrq(s, ValOf(replies[0]), ValOf(replies[3]) as nat)
    case JTxOff(level) => s.(port := s.port.(txEnabled := false, txFifoEmpty := true), pc := AtTx(level))
    case JTx(level) => s.(pc := AtConfig(level))
    case JConfig(level) => s.(pc := AtEnd(level))
  }

  function SwitchOff(s: State, level: nat): State {
    var mode1 := SetBit(s.port.mode1, MODE1_TXDIS);
    s.(port := s.port.(mode1 := mode1), pc := Xfer(JTxOff(level), [Wr(MODE1, mode1)], []))
  }

  /** A TX-empty interrupt switches the transmitter off before the flag goes up. */
  function FinishIrq(s: State, status: Byte, level: nat): State {
    if HasBit(status, IRQ_TXEMPTY) then SwitchOff(s, level) else s.(pc := AtTx(level))
  }

  function FromRx(s: State, level: nat): State {
    if !s.port.rxEnabled || level == 0 then s.(pc := AtIrq)
    else s.(pc := AtRxLoop(if level >= RX_FIFO_SIZE then RX_FIFO_SIZE else level))
  }

  /** One transfer that takes level bytes out of the RX FIFO. */
  function RxBurst(s: State, level: nat): State {
    s.(port := RxPort(s.port), pc := Xfer(JRx(|RxQuiet(s.port.irqen)|, level), RxProgram(s.port.irqen, level), []))
  }

  /** The RX interrupt goes back on. */
  function RxReopen(s: State): State {
    var irqen := SetBit(s.port.irqen, IRQ_RXFIFO);
    s.(port := s.port.(irqen := irqen), pc := Xfer(JRxOn, [Wr(IRQEN, irqen)], []))
  }

  function FromRxLoop(s: State, level: nat): State {
    if level > 0 then RxBurst(s, level)
    else if s.port.rxEnabled then RxReopen(s)
    else s.(pc := AtIrq)
  }

  function FromIrq(s: State): State {
    if s.port.handleIrq then s.(port := s.port.(handleIrq := false), pc := Xfer(JIrq, IrqProgram(), []))
    else s.(pc := AtTx(0))
  }

  function Take(pending: seq<Byte>): (n: nat)
    ensures n <= |pending|
  {
    if |pending| > TX_FIFO_SIZE then TX_FIFO_SIZE else |pending|
  }

  /** The first n pending bytes go into one transfer. */
  function Send(s: State, level: nat, n: nat): State
    requires n <= |s.pending|
  {
    s.(port := TxPort(s.port), pending := s.pending[n..],
       pc := Xfer(JTx(level), TxProgram(s.port, s.pending[..n]), []))
  }

  function FromTx(s: State, level: nat, txStopped: bool): State {
    if !s.port.txFifoEmpty || s.pending == [] || txStopped then s.(pc := AtConfig(level))
    else Send(s, level, Take(s.pending))
  }

  function FromConfig(s: State, level: nat): State {
    var words := ConfigProgram(s.port);
    s.(port := ConfigPort(s.port), pc := if words == [] then AtEnd(level) else Xfer(JConfig(level), words, []))
  }

  /** The next decision of the work thread. */
  function Decide(s: State, txStopped: bool): State
    requires Enabled(s, Advance(txStopped))
  {
    match s.pc
    case Xfer(_, _, _) => Finish(s)
    case AtRx(level) => FromRx(s, level)
    case AtRxLoop(level) => FromRxLoop(s, level)
    case AtIrq => FromIrq(s)
    case AtTx(level) => FromTx(s, level, txStopped)
    case AtConfig(level) => FromConfig(s, level)
    case AtEnd(level) => s.(pc := if level > 0 then AtRx(level) else Idle)
  }

  /* ---------------------------------------------------------------- events */

  predicate SleepBit(b: Byte) {
    b == MODE1_FORCESLEEP || b == MODE1_AUTOSLEEP
  }

  predicate Enabled(s: State, e: Event) {
    Shaped(s.pc) &&
    match e
    case StartWork => s.pc.Idle?
    case Reply(w) => Todo(s.pc) != [] && Answers(s.dev, Todo(s.pc)[0], w)
    case Advance(_) => !s.pc.Idle? && Todo(s.pc) == []
    case ShiftOut => Transmitting(s.dev)
    case Arrive(_) => |s.dev.rx| < RX_FIFO_SIZE
    case NoteSleep(b, _) => s.sleep.None? && SleepBit(b)
    case SleepWord => s.sleep.Some?
    case _ => true
  }

  function ToggleBit(v: Byte, b: Byte, on: bool): Byte {
    if on then SetBit(v, b) else ClearBit(v, b)
  }

  /** New line settings are only noted; the work thread will commit what has changed. */
  function NewTermios(p: Port, lcr: Byte, brg: Brg): Port {
    p.(lcr := lcr, lcrCommit := p.lcrCommit || p.lcr != lcr, brg := brg, brgCommit := p.brgCommit || p.brg != brg)
  }

  function StoppedRx(p: Port): Port {
    p.(mode1 := SetBit(p.mode1, MODE1_RXDIS), mode1Commit := true, rxEnabled := false)
  }

  /** One word of a transfer crosses the SPI. */
  function Exchange(s: State, reply: Word): State
    requires Enabled(s, Reply(reply))
  {
    s.(dev := Exec(s.dev, Todo(s.pc)[0]), pc := s.pc.(replies := s.pc.replies + [reply]))
  }

  function Apply(s: State, e: Event): State
    requires Enabled(s, e)
  {
    match e
    case StartWork => s.(pc := Xfer(JLevel, [Rd(RXFIFOLVL)], []))
    case Reply(w) => Exchange(s, w)
    case Advance(txStopped) => Decide(s, txStopped)
    case Queue(bytes) => s.(pending := s.pending + bytes, queued := s.queued + bytes)
    case ShiftOut => s.(dev := Shift(s.dev), wire := s.wire + [s.dev.tx[0]])
    case Arrive(b) => s.(dev := s.dev.(rx := s.dev.rx + [b]), arrived := s.arrived + [b])
    case Irq => s.(port := s.port.(handleIrq := true))
    case StopRx => s.(port := StoppedRx(s.port))
    case SetTermios(lcr, brg) => s.(port := NewTermios(s.port, lcr, brg))
    case NoteSleep(b, on) =>
      var mode1 := ToggleBit(s.port.mode1, b, on);
      s.(port := s.port.(mode1 := mode1), sleep := Some(mode1))
    case SleepWord => s.(dev := Exec(s.dev, Wr(MODE1, s.sleep.value)), sleep := None)
  }

  /** This decision begins to send. */
  predicate BeginsToSend(s: State, txStopped: bool) {
    s.pc.AtTx? && s.port.txFifoEmpty && s.pending != [] && !txStopped
  }

  /** This decision of the work thread changes the TX-disable bit of the shadow: it acts on a TX-empty interrupt,
      or begins to send. */
  predicate SwitchesTx(s: State, txStopped: bool)
    requires Enabled(s, Advance(txStopped))
  {
    || (s.pc.Xfer? && s.pc.job.JIrq? && HasBit(ValOf(s.pc.replies[0]), IRQ_TXEMPTY) && !TxDisabled(s.port.mode1))
    || (BeginsToSend(s, txStopped) && !s.port.txEnabled && TxDisabled(s.port.mode1))
  }

  /** events lead from s to s'. */
  predicate Run(s: State, events: seq<Event>, s': State)
    decreases |events|
  {
    if events == [] then s == s'
    else Enabled(s, events[0]) && Run(Apply(s, events[0]), events[1..], s')
  }

  /** Nothing has happened yet since the registers were initialised. */
  predicate Start(s: State) {
    && s.pc.Idle? && s.sleep.None? && s.pending == s.queued == s.wire == s.arrived == s.pushed == []
    && s.dev == Device(s.dev.regs, false, [], [])
    && s.dev.regs == Regs(s.port.mode1, s.port.lcr, s.port.brg.msb, s.port.brg.lsb, s.port.brg.cfg, s.port.irqen,
                          s.dev.regs.mode2)
    && s.port.txFifoEmpty && s.port.rxEnabled && !s.port.txEnabled
    && !s.port.mode1Commit && !s.port.lcrCommit && !s.port.brgCommit
    && TxDisabled(s.port.mode1) && HasBit(s.port.irqen, IRQ_RXFIFO)
  }

  /* ---------------------------------------------------------------- shapes */

  lemma FinishKeepsShape(s: State)
    requires Shaped(s.pc) && s.pc.Xfer? && |s.pc.replies| == |s.pc.words|
    ensures Shaped(Finish(s).pc)
  {
  }

  lemma RxBurstKeepsShape(s: State, level: nat)
    ensures Shaped(RxBurst(s, level).pc)
  {
  }

  lemma RxReopenKeepsShape(s: State)
    ensures Shaped(RxReopen(s).pc)
  {
  }

  lemma RxLoopKeepsShape(s: State, level: nat)
    ensures Shaped(FromRxLoop(s, level).pc)
  {
  }

  lemma TxKeepsShape(s: State, level: nat, txStopped: bool)
    ensures Shaped(FromTx(s, level, txStopped).pc)
  {
  }

  lemma CommitsArePlain(p: Port)
    ensures WritesOnly(Mode1Words(p)) && WritesOnly(LcrWords(p)) && WritesOnly(BrgWords(p))
  {
  }

  lemma ConfigKeepsShape(s: State, level: nat)
    ensures Shaped(FromConfig(s, level).pc)
  {
    CommitsArePlain(s.port);
  }

  lemma DecideKeepsShape(s: State, txStopped: bool)
    requires Enabled(s, Advance(txStopped))
    ensures Shaped(Decide(s, txStopped).pc)
  {
    match s.pc
    case Xfer(_, _, _) => FinishKeepsShape(s);
    case AtRxLoop(level) => RxLoopKeepsShape(s, level);
    case AtTx(level) => TxKeepsShape(s, level, txStopped);
    case AtConfig(level) => ConfigKeepsShape(s, level);
    case _ =>
  }

  lemma StepKeepsShape(s: State, e: Event)
    requires Enabled(s, e)
    ensures Shaped(Apply(s, e).pc)
  {
    match e
    case Advance(txStopped) => DecideKeepsShape(s, txStopped);
    case _ =>
  }

  /** A word gone is a word less to do. */
  lemma ExchangeTodo(s: State, reply: Word)
    requires Enabled(s, Reply(reply))
    ensures Todo(Exchange(s, reply).pc) == Todo(s.pc)[1..]
    ensures Exchange(s, reply).dev.regs == WriteReg(s.dev.regs, Todo(s.pc)[0])
  {
  }

  /** No word of the work thread resets the FIFOs. */
  lemma NothingResets(pc: Pc)
    requires Shaped(pc) && Todo(pc) != []
    ensures !Resets(Todo(pc)[0])
  {
    assert Todo(pc)[0] == pc.words[|pc.replies|];
    if pc.job.JIrq? {
      IrqProgramMeaning(Regs(0, 0, 0, 0, 0, 0, 0));
    } else {
      DecodeRd(RXFIFOLVL);
      DecodeRd(FIFO);
    }
  }

  /** The word of set_sleep writes MODE1 and does nothing else. */
  lemma SleepWordWrites(d: Device, v: Byte)
    ensures Exec(d, Wr(MODE1, v)) == d.(regs := d.regs.(mode1 := v))
  {
    DecodeWr(MODE1, v);
  }
}
