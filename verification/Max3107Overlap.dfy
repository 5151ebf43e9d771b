/** Calls of set_sleep that stay apart from the transfers of the work thread are harmless; and runs in which one comes
    between.  For MODE1 every step that is not orderly can lead to a lasting wrong value; that the conditions on the
    transmitter are exact as well is shown in Max3107Disorder and Max3107Stall. */
module Max3107Overlap {
  import opened Max3107Calm
  import opened Max3107Device
  import opened Max3107Programs
  import opened Max3107System
  import opened Wrappers
  import C = Max3107Coherence
  import D = Max3107Disorder
  import P = Max3107Progress
  import T = Max3107Transmit

  /* ---------------------------------------------------------------- a simple rule for callers */

  /** set_sleep begins between two transfers of the work thread, which decides nothing until its word is out. */
  predicate SleepsApart(s: State, events: seq<Event>)
    decreases |events|
  {
    events == []
    || (Enabled(s, events[0])
        && (events[0].NoteSleep? ==> Todo(s.pc) == [])
        && (events[0].Advance? ==> s.sleep.None?)
        && SleepsApart(Apply(s, events[0]), events[1..]))
  }

  /** Callers that keep to this rule get what is promised for MODE1 and for the transmitter. */
  lemma {:induction false} SleepsApartAreOrderly(s: State, events: seq<Event>)
    requires SleepsApart(s, events)
    ensures C.OrderlyRun(s, events) && T.TxOrderlyRun(s, events) && P.LiveOrderlyRun(s, events)
    decreases |events|
  {
    if events != [] {
      SleepsApartAreOrderly(Apply(s, events[0]), events[1..]);
    }
  }

  /* ---------------------------------------------------------------- disorder is real */

  lemma CarryingWrites(pc: Pc)
    requires Shaped(pc) && Carries(Todo(pc))
    ensures WritesOnly(pc.words)
  {
    var todo := Todo(pc);
    if pc.job.JIrq? || pc.job.JLevel? || pc.job.JRx? {
      forall i | 0 <= i < |todo|
        ensures !Writes(todo[i], MODE1)
      {
        assert todo[i] == pc.words[|pc.replies| + i];
        DecodeRd(FIFO);
        DecodeRd(RXFIFOLVL);
        IrqProgramMeaning(Regs(0, 0, 0, 0, 0, 0, 0));
      }
      CarriesNone(todo);
    }
  }

  /** MODE1 of the device is not what the driver believes, nothing that could still change it is under way, and
      nobody has asked for a commit. */
  predicate WrongMode1(t: State) {
    t.sleep.None? && !Carries(Todo(t.pc)) && !t.port.mode1Commit && t.dev.regs.mode1 != t.port.mode1
  }

  /** Without a commit flag, when the words under way may leave another value, one order of them does. */
  lemma IncoherenceShows(u: State) returns (t: State)
    requires Shaped(u.pc) && u.sleep.Some? && !C.Mode1Coherent(u)
    ensures Reaches(u, t) && WrongMode1(t) && t.port == u.port
  {
    var v := u.sleep.value;
    if v != u.port.mode1 {
      if Carries(Todo(u.pc)) {
        t := WorkThenSleep(u);
      } else {
        t := Apply(u, SleepWord);
        SleepWordWrites(u.dev, v);
        ReachesSelf(t);
        ReachesAfter(u, SleepWord, t);
      }
    } else {
      t := SleepThenWork(u);
    }
  }

  lemma WorkThenSleep(u: State) returns (t: State)
    requires Shaped(u.pc) && u.sleep.Some? && Carries(Todo(u.pc))
    requires !u.port.mode1Commit && u.sleep.value != u.port.mode1
    ensures Reaches(u, t) && WrongMode1(t) && t.port == u.port
  {
    CarryingWrites(u.pc);
    var x := Drain(u);
    t := Apply(x, SleepWord);
    SleepWordWrites(x.dev, x.sleep.value);
    ReachesSelf(t);
    ReachesAfter(x, SleepWord, t);
    ReachesJoin(u, x, t);
  }

  lemma SleepThenWork(u: State) returns (t: State)
    requires Shaped(u.pc) && u.sleep.Some? && Carries(Todo(u.pc))
    requires !u.port.mode1Commit && C.Coming(u).mode1 != u.port.mode1
    ensures Reaches(u, t) && WrongMode1(t) && t.port == u.port
  {
    CarryingWrites(u.pc);
    C.SleepWordComing(u);
    var x := Apply(u, SleepWord);
    t := Drain(x);
    ExecAllRegs(x.dev, Todo(x.pc));
    ReachesAfter(u, SleepWord, t);
  }

  /** After a step that is not orderly the run can go on, without any further setting, to a state in which the
      device has the wrong MODE1 and nothing is under way to correct it. */
  lemma DisorderShows(s: State, e: Event) returns (t: State)
    requires C.Coherent(s) && Enabled(s, e) && !C.Orderly(s, e)
    ensures Reaches(Apply(s, e), t) && WrongMode1(t) && t.port == Apply(s, e).port
  {
    C.StepCoherentExactly(s, e);
    StepKeepsShape(s, e);
    C.StepKeepsRest(s, e);
    SleepStays(s, e);
    t := IncoherenceShows(Apply(s, e));
  }

  lemma SleepStays(s: State, e: Event)
    requires Enabled(s, e) && !C.Orderly(s, e)
    ensures Apply(s, e).sleep.Some?
  {
  }

  /* ---------------------------------------------------------------- runs from the start */

  /** One uneventful pass of the work thread, up to the transmit decision. */
  lemma QuietPass(s: State) returns (t: State)
    requires s.pc.Idle? && s.dev.rx == [] && !s.port.handleIrq
    ensures Reaches(s, t) && t == s.(pc := AtTx(0))
  {
    DecodeRd(RXFIFOLVL);
    var a := Apply(s, StartWork);
    var b := Apply(a, Reply(0));
    assert b.pc.replies == [0] && b.dev == s.dev;
    var c := Apply(b, Advance(false));
    assert c == s.(pc := AtRx(0));
    var d := Apply(c, Advance(false));
    t := Apply(d, Advance(false));
    ReachesSelf(t);
    ReachesAfter(d, Advance(false), t);
    ReachesAfter(c, Advance(false), t);
    ReachesAfter(b, Advance(false), t);
    ReachesAfter(a, Reply(0), t);
    ReachesAfter(s, StartWork, t);
  }

  /** A sleep mode noted just before receiving is stopped, in a word that arrives after the commit: from any start
      with the receiver on, the device ends up with another MODE1 than the shadow, and no commit is pending. */
  lemma LateSleepWord(s: State, b: Byte, on: bool) returns (t: State)
    requires Start(s) && !s.port.handleIrq && !HasBit(s.port.mode1, MODE1_RXDIS) && SleepBit(b)
    ensures Reaches(s, t) && WrongMode1(t)
  {
    var noted := Apply(s, NoteSleep(b, on));
    var stopped := Apply(noted, StopRx);
    var x := QuietPass(stopped);
    var y := Apply(x, Advance(false));
    StoppedDiffers(s.port.mode1, b, on);
    t := DisorderShows(y, Advance(false));
    ReachesAfter(y, Advance(false), t);
    ReachesAfter(x, Advance(false), t);
    ReachesJoin(stopped, x, t);
    ReachesAfter(noted, StopRx, t);
    ReachesAfter(s, NoteSleep(b, on), t);
  }

  lemma StoppedDiffers(v: Byte, b: Byte, on: bool)
    requires !HasBit(v, MODE1_RXDIS) && SleepBit(b)
    ensures SetBit(ToggleBit(v, b, on), MODE1_RXDIS) != ToggleBit(v, b, on)
  {
  }

  /** Data in the FIFO, a transmitter that is off, and no interrupt to come. */
  predicate Stalled(t: State) {
    && t.pc.Idle? && t.sleep.None? && !t.port.txFifoEmpty && t.dev.tx != []
    && !Transmitting(t.dev) && !t.dev.txEmpty && t.pending == []
  }

  /** A sleep mode noted while the transmitter is off, in a word that arrives after it has been switched on: from any
      start the byte sent in between stays in the FIFO. */
  lemma StalledBySleep(s: State, b: Byte, on: bool, byte: Byte) returns (t: State)
    requires Start(s) && !s.port.handleIrq && SleepBit(b)
    ensures Reaches(s, t) && Stalled(t)
  {
    TxDisableUntouched(s.port.mode1, b);
    var noted := Apply(s, NoteSleep(b, on));
    var queued := Apply(noted, Queue([byte]));
    assert queued.pending == [byte];
    var x := QuietPass(queued);
    var y := SendOne(x);
    t := Apply(y, SleepWord);
    SleepWordWrites(y.dev, y.sleep.value);
    ReachesSelf(t);
    ReachesAfter(y, SleepWord, t);
    ReachesJoin(x, y, t);
    ReachesJoin(queued, x, t);
    ReachesAfter(noted, Queue([byte]), t);
    ReachesAfter(s, NoteSleep(b, on), t);
  }

  /** From the transmit decision with one byte pending to the end of the pass. */
  lemma SendOne(s: State) returns (t: State)
    requires s.pc == AtTx(0) && s.port.txFifoEmpty && |s.pending| == 1 && s.dev.tx == []
    requires !s.port.mode1Commit && !s.port.lcrCommit && !s.port.brgCommit
    ensures Reaches(s, t) && t.pc.Idle? && t.port == TxPort(s.port) && t.pending == [] && t.sleep == s.sleep
    ensures t.wire == s.wire && t.queued == s.queued
    ensures t.dev == Device(Settle(s.dev.regs, TxProgram(s.port, s.pending)), s.dev.txEmpty, s.pending, s.dev.rx)
  {
    var a := Apply(s, Advance(false));
    assert s.pending[..1] == s.pending;
    TxProgramMeaning(s.port, s.pending, s.dev.regs);
    StepKeepsShape(s, Advance(false));
    var b := Drain(a);
    ExecAllWrites(a.dev, Todo(a.pc));
    t := Finished(b);
    ReachesJoin(a, b, t);
    ReachesAfter(s, Advance(false), t);
  }

  /** From the end of a TX transfer to the end of the pass, with nothing to commit. */
  lemma Finished(s: State) returns (t: State)
    requires Shaped(s.pc) && s.pc.Xfer? && s.pc.job == JTx(0) && Todo(s.pc) == []
    requires !s.port.mode1Commit && !s.port.lcrCommit && !s.port.brgCommit
    ensures Reaches(s, t) && t == s.(pc := Idle)
  {
    var a := Apply(s, Advance(false));
    var b := Apply(a, Advance(false));
    assert b == s.(pc := AtEnd(0));
    t := Apply(b, Advance(false));
    ReachesSelf(t);
    ReachesAfter(b, Advance(false), t);
    ReachesAfter(a, Advance(false), t);
    ReachesAfter(s, Advance(false), t);
  }

  /* ---------------------------------------------------------------- a FIFO that only seems empty */

  predicate NothingFlagged(p: Port) {
    !p.mode1Commit && !p.lcrCommit && !p.brgCommit
  }

  /** What a pass that serves a TX-empty interrupt leaves behind. */
  function EmptySeen(p: Port): Port {
    p.(handleIrq := false, mode1 := SetBit(p.mode1, MODE1_TXDIS), txEnabled := false, txFifoEmpty := true)
  }

  /** The pass up to the interrupt. */
  lemma PassToIrq(s: State) returns (t: State)
    requires s.pc.Idle? && s.dev.rx == []
    ensures Reaches(s, t) && t == s.(pc := AtIrq)
  {
    DecodeRd(RXFIFOLVL);
    var a := Apply(s, StartWork);
    var b := Apply(a, Reply(0));
    assert b.pc.replies == [0] && b.dev == s.dev;
    var c := Apply(b, Advance(false));
    t := Apply(c, Advance(false));
    ReachesSelf(t);
    ReachesAfter(c, Advance(false), t);
    ReachesAfter(b, Advance(false), t);
    ReachesAfter(a, Reply(0), t);
    ReachesAfter(s, StartWork, t);
  }

  /** One of the words that only ask. */
  lemma AskOne(s: State, reply: Word) returns (t: State)
    requires s.pc.Xfer? && s.pc.job == JIrq && s.pc.words == IrqProgram() && |s.pc.replies| < 4 && s.dev.rx == []
    requires ValOf(reply) as nat == 0 || s.pc.replies == []
    requires s.pc.replies == [] ==> HasBit(ValOf(reply), IRQ_TXEMPTY) == s.dev.txEmpty
    ensures Reaches(s, t) && t == s.(pc := s.pc.(replies := s.pc.replies + [reply]),
                                     dev := if s.pc.replies == [] then s.dev.(txEmpty := false) else s.dev)
  {
    DecodeRd(IRQSTS);
    DecodeRd(STS_IRQSTS);
    DecodeRd(LSR_IRQSTS);
    DecodeRd(RXFIFOLVL);
    assert Todo(s.pc)[0] == IrqProgram()[|s.pc.replies|];
    t := Apply(s, Reply(reply));
    ReachesSelf(t);
    ReachesAfter(s, Reply(reply), t);
  }

  /** The four status words, answered with a TX-empty bit. */
  lemma StatusWords(s: State) returns (t: State)
    requires s.pc == Xfer(JIrq, IrqProgram(), []) && s.dev.txEmpty && s.dev.rx == []
    ensures Reaches(s, t) && t == s.(dev := s.dev.(txEmpty := false), pc := Xfer(JIrq, IrqProgram(), [0x20, 0, 0, 0]))
  {
    var a := AskOne(s, 0x20);
    var b := AskOne(a, 0);
    var c := AskOne(b, 0);
    t := AskOne(c, 0);
    assert t.pc.replies == [0x20, 0, 0, 0];
    ReachesJoin(b, c, t);
    ReachesJoin(a, b, t);
    ReachesJoin(s, a, t);
  }

  /** The interrupt served: the transmitter off, and the flag up. */
  lemma ServeEmpty(s: State) returns (t: State)
    requires s.pc.AtIrq? && s.port.handleIrq && s.dev.txEmpty && s.dev.rx == []
    ensures Reaches(s, t) && t == s.(port := EmptySeen(s.port), pc := AtTx(0),
                                     dev := s.dev.(txEmpty := false,
                                                   regs := s.dev.regs.(mode1 := EmptySeen(s.port).mode1)))
  {
    var a := Apply(s, Advance(false));
    var b := StatusWords(a);
    var c := Apply(b, Advance(false));
    var mode1 := EmptySeen(s.port).mode1;
    assert c.pc == Xfer(JTxOff(0), [Wr(MODE1, mode1)], []);
    DecodeWr(MODE1, mode1);
    var d := Apply(c, Reply(0));
    assert d.pc.replies == [0];
    t := Apply(d, Advance(false));
    ReachesSelf(t);
    ReachesAfter(d, Advance(false), t);
    ReachesAfter(c, Reply(0), t);
    ReachesAfter(b, Advance(false), t);
    ReachesJoin(a, b, t);
    ReachesAfter(s, Advance(false), t);
  }

  /** A pass with a TX-empty interrupt and nothing to send. */
  lemma IrqPass(s: State) returns (t: State)
    requires s.pc.Idle? && s.dev.rx == [] && s.pending == [] && s.dev.txEmpty && NothingFlagged(s.port)
    ensures Reaches(s, t)
    ensures t == s.(port := EmptySeen(s.port), dev := s.dev.(txEmpty := false,
                                                             regs := s.dev.regs.(mode1 := EmptySeen(s.port).mode1)))
  {
    var a := Apply(s, Irq);
    var b := PassToIrq(a);
    var c := ServeEmpty(b);
    t := NothingToSend(c);
    ReachesJoin(b, c, t);
    ReachesJoin(a, b, t);
    ReachesAfter(s, Irq, t);
  }

  lemma NothingToSend(s: State) returns (t: State)
    requires s.pc == AtTx(0) && s.pending == [] && NothingFlagged(s.port)
    ensures Reaches(s, t) && t == s.(pc := Idle)
  {
    var a := Apply(s, Advance(false));
    var b := Apply(a, Advance(false));
    assert b == s.(pc := AtEnd(0));
    t := Apply(b, Advance(false));
    ReachesSelf(t);
    ReachesAfter(b, Advance(false), t);
    ReachesAfter(a, Advance(false), t);
    ReachesAfter(s, Advance(false), t);
  }

  /** Two bytes go into a FIFO whose transmitter is on already, and the first leaves before the second is in: the
      device reports an empty FIFO, and then it holds a byte. */
  lemma SendTwo(s: State) returns (t: State)
    requires s.pc == AtTx(0) && s.port.txFifoEmpty && !s.port.txEnabled && |s.pending| == 2 && s.dev.tx == []
    requires HasBit(s.port.irqen, IRQ_TXEMPTY) && !TxDisabled(s.dev.regs.mode1) && NothingFlagged(s.port)
    ensures Reaches(s, t) && t.pc.Idle? && t.pending == [] && NothingFlagged(t.port) && t.sleep == s.sleep
    ensures t.dev.tx == [s.pending[1]] && t.dev.txEmpty && t.dev.rx == s.dev.rx
    ensures t.wire == s.wire + [s.pending[0]] && t.queued == s.queued
  {
    var a := Apply(s, Advance(false));
    StepKeepsShape(s, Advance(false));
    assert s.pending[..2] == s.pending && s.pending[2..] == [];
    TwoWords(s.port, s.pending);
    var d := TwoEarly(a, s.pending);
    t := Finished(d);
    ReachesJoin(a, d, t);
    ReachesAfter(s, Advance(false), t);
  }

  lemma TwoEarly(a: State, data: seq<Byte>) returns (d: State)
    requires a.pc.Xfer? && Shaped(a.pc) && a.pc.replies == [] && TwoBytes(a.pc.words, data)
    requires a.dev.tx == [] && !TxDisabled(a.dev.regs.mode1)
    ensures Reaches(a, d) && d == a.(dev := d.dev, pc := d.pc, wire := a.wire + [data[0]])
    ensures Shaped(d.pc) && d.pc.Xfer? && d.pc.job == a.pc.job && Todo(d.pc) == []
    ensures d.dev.tx == [data[1]] && d.dev.txEmpty && d.dev.rx == a.dev.rx
  {
    var b := FirstByte(a, data);
    var c := Apply(b, ShiftOut);
    d := Drain(c);
    ExecAllWrites(c.dev, Todo(c.pc));
    ReachesAfter(b, ShiftOut, d);
    ReachesJoin(a, b, d);
  }

  /** A program that begins with an interrupt word and a byte, and has one more byte to go after that. */
  predicate TwoBytes(words: seq<Word>, data: seq<Byte>) {
    && |words| >= 2 && |data| == 2 && WritesOnly(words) && DataOf(words[2..]) == [data[1]]
    && Writes(words[0], IRQEN) && Writes(words[1], FIFO) && ValOf(words[1]) == data[0]
  }

  lemma FirstByte(a: State, data: seq<Byte>) returns (b: State)
    requires a.pc.Xfer? && Shaped(a.pc) && a.pc.replies == [] && TwoBytes(a.pc.words, data) && a.dev.tx == []
    ensures Reaches(a, b) && b == a.(dev := b.dev, pc := b.pc) && Shaped(b.pc)
    ensures b.pc.Xfer? && b.pc.job == a.pc.job && b.pc.words == a.pc.words && DataOf(Todo(b.pc)) == [data[1]]
    ensures b.dev == a.dev.(tx := [data[0]], regs := b.dev.regs) && b.dev.regs.mode1 == a.dev.regs.mode1
  {
    var words := a.pc.words;
    assert Todo(a.pc) == words;
    var m := WriteOne(a);
    b := WriteOne(m);
    assert words[1..][1..] == words[2..];
    ReachesJoin(a, m, b);
  }

  /** One word of a writing transfer. */
  lemma WriteOne(s: State) returns (t: State)
    requires Shaped(s.pc) && s.pc.Xfer? && WritesOnly(s.pc.words) && Todo(s.pc) != []
    requires |s.dev.tx| + |Pushed(Todo(s.pc)[0])| <= TX_FIFO_SIZE
    ensures Reaches(s, t) && t == s.(dev := t.dev, pc := t.pc) && Shaped(t.pc)
    ensures t.pc.Xfer? && t.pc.job == s.pc.job && t.pc.words == s.pc.words && Todo(t.pc) == Todo(s.pc)[1..]
    ensures t.dev == Device(WriteReg(s.dev.regs, Todo(s.pc)[0]), s.dev.txEmpty,
                            s.dev.tx + Pushed(Todo(s.pc)[0]), s.dev.rx)
  {
    assert Todo(s.pc)[0] == s.pc.words[|s.pc.replies|];
    ExecWrite(s.dev, Todo(s.pc)[0]);
    t := Apply(s, Reply(0));
    ExchangeTodo(s, 0);
    StepKeepsShape(s, Reply(0));
    ReachesSelf(t);
    ReachesAfter(s, Reply(0), t);
  }

  lemma TwoWords(p: Port, data: seq<Byte>)
    requires HasBit(p.irqen, IRQ_TXEMPTY) && |data| == 2
    ensures TwoBytes(TxProgram(p, data), data)
  {
    var words := TxProgram(p, data);
    DecodeWr(IRQEN, ClearBit(p.irqen, IRQ_TXEMPTY));
    DecodeWr(FIFO, data[0]);
    TxProgramMeaning(p, data, Regs(0, 0, 0, 0, 0, 0, 0));
    assert words[0] == TxQuiet(p)[0] && words[1] == DataWords(data)[0];
    TwoDropped(words, data);
  }

  lemma TwoDropped(words: seq<Word>, data: seq<Byte>)
    requires |words| >= 2 && DataOf(words) == data && |data| == 2
    requires Pushed(words[0]) == [] && Pushed(words[1]) == [data[0]]
    ensures DataOf(words[2..]) == [data[1]]
  {
    assert words[1..][1..] == words[2..];
    assert DataOf(words) == Pushed(words[0]) + DataOf(words[1..]);
    assert DataOf(words[1..]) == [data[0]] + DataOf(words[2..]);
    assert DataOf(words[2..]) == data[1..];
  }

  /** The driver reports that everything has been sent, and it has not. */
  predicate FalselyEmpty(t: State) {
    t.pc.Idle? && t.sleep.None? && t.port.txFifoEmpty && t.pending == [] && t.wire != t.queued
  }

  /** A sleep mode noted while the transmitter is on, in a word that arrives after it has been switched off: from any
      start the driver can come to report an empty transmitter while a byte is still in the FIFO. */
  lemma FalselyEmptyBySleep(s: State, b: Byte, on: bool, first: Byte, second: Byte, third: Byte) returns (t: State)
    requires Start(s) && !s.port.handleIrq && SleepBit(b)
    ensures Reaches(s, t) && FalselyEmpty(t)
    ensures |t.dev.tx| == 1 && t.dev.rx == [] && !t.port.handleIrq
  {
    var x := FirstSent(s, first);
    var y := SleepAcrossSwitch(x, b, on);
    var z := Apply(y, Queue([second, third]));
    assert z.pending == [second, third];
    var a := QuietPass(z);
    var c := SendTwo(a);
    t := IrqPass(c);
    ReachesJoin(a, c, t);
    ReachesJoin(z, a, t);
    ReachesAfter(y, Queue([second, third]), t);
    ReachesJoin(x, y, t);
    ReachesJoin(s, x, t);
  }

  /** One byte sent: the transmitter is on and its interrupt enabled. */
  lemma FirstSent(s: State, first: Byte) returns (t: State)
    requires Start(s) && !s.port.handleIrq
    ensures Reaches(s, t) && t.pc.Idle? && t.sleep.None? && t.pending == [] && t.port == TxPort(s.port)
    ensures t.dev == t.dev.(tx := [first], rx := []) && t.wire == [] && t.queued == [first]
    ensures !TxDisabled(t.dev.regs.mode1) && !TxDisabled(t.port.mode1) && HasBit(t.port.irqen, IRQ_TXEMPTY)
  {
    var x := Apply(s, Queue([first]));
    assert x.pending == [first];
    var y := QuietPass(x);
    t := SendOne(y);
    TxProgramMeaning(s.port, [first], s.dev.regs);
    TxDisableBit(s.port.mode1);
    IrqBits(ClearBit(s.port.irqen, IRQ_TXEMPTY));
    ReachesJoin(x, y, t);
    ReachesAfter(s, Queue([first]), t);
  }

  /** The sleep mode is noted, the byte leaves, the interrupt switches the transmitter off, and the word arrives. */
  lemma SleepAcrossSwitch(s: State, b: Byte, on: bool) returns (t: State)
    requires s.pc.Idle? && s.sleep.None? && s.pending == [] && |s.dev.tx| == 1 && s.dev.rx == []
    requires !TxDisabled(s.dev.regs.mode1) && !TxDisabled(s.port.mode1) && SleepBit(b) && NothingFlagged(s.port)
    ensures Reaches(s, t) && t.pc.Idle? && t.sleep.None? && t.pending == [] && t.dev.tx == [] && t.dev.rx == []
    ensures t.wire == s.wire + s.dev.tx && t.queued == s.queued && NothingFlagged(t.port) && !t.port.handleIrq
    ensures t.port.txFifoEmpty && !t.port.txEnabled && t.port.irqen == s.port.irqen && !TxDisabled(t.dev.regs.mode1)
  {
    TxDisableUntouched(s.port.mode1, b);
    var x := Apply(s, NoteSleep(b, on));
    var y := Apply(x, ShiftOut);
    var z := IrqPass(y);
    t := Apply(z, SleepWord);
    SleepWordWrites(z.dev, z.sleep.value);
    assert [s.dev.tx[0]] == s.dev.tx;
    ReachesSelf(t);
    ReachesAfter(z, SleepWord, t);
    ReachesJoin(y, z, t);
    ReachesAfter(x, ShiftOut, t);
    ReachesAfter(s, NoteSleep(b, on), t);
  }

  /** And then a byte can be lost for good: the next full transfer does not fit behind the one still there. */
  lemma LossBySleep(s: State, b: Byte, on: bool, first: Byte, second: Byte, third: Byte) returns (t: State)
    requires Start(s) && !s.port.handleIrq && SleepBit(b)
    ensures Reaches(s, t) && Lost(t)
    ensures forall u :: Reaches(t, u) ==> !T.Conserved(u)
  {
    var a := FalselyEmptyBySleep(s, b, on, first, second, third);
    var c := QuietPass(a);
    t := D.Overflow(c);
    CalmIsReached(c, t);
    ReachesJoin(s, a, c);
    ReachesFindsNone(s, c);
    ReachesJoin(s, c, t);
    forall u | Reaches(t, u)
      ensures !T.Conserved(u)
    {
      ReachesFindsNone(t, u);
    }
  }
}
