/** Transmitting: no byte is lost, doubled or reordered between the tty and the wire, as long as set_sleep does not
    switch the transmitter on at the wrong moment. */
module Max3107Transmit {
  import opened Max3107Device
  import opened Max3107Programs
  import opened Max3107System
  import opened Wrappers
  import C = Max3107Coherence

  /** The bytes the transfer under way has still to push. */
  function Coming(s: State): seq<Byte> {
    DataOf(Todo(s.pc))
  }

  /** The interrupt handler has seen the TX-empty bit and is about to raise the flag. */
  predicate SeenEmpty(pc: Pc) {
    && pc.Xfer?
    && (pc.job.JTxOff? || (pc.job.JIrq? && pc.replies != [] && HasBit(ValOf(pc.replies[0]), IRQ_TXEMPTY)))
  }

  /** Every byte is accounted for. */
  predicate Conserved(s: State) {
    s.wire + s.dev.tx + Coming(s) + s.pending == s.queued
  }

  /** What the driver, or the device, knows about the TX FIFO being empty is true. */
  predicate EmptyIsTrue(s: State) {
    && (s.port.txFifoEmpty || SeenEmpty(s.pc) || s.dev.txEmpty ==> s.dev.tx == [] && Coming(s) == [])
    && (s.port.txFifoEmpty || SeenEmpty(s.pc) ==> !s.dev.txEmpty)
  }

  /** The transmitter flag and the shadow agree, and a transmitter that the shadow has off is off in the device. */
  predicate Switch(s: State) {
    && (s.port.txFifoEmpty ==> !s.port.txEnabled)
    && TxDisabled(s.port.mode1) == (!s.port.txEnabled || (s.pc.Xfer? && s.pc.job.JTxOff?))
    && (TxDisabled(s.port.mode1) ==> TxDisabled(Settle(s.dev.regs, Todo(s.pc)).mode1))
  }

  /** No data is to come, or just one byte for an empty FIFO: nothing can leave before all of it is in. */
  predicate CannotRunAhead(s: State) {
    Coming(s) == [] || (|Coming(s)| == 1 && s.dev.tx == [])
  }

  /** The bytes to come fit the FIFO, and the transmitter is off if some of them could leave before the last is in. */
  predicate Room(s: State) {
    && |s.dev.tx| + |Coming(s)| <= TX_FIFO_SIZE
    && (TxDisabled(s.dev.regs.mode1) || CannotRunAhead(s))
    && DataFirst(Todo(s.pc)) && (Coming(s) != [] ==> s.pc.job.JTx? && s.port.txEnabled)
  }

  /** Nor does a sleep word under way switch the transmitter on in either case. */
  predicate SleepIsHarmless(s: State) {
    s.sleep.Some? && !TxDisabled(s.sleep.value) ==> !TxDisabled(s.port.mode1) && CannotRunAhead(s)
  }

  predicate TxInv(s: State) {
    Shaped(s.pc) && Conserved(s) && EmptyIsTrue(s) && Switch(s) && Room(s) && SleepIsHarmless(s)
  }

  /** What the data asks of set_sleep: no sleep mode is noted while the FIFO could run empty before all the bytes to
      come are in, and the interrupt handler does not switch the transmitter off while a sleep word is under way that
      would switch it on again. */
  predicate TxOrderly(s: State, e: Event)
    requires Enabled(s, e)
  {
    match e
    case NoteSleep(_, _) => CannotRunAhead(s)
    case Advance(_) =>
      s.sleep.Some? && s.pc.Xfer? && s.pc.job.JIrq? && SeenEmpty(s.pc) ==> TxDisabled(s.sleep.value)
    case _ => true
  }

  /* ---------------------------------------------------------------- one word */

  lemma MoveOver(wire: seq<Byte>, tx: seq<Byte>, b: seq<Byte>, rest: seq<Byte>, pending: seq<Byte>)
    ensures wire + (tx + b) + rest + pending == wire + tx + (b + rest) + pending
  {
  }

  lemma ReplyPushes(s: State, reply: Word)
    requires TxInv(s) && Enabled(s, Reply(reply))
    ensures Exchange(s, reply).dev.tx == s.dev.tx + Pushed(Todo(s.pc)[0])
  {
    NothingResets(s.pc);
  }

  lemma ReplyConserves(s: State, reply: Word)
    requires TxInv(s) && Enabled(s, Reply(reply))
    ensures Conserved(Exchange(s, reply))
  {
    var todo := Todo(s.pc);
    ExchangeTodo(s, reply);
    ReplyPushes(s, reply);
    MoveOver(s.wire, s.dev.tx, Pushed(todo[0]), DataOf(todo[1..]), s.pending);
  }

  lemma ReplyKeepsRoom(s: State, reply: Word)
    requires TxInv(s) && Enabled(s, Reply(reply))
    ensures Room(Exchange(s, reply))
  {
    ExchangeTodo(s, reply);
    ReplyPushes(s, reply);
  }

  lemma ReplyKeepsSwitch(s: State, reply: Word)
    requires TxInv(s) && Enabled(s, Reply(reply))
    ensures Switch(Exchange(s, reply))
  {
    ExchangeTodo(s, reply);
  }

  lemma ReplyKeepsEmpty(s: State, reply: Word)
    requires TxInv(s) && Enabled(s, Reply(reply))
    ensures EmptyIsTrue(Exchange(s, reply))
  {
    ExchangeTodo(s, reply);
    ReplyPushes(s, reply);
    DecodeRd(IRQSTS);
  }

  lemma ReplyKeepsHarmless(s: State, reply: Word)
    requires TxInv(s) && Enabled(s, Reply(reply))
    ensures SleepIsHarmless(Exchange(s, reply))
  {
    ExchangeTodo(s, reply);
  }

  lemma ReplyKeepsTx(s: State, reply: Word)
    requires TxInv(s) && Enabled(s, Reply(reply))
    ensures TxInv(Exchange(s, reply))
  {
    StepKeepsShape(s, Reply(reply));
    ReplyConserves(s, reply);
    ReplyKeepsRoom(s, reply);
    ReplyKeepsSwitch(s, reply);
    ReplyKeepsEmpty(s, reply);
    ReplyKeepsHarmless(s, reply);
  }

  /* ---------------------------------------------------------------- decisions */

  lemma SwitchOffKeepsTx(s: State, level: nat)
    requires TxInv(s) && Todo(s.pc) == [] && SeenEmpty(s.pc)
    ensures TxInv(SwitchOff(s, level)) <==> (s.sleep.Some? ==> TxDisabled(s.sleep.value))
  {
    var mode1 := SetBit(s.port.mode1, MODE1_TXDIS);
    SettleMode1(s.dev.regs, mode1);
    TxDisableBit(s.port.mode1);
  }

  lemma MoveOnKeepsTx(s: State, level: nat)
    requires TxInv(s) && Todo(s.pc) == [] && !SeenEmpty(s.pc)
    ensures TxInv(s.(pc := AtTx(level)))
  {
  }

  lemma FinishIrqTx(s: State, txStopped: bool)
    requires TxInv(s) && Enabled(s, Advance(txStopped)) && s.pc.Xfer? && s.pc.job.JIrq?
    requires TxOrderly(s, Advance(txStopped))
    ensures TxInv(Finish(s))
  {
    if HasBit(ValOf(s.pc.replies[0]), IRQ_TXEMPTY) {
      SwitchOffKeepsTx(s, ValOf(s.pc.replies[3]) as nat);
    } else {
      MoveOnKeepsTx(s, ValOf(s.pc.replies[3]) as nat);
    }
  }

  lemma FinishOtherTx(s: State)
    requires TxInv(s) && s.pc.Xfer? && |s.pc.replies| == |s.pc.words| && !s.pc.job.JIrq?
    ensures TxInv(Finish(s))
  {
    FinishKeepsShape(s);
  }

  lemma FinishTx(s: State, txStopped: bool)
    requires TxInv(s) && Enabled(s, Advance(txStopped)) && s.pc.Xfer? && TxOrderly(s, Advance(txStopped))
    ensures TxInv(Finish(s))
  {
    if s.pc.job.JIrq? {
      FinishIrqTx(s, txStopped);
    } else {
      FinishOtherTx(s);
    }
  }

  /** A transfer that carries no data and leaves MODE1 alone. */
  lemma QuietTransferKeepsTx(s: State, t: State)
    requires TxInv(s) && !s.pc.Xfer? && Shaped(t.pc) && !SeenEmpty(t.pc)
    requires t == s.(port := t.port, pc := t.pc)
    requires t.port == s.port.(irqen := t.port.irqen, handleIrq := t.port.handleIrq)
    requires Coming(t) == [] && DataFirst(Todo(t.pc)) && Settle(t.dev.regs, Todo(t.pc)).mode1 == s.dev.regs.mode1
    ensures TxInv(t)
  {
  }

  lemma RxBurstKeepsTx(s: State, level: nat)
    requires TxInv(s) && s.pc.AtRxLoop? && s.dev.regs.irqen == s.port.irqen
    ensures TxInv(RxBurst(s, level))
  {
    RxBurstKeepsShape(s, level);
    RxProgramMeaning(s.port.irqen, level, s.dev.regs);
    QuietTransferKeepsTx(s, RxBurst(s, level));
  }

  lemma RxReopenKeepsTx(s: State)
    requires TxInv(s) && s.pc.AtRxLoop?
    ensures TxInv(RxReopen(s))
  {
    RxReopenKeepsShape(s);
    SettleIrqen(s.dev.regs, SetBit(s.port.irqen, IRQ_RXFIFO));
    QuietTransferKeepsTx(s, RxReopen(s));
  }

  lemma RxLoopKeepsTx(s: State, level: nat)
    requires TxInv(s) && s.pc.AtRxLoop? && s.dev.regs.irqen == s.port.irqen
    ensures TxInv(FromRxLoop(s, level))
  {
    if level > 0 {
      RxBurstKeepsTx(s, level);
    } else {
      RxReopenKeepsTx(s);
    }
  }

  lemma AskKeepsTx(s: State)
    requires TxInv(s) && s.pc.AtIrq? && s.port.handleIrq
    ensures TxInv(FromIrq(s))
  {
    IrqProgramMeaning(s.dev.regs);
    QuietTransferKeepsTx(s, FromIrq(s));
  }

  lemma IrqKeepsTx(s: State)
    requires TxInv(s) && s.pc.AtIrq?
    ensures TxInv(FromIrq(s))
  {
    if s.port.handleIrq {
      AskKeepsTx(s);
    } else {
      MoveOnKeepsTx(s, 0);
    }
  }

  lemma Split(before: seq<Byte>, pending: seq<Byte>, n: nat)
    requires n <= |pending|
    ensures before + pending[..n] + pending[n..] == before + [] + pending
  {
  }

  lemma SendConserves(s: State, level: nat, n: nat)
    requires TxInv(s) && Todo(s.pc) == [] && s.port.txFifoEmpty && n <= |s.pending|
    ensures Conserved(Send(s, level, n))
  {
    TxProgramMeaning(s.port, s.pending[..n], s.dev.regs);
    Split(s.wire + s.dev.tx, s.pending, n);
  }

  /** Data is only taken while the FIFO is empty and the transmitter is off, and a sleep word that is under way then
      leaves it off. */
  lemma SendKeepsTx(s: State, level: nat, n: nat)
    requires TxInv(s) && Todo(s.pc) == [] && s.port.txFifoEmpty && n <= |s.pending| && 0 < n <= TX_FIFO_SIZE
    ensures TxInv(Send(s, level, n))
  {
    SendConserves(s, level, n);
    TxProgramMeaning(s.port, s.pending[..n], s.dev.regs);
    TxDisableBit(s.port.mode1);
  }

  lemma BeginTx(s: State, level: nat, txStopped: bool)
    requires TxInv(s) && s.pc == AtTx(level)
    ensures TxInv(FromTx(s, level, txStopped))
  {
    if s.port.txFifoEmpty && s.pending != [] && !txStopped {
      SendKeepsTx(s, level, Take(s.pending));
    }
  }

  lemma ConfigKeepsTx(s: State, level: nat)
    requires TxInv(s) && s.pc.AtConfig?
    ensures TxInv(FromConfig(s, level))
  {
    ConfigKeepsShape(s, level);
    ConfigProgramMeaning(s.port, s.dev.regs);
  }

  /** Only the status words bring a TX-empty bit. */
  lemma DecisionSeesNothing(s: State, txStopped: bool)
    requires Enabled(s, Advance(txStopped)) && !SeenEmpty(s.pc)
    ensures !SeenEmpty(Decide(s, txStopped).pc)
  {
  }

  lemma DecideTx(s: State, txStopped: bool)
    requires TxInv(s) && C.RestCoherent(s) && Enabled(s, Advance(txStopped)) && TxOrderly(s, Advance(txStopped))
    ensures TxInv(Decide(s, txStopped))
  {
    match s.pc
    case Xfer(_, _, _) => FinishTx(s, txStopped);
    case AtRxLoop(level) => RxLoopKeepsTx(s, level);
    case AtIrq => IrqKeepsTx(s);
    case AtTx(level) => BeginTx(s, level, txStopped);
    case AtConfig(level) => ConfigKeepsTx(s, level);
    case _ =>
  }

  /* ---------------------------------------------------------------- everything else */

  lemma MoveOut(wire: seq<Byte>, tx: seq<Byte>, rest: seq<Byte>, pending: seq<Byte>)
    requires tx != []
    ensures (wire + [tx[0]]) + tx[1..] + rest + pending == wire + tx + rest + pending
  {
  }

  lemma ShiftKeepsTx(s: State)
    requires TxInv(s) && Transmitting(s.dev)
    ensures TxInv(Apply(s, ShiftOut))
  {
    MoveOut(s.wire, s.dev.tx, Coming(s), s.pending);
  }

  lemma QueueKeepsTx(s: State, bytes: seq<Byte>)
    requires TxInv(s)
    ensures TxInv(Apply(s, Queue(bytes)))
  {
    Assoc(s.wire + s.dev.tx + Coming(s), s.pending, bytes);
  }

  lemma StartKeepsTx(s: State)
    requires TxInv(s) && s.pc.Idle?
    ensures TxInv(Apply(s, StartWork))
  {
    LevelWord(s.dev.regs);
  }

  lemma NoteTx(s: State, b: Byte, on: bool)
    requires TxInv(s) && Enabled(s, NoteSleep(b, on)) && TxOrderly(s, NoteSleep(b, on))
    ensures TxInv(Apply(s, NoteSleep(b, on)))
  {
    TxDisableUntouched(s.port.mode1, b);
  }

  lemma SleepWordKeepsTx(s: State)
    requires TxInv(s) && Enabled(s, SleepWord)
    ensures TxInv(Apply(s, SleepWord))
  {
    SleepWordWrites(s.dev, s.sleep.value);
    C.SleepWordComing(s);
  }

  lemma StopRxKeepsTx(s: State)
    requires TxInv(s)
    ensures TxInv(Apply(s, StopRx))
  {
    TxDisableUntouched(s.port.mode1, MODE1_RXDIS);
  }

  /** An orderly step of anybody keeps the invariant. */
  lemma StepKeepsTx(s: State, e: Event)
    requires TxInv(s) && C.RestCoherent(s) && Enabled(s, e) && TxOrderly(s, e)
    ensures TxInv(Apply(s, e))
  {
    match e
    case StartWork => StartKeepsTx(s);
    case Reply(w) => ReplyKeepsTx(s, w);
    case Advance(txStopped) => DecideTx(s, txStopped);
    case Queue(bytes) => QueueKeepsTx(s, bytes);
    case ShiftOut => ShiftKeepsTx(s);
    case StopRx => StopRxKeepsTx(s);
    case NoteSleep(b, on) => NoteTx(s, b, on);
    case SleepWord => SleepWordKeepsTx(s);
    case _ =>
  }

  /* ---------------------------------------------------------------- runs */

  predicate TxOrderlyRun(s: State, events: seq<Event>)
    decreases |events|
  {
    events == []
    || (Enabled(s, events[0]) && TxOrderly(s, events[0]) && TxOrderlyRun(Apply(s, events[0]), events[1..]))
  }

  lemma {:induction false} RunKeepsTx(s: State, events: seq<Event>, s': State)
    requires TxInv(s) && C.RestCoherent(s) && Run(s, events, s') && TxOrderlyRun(s, events)
    ensures TxInv(s') && C.RestCoherent(s')
    decreases |events|
  {
    if events != [] {
      StepKeepsTx(s, events[0]);
      C.StepKeepsRest(s, events[0]);
      RunKeepsTx(Apply(s, events[0]), events[1..], s');
    }
  }

  /** In every state reached by a run that is orderly for the data, the wire, the TX FIFO, the transfer under
      way and the ring hold, in order, exactly the bytes the tty has queued; the FIFO never overflows; and
      tx_fifo_empty is only up while the FIFO is empty and the transmitter is off. */
  lemma TransmitConserves(s: State, events: seq<Event>, s': State)
    requires Start(s) && Run(s, events, s') && TxOrderlyRun(s, events)
    ensures s'.wire + s'.dev.tx + DataOf(Todo(s'.pc)) + s'.pending == s'.queued
    ensures |s'.dev.tx| + |DataOf(Todo(s'.pc))| <= TX_FIFO_SIZE
    ensures s'.port.txFifoEmpty ==> s'.dev.tx == [] && !s'.port.txEnabled && TxDisabled(s'.port.mode1)
  {
    RunKeepsTx(s, events, s');
  }

  /** When the driver reports that nothing is pending, all that was queued has left on the wire. */
  lemma ReportedEmptyIsSent(s: State, events: seq<Event>, s': State)
    requires Start(s) && Run(s, events, s') && TxOrderlyRun(s, events)
    ensures s'.port.txFifoEmpty && s'.pending == [] ==> s'.wire == s'.queued
  {
    RunKeepsTx(s, events, s');
  }
}
