/** The transmitter never stalls, as long as nothing is sent while a sleep word is under way: data that has been handed
    to the device is always on its way out, or the interrupt that will let the driver go on is pending. */
module Max3107Progress {
  import opened Max3107Device
  import opened Max3107Programs
  import opened Max3107System
  import opened Wrappers
  import C = Max3107Coherence
  import T = Max3107Transmit

  /** Something will still raise the flag. */
  predicate Underway(s: State) {
    s.dev.tx != [] || T.Coming(s) != [] || s.dev.txEmpty || T.SeenEmpty(s.pc)
  }

  predicate Awake(s: State) {
    && Shaped(s.pc)
    && s.port.txEnabled == !s.port.txFifoEmpty
    && (!s.port.txFifoEmpty ==> HasBit(s.port.irqen, IRQ_TXEMPTY) && Underway(s))
  }

  /** The transmitter is in the device what it is in the shadow, and a sleep word under way leaves it so. */
  predicate Steady(s: State) {
    && TxDisabled(Settle(s.dev.regs, Todo(s.pc)).mode1) == TxDisabled(s.port.mode1)
    && (s.sleep.Some? ==> TxDisabled(s.sleep.value) == TxDisabled(s.port.mode1))
  }

  /** What progress asks of set_sleep, beyond what the data asks: the work thread does not begin to send while a sleep
      word is under way, which would switch the transmitter off again. */
  predicate LiveOrderly(s: State, e: Event)
    requires Enabled(s, e)
  {
    T.TxOrderly(s, e) && (e.Advance? && s.sleep.Some? ==> !BeginsToSend(s, e.txStopped))
  }

  predicate LiveOrderlyRun(s: State, events: seq<Event>)
    decreases |events|
  {
    events == []
    || (Enabled(s, events[0]) && LiveOrderly(s, events[0]) && LiveOrderlyRun(Apply(s, events[0]), events[1..]))
  }

  /** Between two transfers, as long as tx_fifo_empty is down: the device is sending, or its TX-empty interrupt is
      pending and enabled, or the handler has just seen it. */
  predicate Lively(s: State) {
    Todo(s.pc) == [] && !s.port.txFifoEmpty ==>
      Transmitting(s.dev) || (s.dev.txEmpty && HasBit(s.dev.regs.irqen, IRQ_TXEMPTY)) || T.SeenEmpty(s.pc)
  }

  /* ---------------------------------------------------------------- the transmitter */

  lemma SwitchOffIsSteady(s: State, level: nat)
    requires Steady(s) && (s.sleep.Some? ==> TxDisabled(s.sleep.value))
    ensures Steady(SwitchOff(s, level))
  {
    SettleMode1(s.dev.regs, SetBit(s.port.mode1, MODE1_TXDIS));
    TxDisableBit(s.port.mode1);
  }

  lemma FinishOtherIsSteady(s: State)
    requires Steady(s) && Shaped(s.pc) && s.pc.Xfer? && |s.pc.replies| == |s.pc.words| && !s.pc.job.JIrq?
    ensures Steady(Finish(s))
  {
  }

  lemma FinishIrqIsSteady(s: State)
    requires Steady(s) && Shaped(s.pc) && s.pc.Xfer? && s.pc.job.JIrq? && |s.pc.replies| == |s.pc.words|
    requires s.sleep.Some? && T.SeenEmpty(s.pc) ==> TxDisabled(s.sleep.value)
    ensures Steady(Finish(s))
  {
    if T.SeenEmpty(s.pc) {
      SwitchOffIsSteady(s, ValOf(s.pc.replies[3]) as nat);
    }
  }

  lemma FinishIsSteady(s: State, txStopped: bool)
    requires Steady(s) && s.pc.Xfer? && Enabled(s, Advance(txStopped)) && T.TxOrderly(s, Advance(txStopped))
    ensures Steady(Finish(s))
  {
    if s.pc.job.JIrq? {
      FinishIrqIsSteady(s);
    } else {
      FinishOtherIsSteady(s);
    }
  }

  lemma RxBurstIsSteady(s: State, level: nat)
    requires Steady(s) && s.pc.AtRxLoop? && s.dev.regs.irqen == s.port.irqen
    ensures Steady(RxBurst(s, level))
  {
    RxProgramMeaning(s.port.irqen, level, s.dev.regs);
  }

  lemma RxReopenIsSteady(s: State)
    requires Steady(s) && s.pc.AtRxLoop?
    ensures Steady(RxReopen(s))
  {
    SettleIrqen(s.dev.regs, SetBit(s.port.irqen, IRQ_RXFIFO));
  }

  lemma RxLoopIsSteady(s: State, level: nat)
    requires Steady(s) && s.pc.AtRxLoop? && s.dev.regs.irqen == s.port.irqen
    ensures Steady(FromRxLoop(s, level))
  {
    if level > 0 {
      RxBurstIsSteady(s, level);
    } else if s.port.rxEnabled {
      RxReopenIsSteady(s);
    }
  }

  lemma IrqIsSteady(s: State)
    requires Steady(s) && s.pc.AtIrq?
    ensures Steady(FromIrq(s))
  {
    IrqProgramMeaning(s.dev.regs);
  }

  lemma SendIsSteady(s: State, level: nat, n: nat)
    requires s.sleep.None? && !s.port.txEnabled && n <= |s.pending|
    ensures Steady(Send(s, level, n))
  {
    TxProgramMeaning(s.port, s.pending[..n], s.dev.regs);
  }

  lemma TxIsSteady(s: State, level: nat, txStopped: bool)
    requires Steady(s) && s.pc.AtTx? && (s.port.txFifoEmpty ==> !s.port.txEnabled)
    requires s.sleep.Some? ==> !BeginsToSend(s, txStopped)
    ensures Steady(FromTx(s, level, txStopped))
  {
    if s.port.txFifoEmpty && s.pending != [] && !txStopped {
      SendIsSteady(s, level, Take(s.pending));
    }
  }

  lemma ConfigIsSteady(s: State, level: nat)
    requires Steady(s) && s.pc.AtConfig?
    ensures Steady(FromConfig(s, level))
  {
    ConfigProgramMeaning(s.port, s.dev.regs);
  }

  lemma DecideIsSteady(s: State, txStopped: bool)
    requires T.TxInv(s) && C.RestCoherent(s) && Steady(s)
    requires Enabled(s, Advance(txStopped)) && LiveOrderly(s, Advance(txStopped))
    ensures Steady(Decide(s, txStopped))
  {
    match s.pc
    case Xfer(_, _, _) => FinishIsSteady(s, txStopped);
    case AtRxLoop(level) => RxLoopIsSteady(s, level);
    case AtIrq => IrqIsSteady(s);
    case AtTx(level) => TxIsSteady(s, level, txStopped);
    case AtConfig(level) => ConfigIsSteady(s, level);
    case _ =>
  }

  lemma NoteIsSteady(s: State, b: Byte, on: bool)
    requires Steady(s) && Enabled(s, NoteSleep(b, on))
    ensures Steady(Apply(s, NoteSleep(b, on)))
  {
    TxDisableUntouched(s.port.mode1, b);
  }

  lemma SleepWordIsSteady(s: State)
    requires Steady(s) && Enabled(s, SleepWord)
    ensures Steady(Apply(s, SleepWord))
  {
    C.SleepWordComing(s);
  }

  lemma StopRxIsSteady(s: State)
    requires Steady(s) && Enabled(s, StopRx)
    ensures Steady(Apply(s, StopRx))
  {
    TxDisableUntouched(s.port.mode1, MODE1_RXDIS);
  }

  lemma StepKeepsSteady(s: State, e: Event)
    requires T.TxInv(s) && C.RestCoherent(s) && Steady(s) && Enabled(s, e) && LiveOrderly(s, e)
    ensures Steady(Apply(s, e))
  {
    match e
    case StartWork => LevelWord(s.dev.regs);
    case Reply(w) => ExchangeTodo(s, w);
    case Advance(txStopped) => DecideIsSteady(s, txStopped);
    case StopRx => StopRxIsSteady(s);
    case NoteSleep(b, on) => NoteIsSteady(s, b, on);
    case SleepWord => SleepWordIsSteady(s);
    case _ =>
  }

  /* ---------------------------------------------------------------- the interrupt */

  /** Only the interrupt handler's first word reads the status. */
  lemma StatusWord(pc: Pc)
    requires Shaped(pc) && Todo(pc) != [] && Reads(Todo(pc)[0], IRQSTS)
    ensures pc.job.JIrq? && pc.replies == []
  {
  }

  lemma ReplyKeepsUnderway(s: State, reply: Word)
    requires T.TxInv(s) && Underway(s) && Enabled(s, Reply(reply))
    ensures Underway(Exchange(s, reply))
  {
    ExchangeTodo(s, reply);
    T.ReplyPushes(s, reply);
    if Reads(Todo(s.pc)[0], IRQSTS) {
      StatusWord(s.pc);
    }
  }

  lemma ReplyKeepsAwake(s: State, reply: Word)
    requires T.TxInv(s) && Awake(s) && Enabled(s, Reply(reply))
    ensures Awake(Exchange(s, reply))
  {
    StepKeepsShape(s, Reply(reply));
    if !s.port.txFifoEmpty {
      ReplyKeepsUnderway(s, reply);
    }
  }

  lemma SendKeepsAwake(s: State, level: nat, n: nat)
    requires Awake(s) && 0 < n <= |s.pending|
    ensures Awake(Send(s, level, n))
  {
    TxProgramMeaning(s.port, s.pending[..n], s.dev.regs);
    IrqBits(ClearBit(s.port.irqen, IRQ_TXEMPTY));
  }

  lemma TxKeepsAwake(s: State, level: nat, txStopped: bool)
    requires Awake(s) && s.pc == AtTx(level)
    ensures Awake(FromTx(s, level, txStopped))
  {
    if s.port.txFifoEmpty && s.pending != [] && !txStopped {
      SendKeepsAwake(s, level, Take(s.pending));
    }
  }

  lemma RxBurstKeepsAwake(s: State, level: nat)
    requires Awake(s) && s.pc == AtRxLoop(level)
    ensures Awake(RxBurst(s, level))
  {
  }

  lemma RxReopenKeepsAwake(s: State)
    requires Awake(s) && s.pc.AtRxLoop?
    ensures Awake(RxReopen(s))
  {
  }

  lemma RxLoopKeepsAwake(s: State, level: nat)
    requires Awake(s) && s.pc == AtRxLoop(level)
    ensures Awake(FromRxLoop(s, level))
  {
    if level > 0 {
      RxBurstKeepsAwake(s, level);
    } else {
      RxReopenKeepsAwake(s);
    }
  }

  lemma FinishIrqKeepsAwake(s: State)
    requires Awake(s) && s.pc.Xfer? && |s.pc.replies| == |s.pc.words| && s.pc.job.JIrq?
    ensures Awake(Finish(s))
  {
    FinishKeepsShape(s);
  }

  lemma FinishKeepsAwake(s: State)
    requires Awake(s) && s.pc.Xfer? && |s.pc.replies| == |s.pc.words|
    ensures Awake(Finish(s))
  {
    if s.pc.job.JIrq? {
      FinishIrqKeepsAwake(s);
    } else {
      FinishKeepsShape(s);
    }
  }

  lemma ConfigKeepsAwake(s: State, level: nat)
    requires Awake(s) && s.pc == AtConfig(level)
    ensures Awake(FromConfig(s, level))
  {
  }

  lemma DecideKeepsAwake(s: State, txStopped: bool)
    requires Awake(s) && Enabled(s, Advance(txStopped))
    ensures Awake(Decide(s, txStopped))
  {
    match s.pc
    case Xfer(_, _, _) => FinishKeepsAwake(s);
    case AtRxLoop(level) => RxLoopKeepsAwake(s, level);
    case AtTx(level) => TxKeepsAwake(s, level, txStopped);
    case AtConfig(level) => ConfigKeepsAwake(s, level);
    case _ =>
  }

  lemma StepKeepsAwake(s: State, e: Event)
    requires T.TxInv(s) && Awake(s) && Enabled(s, e)
    ensures Awake(Apply(s, e))
  {
    match e
    case Reply(w) => ReplyKeepsAwake(s, w);
    case Advance(txStopped) => DecideKeepsAwake(s, txStopped);
    case SleepWord => SleepWordWrites(s.dev, s.sleep.value);
    case _ =>
  }

  /* ---------------------------------------------------------------- runs */

  /** All that progress rests on. */
  predicate LiveInv(s: State) {
    T.TxInv(s) && C.RestCoherent(s) && Steady(s) && Awake(s)
  }

  lemma StepKeepsLive(s: State, e: Event)
    requires LiveInv(s) && Enabled(s, e) && LiveOrderly(s, e)
    ensures LiveInv(Apply(s, e))
  {
    T.StepKeepsTx(s, e);
    C.StepKeepsRest(s, e);
    StepKeepsSteady(s, e);
    StepKeepsAwake(s, e);
  }

  lemma LiveIsLively(s: State)
    requires LiveInv(s)
    ensures Lively(s)
  {
  }

  lemma {:induction false} RunKeepsLive(s: State, events: seq<Event>, s': State)
    requires LiveInv(s) && Run(s, events, s') && LiveOrderlyRun(s, events)
    ensures LiveInv(s')
    decreases |events|
  {
    if events != [] {
      StepKeepsLive(s, events[0]);
      RunKeepsLive(Apply(s, events[0]), events[1..], s');
    }
  }

  /** In every state reached by a run that is orderly for progress, between two transfers: as long as tx_fifo_empty is
      down, the device is sending, or its TX-empty interrupt is pending and enabled, or the handler has just seen it. */
  lemma TransmitterNeverStalls(s: State, events: seq<Event>, s': State)
    requires Start(s) && Run(s, events, s') && LiveOrderlyRun(s, events)
    requires Todo(s'.pc) == [] && !s'.port.txFifoEmpty
    ensures || Transmitting(s'.dev)
            || (s'.dev.txEmpty && HasBit(s'.dev.regs.irqen, IRQ_TXEMPTY))
            || T.SeenEmpty(s'.pc)
  {
    RunKeepsLive(s, events, s');
    LiveIsLively(s');
  }
}
