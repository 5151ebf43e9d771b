/** The shadow registers: whatever the other threads ask for, and whenever they ask, the device ends up with what
    the driver believes it has.  Only set_sleep, which does not wait for the work thread, can break this, and it
    does so exactly when a run is not orderly. */
module Max3107Coherence {
  import opened Max3107Device
  import opened Max3107Programs
  import opened Max3107System
  import opened Wrappers

  /** Registers r agree with the shadows of everything but MODE1, save for settings that wait to be committed. */
  predicate RestMatches(p: Port, r: Regs) {
    && r.irqen == p.irqen
    && (p.lcrCommit || r.lcr == p.lcr)
    && (p.brgCommit || Brg(r.brgMsb, r.brgLsb, r.brgCfg) == p.brg)
  }

  predicate Matches(p: Port, r: Regs) {
    RestMatches(p, r) && (p.mode1Commit || r.mode1 == p.mode1)
  }

  /** The registers as they will be when the transfer of the work thread is through. */
  function Coming(s: State): Regs {
    Settle(s.dev.regs, Todo(s.pc))
  }

  predicate RestCoherent(s: State) {
    Shaped(s.pc) && RestMatches(s.port, Coming(s))
  }

  /** MODE1 is waiting to be committed, or will be the shadow value when all words under way have reached the
      device, in whatever order the words of the work thread and of set_sleep do. */
  predicate Mode1Coherent(s: State) {
    || s.port.mode1Commit
    || (match s.sleep
        case None => Coming(s).mode1 == s.port.mode1
        case Some(v) => v == s.port.mode1 && (Carries(Todo(s.pc)) ==> Coming(s).mode1 == s.port.mode1))
  }

  predicate Coherent(s: State) {
    RestCoherent(s) && Mode1Coherent(s)
  }

  /** A step is orderly when it does not set two MODE1 words with different values on their way: no sleep mode is
      noted while the work thread has a MODE1 word still to send, and the work thread neither changes MODE1 nor takes
      the commit flag down with another value while a sleep word is under way; unless nothing changes, or the
      commit flag is up anyway. */
  predicate Orderly(s: State, e: Event)
    requires Enabled(s, e)
  {
    match e
    case NoteSleep(b, on) =>
      s.port.mode1Commit || ToggleBit(s.port.mode1, b, on) == s.port.mode1 || !Carries(Todo(s.pc))
    case Advance(txStopped) => OrderlyDecision(s, txStopped)
    case _ => true
  }

  predicate OrderlyDecision(s: State, txStopped: bool)
    requires Enabled(s, Advance(txStopped))
  {
    s.sleep.Some? ==>
      && (SwitchesTx(s, txStopped) ==> s.port.mode1Commit)
      && (s.pc.AtConfig? && s.port.mode1Commit ==> s.sleep.value == s.port.mode1)
  }

  /* ---------------------------------------------------------------- everything but MODE1 */

  lemma ReplyKeepsComing(s: State, reply: Word)
    requires Enabled(s, Reply(reply))
    ensures Coming(Exchange(s, reply)) == Coming(s)
  {
    ExchangeTodo(s, reply);
  }

  lemma SwitchOffComing(s: State, level: nat)
    requires Todo(s.pc) == []
    ensures Coming(SwitchOff(s, level)) == s.dev.regs.(mode1 := SwitchOff(s, level).port.mode1)
    ensures Carries(Todo(SwitchOff(s, level).pc))
  {
    SettleMode1(s.dev.regs, SetBit(s.port.mode1, MODE1_TXDIS));
    DecodeWr(MODE1, SetBit(s.port.mode1, MODE1_TXDIS));
  }

  lemma RxBurstComing(s: State, level: nat)
    requires Todo(s.pc) == [] && s.dev.regs.irqen == s.port.irqen
    ensures Coming(RxBurst(s, level)) == s.dev.regs.(irqen := RxBurst(s, level).port.irqen)
  {
    RxProgramMeaning(s.port.irqen, level, s.dev.regs);
  }

  lemma RxReopenComing(s: State)
    requires Todo(s.pc) == []
    ensures Coming(RxReopen(s)) == s.dev.regs.(irqen := RxReopen(s).port.irqen)
  {
    SettleIrqen(s.dev.regs, SetBit(s.port.irqen, IRQ_RXFIFO));
  }

  lemma IrqComing(s: State)
    requires Todo(s.pc) == []
    ensures Coming(FromIrq(s)) == s.dev.regs
  {
    IrqProgramMeaning(s.dev.regs);
  }

  lemma SendComing(s: State, level: nat, n: nat)
    requires n <= |s.pending|
    ensures var t := Send(s, level, n);
            Coming(t) == s.dev.regs.(irqen := t.port.irqen,
                                     mode1 := if s.port.txEnabled then s.dev.regs.mode1 else t.port.mode1)
  {
    TxProgramMeaning(s.port, s.pending[..n], s.dev.regs);
  }

  lemma ConfigComing(s: State, level: nat)
    requires Todo(s.pc) == []
    ensures Coming(FromConfig(s, level)) == ConfigRegs(s.port, s.dev.regs)
  {
    ConfigProgramMeaning(s.port, s.dev.regs);
  }

  lemma DecideKeepsRest(s: State, txStopped: bool)
    requires RestCoherent(s) && Enabled(s, Advance(txStopped))
    ensures RestCoherent(Decide(s, txStopped))
  {
    DecideKeepsShape(s, txStopped);
    match s.pc
    case Xfer(_, _, _) => FinishKeepsRest(s);
    case AtRxLoop(level) => RxLoopKeepsRest(s, level);
    case AtIrq => IrqComing(s);
    case AtTx(level) => TxKeepsRest(s, level, txStopped);
    case AtConfig(level) => ConfigComing(s, level);
    case _ =>
  }

  lemma FinishKeepsRest(s: State)
    requires RestCoherent(s) && s.pc.Xfer? && |s.pc.replies| == |s.pc.words|
    ensures RestMatches(Finish(s).port, Coming(Finish(s)))
  {
    if s.pc.job.JIrq? {
      SwitchOffComing(s, ValOf(s.pc.replies[3]) as nat);
    }
  }

  lemma RxLoopKeepsRest(s: State, level: nat)
    requires RestCoherent(s) && s.pc.AtRxLoop?
    ensures RestMatches(FromRxLoop(s, level).port, Coming(FromRxLoop(s, level)))
  {
    if level > 0 {
      RxBurstComing(s, level);
    } else if s.port.rxEnabled {
      RxReopenComing(s);
    }
  }

  lemma TxKeepsRest(s: State, level: nat, txStopped: bool)
    requires RestCoherent(s) && s.pc.AtTx?
    ensures RestMatches(FromTx(s, level, txStopped).port, Coming(FromTx(s, level, txStopped)))
  {
    SendComing(s, level, Take(s.pending));
  }

  lemma SleepWordComing(s: State)
    requires s.sleep.Some?
    ensures var t := Apply(s, SleepWord);
            Coming(t) == Coming(s).(mode1 := if Carries(Todo(s.pc)) then Coming(s).mode1 else s.sleep.value)
    requires Enabled(s, SleepWord)
  {
    SleepWordWrites(s.dev, s.sleep.value);
    SettleOver(s.dev.regs, s.sleep.value, Todo(s.pc));
  }

  lemma StepKeepsRest(s: State, e: Event)
    requires RestCoherent(s) && Enabled(s, e)
    ensures RestCoherent(Apply(s, e))
  {
    StepKeepsShape(s, e);
    match e
    case StartWork => LevelWord(s.dev.regs);
    case Reply(w) => ReplyKeepsComing(s, w);
    case Advance(txStopped) => DecideKeepsRest(s, txStopped);
    case SleepWord => SleepWordComing(s);
    case _ =>
  }

  lemma {:induction false} RunKeepsRest(s: State, events: seq<Event>, s': State)
    requires RestCoherent(s) && Run(s, events, s')
    ensures RestCoherent(s')
    decreases |events|
  {
    if events != [] {
      StepKeepsRest(s, events[0]);
      RunKeepsRest(Apply(s, events[0]), events[1..], s');
    }
  }

  /* ---------------------------------------------------------------- MODE1 */

  lemma ReplyKeepsMode1(s: State, reply: Word)
    requires Enabled(s, Reply(reply)) && Mode1Coherent(s)
    ensures Mode1Coherent(Exchange(s, reply))
  {
    ExchangeTodo(s, reply);
    ReplyKeepsComing(s, reply);
  }

  /** Decisions that begin no MODE1 transfer and leave shadow and flag alone. */
  lemma SameMode1(s: State, t: State)
    requires Mode1Coherent(s) && t.sleep == s.sleep
    requires t.port.mode1 == s.port.mode1 && t.port.mode1Commit == s.port.mode1Commit
    requires Coming(t).mode1 == Coming(s).mode1 && !Carries(Todo(t.pc))
    ensures Mode1Coherent(t)
  {
  }

  lemma SwitchOffMode1(s: State, level: nat)
    requires Coherent(s) && Todo(s.pc) == []
    ensures Mode1Coherent(SwitchOff(s, level)) <==>
              (s.sleep.Some? && !TxDisabled(s.port.mode1) ==> s.port.mode1Commit)
  {
    SwitchOffComing(s, level);
    TxBitChanges(s.port.mode1);
  }

  lemma FinishMode1(s: State, txStopped: bool)
    requires Coherent(s) && Enabled(s, Advance(txStopped)) && s.pc.Xfer?
    ensures Mode1Coherent(Finish(s)) <==> OrderlyDecision(s, txStopped)
  {
    if s.pc.job.JIrq? && HasBit(ValOf(s.pc.replies[0]), IRQ_TXEMPTY) {
      SwitchOffMode1(s, ValOf(s.pc.replies[3]) as nat);
    } else {
      SameMode1(s, Finish(s));
    }
  }

  lemma TxBitChanges(v: Byte)
    ensures SetBit(v, MODE1_TXDIS) == v <==> TxDisabled(v)
    ensures ClearBit(v, MODE1_TXDIS) == v <==> !TxDisabled(v)
  {
  }

  lemma RxLoopKeepsMode1(s: State, level: nat)
    requires Coherent(s) && s.pc.AtRxLoop?
    ensures Mode1Coherent(FromRxLoop(s, level))
  {
    if level > 0 {
      RxBurstComing(s, level);
      RxProgramCarriesNone(s.port.irqen, level);
      SameMode1(s, RxBurst(s, level));
    } else if s.port.rxEnabled {
      var irqen := SetBit(s.port.irqen, IRQ_RXFIFO);
      RxReopenComing(s);
      DecodeWr(IRQEN, irqen);
      CarriesNone([Wr(IRQEN, irqen)]);
      SameMode1(s, RxReopen(s));
    }
  }

  lemma IrqKeepsMode1(s: State)
    requires Coherent(s) && s.pc.AtIrq?
    ensures Mode1Coherent(FromIrq(s))
  {
    IrqComing(s);
    IrqProgramMeaning(s.dev.regs);
    ReadingsCarryNone(IrqProgram());
    SameMode1(s, FromIrq(s));
  }

  lemma SendMode1(s: State, level: nat, n: nat)
    requires Coherent(s) && s.pc.AtTx? && n <= |s.pending|
    ensures Mode1Coherent(Send(s, level, n)) <==>
              (s.sleep.Some? && !s.port.txEnabled && TxDisabled(s.port.mode1) ==> s.port.mode1Commit)
  {
    SendComing(s, level, n);
    if s.port.txEnabled {
      TxProgramCarriesNone(s.port, s.pending[..n]);
      SameMode1(s, Send(s, level, n));
    } else {
      TxBitChanges(s.port.mode1);
    }
  }

  lemma TxMode1(s: State, level: nat, txStopped: bool)
    requires Coherent(s) && s.pc == AtTx(level) && Enabled(s, Advance(txStopped))
    ensures Mode1Coherent(FromTx(s, level, txStopped)) <==> OrderlyDecision(s, txStopped)
  {
    if s.port.txFifoEmpty && s.pending != [] && !txStopped {
      SendMode1(s, level, Take(s.pending));
    }
  }

  lemma ConfigMode1(s: State, level: nat)
    requires Coherent(s) && s.pc.AtConfig?
    ensures Mode1Coherent(FromConfig(s, level)) <==>
              (s.sleep.Some? && s.port.mode1Commit ==> s.sleep.value == s.port.mode1)
  {
    ConfigComing(s, level);
    if !s.port.mode1Commit {
      ConfigCarriesNone(s.port);
      SameMode1(s, FromConfig(s, level));
    }
  }

  lemma DecideMode1(s: State, txStopped: bool)
    requires Coherent(s) && Enabled(s, Advance(txStopped))
    ensures Mode1Coherent(Decide(s, txStopped)) <==> OrderlyDecision(s, txStopped)
  {
    match s.pc
    case Xfer(_, _, _) => FinishMode1(s, txStopped);
    case AtTx(level) => TxMode1(s, level, txStopped);
    case AtConfig(level) => ConfigDecision(s, level, txStopped);
    case _ => OtherDecision(s, txStopped);
  }

  lemma ConfigDecision(s: State, level: nat, txStopped: bool)
    requires Coherent(s) && s.pc == AtConfig(level) && Enabled(s, Advance(txStopped))
    ensures Mode1Coherent(FromConfig(s, level)) <==> OrderlyDecision(s, txStopped)
  {
    ConfigMode1(s, level);
  }

  lemma OtherDecision(s: State, txStopped: bool)
    requires Coherent(s) && Enabled(s, Advance(txStopped))
    requires !s.pc.Xfer? && !s.pc.AtTx? && !s.pc.AtConfig?
    ensures Mode1Coherent(Decide(s, txStopped)) && OrderlyDecision(s, txStopped)
  {
    match s.pc
    case AtRxLoop(level) => RxLoopKeepsMode1(s, level);
    case AtIrq => IrqKeepsMode1(s);
    case _ =>
  }

  lemma NoteMode1(s: State, b: Byte, on: bool)
    requires Coherent(s) && Enabled(s, NoteSleep(b, on))
    ensures Mode1Coherent(Apply(s, NoteSleep(b, on))) <==> Orderly(s, NoteSleep(b, on))
  {
  }

  lemma StartMode1(s: State)
    requires Coherent(s) && Enabled(s, StartWork)
    ensures Mode1Coherent(Apply(s, StartWork))
  {
    LevelWord(s.dev.regs);
    DecodeRd(RXFIFOLVL);
    CarriesNone([Rd(RXFIFOLVL)]);
    SameMode1(s, Apply(s, StartWork));
  }

  /** One step of anybody keeps device and shadow coherent exactly when it is orderly. */
  lemma StepCoherentExactly(s: State, e: Event)
    requires Coherent(s) && Enabled(s, e)
    ensures Coherent(Apply(s, e)) <==> Orderly(s, e)
  {
    StepKeepsRest(s, e);
    match e
    case StartWork => StartMode1(s);
    case Reply(w) => ReplyKeepsMode1(s, w);
    case Advance(txStopped) => DecideMode1(s, txStopped);
    case NoteSleep(b, on) => NoteMode1(s, b, on);
    case SleepWord => SleepWordComing(s);
    case _ =>
  }

  /* ---------------------------------------------------------------- runs */

  predicate OrderlyRun(s: State, events: seq<Event>)
    decreases |events|
  {
    events == [] || (Enabled(s, events[0]) && Orderly(s, events[0]) && OrderlyRun(Apply(s, events[0]), events[1..]))
  }

  /** Every state of the run is coherent. */
  predicate CoherentThroughout(s: State, events: seq<Event>)
    decreases |events|
  {
    Coherent(s)
    && (events == [] || (Enabled(s, events[0]) && CoherentThroughout(Apply(s, events[0]), events[1..])))
  }

  lemma {:induction false} RunCoherentExactly(s: State, events: seq<Event>, s': State)
    requires Coherent(s) && Run(s, events, s')
    ensures CoherentThroughout(s, events) <==> OrderlyRun(s, events)
    ensures OrderlyRun(s, events) ==> Coherent(s')
    decreases |events|
  {
    if events != [] {
      StepCoherentExactly(s, events[0]);
      if Orderly(s, events[0]) {
        RunCoherentExactly(Apply(s, events[0]), events[1..], s');
      }
    }
  }

  lemma StartCoherent(s: State)
    requires Start(s)
    ensures Coherent(s)
  {
  }

  /** A run stays coherent throughout exactly when it is orderly. */
  lemma CoherentExactlyWhenOrderly(s: State, events: seq<Event>, s': State)
    requires Start(s) && Run(s, events, s')
    ensures CoherentThroughout(s, events) <==> OrderlyRun(s, events)
  {
    StartCoherent(s);
    RunCoherentExactly(s, events, s');
  }

  /** In every reachable state IRQEN, LCR and the three baud-rate bytes of the device are the shadow values, unless
      the commit flag is up or a transfer carrying the value is under way; after an orderly run MODE1 is so too. */
  lemma ShadowsAreCoherent(s: State, events: seq<Event>, s': State)
    requires Start(s) && Run(s, events, s')
    ensures RestMatches(s'.port, Settle(s'.dev.regs, Todo(s'.pc)))
    ensures Todo(s'.pc) == [] ==> RestMatches(s'.port, s'.dev.regs)
    ensures OrderlyRun(s, events) && s'.sleep.None? ==> Matches(s'.port, Settle(s'.dev.regs, Todo(s'.pc)))
    ensures OrderlyRun(s, events) && s'.sleep.None? && Todo(s'.pc) == [] ==> Matches(s'.port, s'.dev.regs)
  {
    StartCoherent(s);
    RunKeepsRest(s, events, s');
    RunCoherentExactly(s, events, s');
  }
}
