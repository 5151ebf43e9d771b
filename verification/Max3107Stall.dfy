/** Progress: a run keeps the transmitter going, if everybody keeps calm, exactly when it is orderly for progress; and a
    transmitter that a send under a sleep word has stopped can stay stopped for good. */
module Max3107Stall {
  import opened Max3107Calm
  import opened Max3107Device
  import opened Max3107Disorder
  import opened Max3107Programs
  import opened Max3107System
  import opened Wrappers
  import P = Max3107Progress
  import T = Max3107Transmit

  /* ---------------------------------------------------------------- a send under a sleep word */

  /** Data in the FIFO, the transmitter off, and nothing that will raise the flag. */
  predicate Stopped(s: State) {
    && s.sleep.None? && !s.port.txFifoEmpty && s.dev.tx != [] && TxDisabled(s.dev.regs.mode1)
    && !s.dev.txEmpty && !T.SeenEmpty(s.pc) && Shaped(s.pc) && T.Coming(s) == []
  }

  /** The data, the end of the transfer, and an unsent sleep word. */
  predicate Loaded(s: State) {
    && s.pc.Xfer? && Todo(s.pc) == [] && Shaped(s.pc) && !T.SeenEmpty(s.pc) && !s.port.txFifoEmpty
    && s.dev.tx != [] && !s.dev.txEmpty && s.sleep.Some? && TxDisabled(s.sleep.value)
  }

  lemma SendLoads(s: State, txStopped: bool) returns (t: State)
    requires Ground(s) && Enabled(s, Advance(txStopped)) && BeginsToSend(s, txStopped) && s.sleep.Some?
    ensures CalmlyReaches(Apply(s, Advance(txStopped)), t) && Reaches(Apply(s, Advance(txStopped)), t)
    ensures Loaded(t) && t.pc.job.JTx?
  {
    var a := Apply(s, Advance(txStopped));
    StepKeepsShape(s, Advance(txStopped));
    TxProgramMeaning(s.port, s.pending[..Take(s.pending)], s.dev.regs);
    t := Drain(a);
    ExecAllWrites(a.dev, Todo(a.pc));
  }

  lemma SleepStops(s: State)
    requires Loaded(s)
    ensures Stopped(Apply(s, SleepWord)) && Todo(Apply(s, SleepWord).pc) == []
  {
    SleepWordWrites(s.dev, s.sleep.value);
  }

  /** After a send under a sleep word, the word can stop the transmitter. */
  lemma SendStops(s: State, txStopped: bool) returns (t: State)
    requires Ground(s) && Enabled(s, Advance(txStopped)) && BeginsToSend(s, txStopped) && s.sleep.Some?
    ensures CalmlyReaches(Apply(s, Advance(txStopped)), t) && Stopped(t) && Todo(t.pc) == []
  {
    var a := SendLoads(s, txStopped);
    t := Apply(a, SleepWord);
    SleepStops(a);
    CalmOne(a, SleepWord);
    CalmJoin(Apply(s, Advance(txStopped)), a, t);
  }

  /* ---------------------------------------------------------------- exactly the orderly runs are assured */

  /** If everybody keeps calm from now on, nothing goes wrong and the transmitter does not stall. */
  ghost predicate Assured(s: State) {
    forall t :: CalmlyReaches(s, t) ==> Sound(t) && P.Lively(t)
  }

  /** What holds of every state that a run orderly for progress reaches. */
  predicate LiveGround(s: State) {
    P.LiveInv(s) && |s.dev.rx| <= RX_FIFO_SIZE
  }

  lemma StepKeepsLiveGround(s: State, e: Event)
    requires LiveGround(s) && Enabled(s, e) && P.LiveOrderly(s, e)
    ensures LiveGround(Apply(s, e))
  {
    P.StepKeepsLive(s, e);
    StepKeepsRoom(s, e);
  }

  lemma {:induction false} CalmKeepsLiveGround(s: State, events: seq<Event>, t: State)
    requires LiveGround(s) && CalmRun(s, events, t)
    ensures LiveGround(t)
    decreases |events|
  {
    if events != [] {
      StepKeepsLiveGround(s, events[0]);
      CalmKeepsLiveGround(Apply(s, events[0]), events[1..], t);
    }
  }

  lemma LiveGroundIsAssured(s: State)
    requires LiveGround(s)
    ensures Assured(s)
  {
    forall t | CalmlyReaches(s, t)
      ensures Sound(t) && P.Lively(t)
    {
      var events :| CalmRun(s, events, t);
      CalmKeepsLiveGround(s, events, t);
      P.LiveIsLively(t);
    }
  }

  lemma StoppedIsNotLively(s: State)
    requires Stopped(s) && Todo(s.pc) == []
    ensures !P.Lively(s)
  {
  }

  lemma DisorderIsNotAssured(s: State, e: Event)
    requires LiveGround(s) && Enabled(s, e) && !P.LiveOrderly(s, e)
    ensures !Assured(Apply(s, e))
  {
    if T.TxOrderly(s, e) {
      var t := SendStops(s, e.txStopped);
      StoppedIsNotLively(t);
    } else {
      var t := DisorderLoses(s, e);
      LostIsUnsound(t);
    }
  }

  /** A step keeps everything assured exactly when it is orderly for progress. */
  lemma AssuredExactly(s: State, e: Event)
    requires LiveGround(s) && Enabled(s, e)
    ensures Assured(Apply(s, e)) <==> P.LiveOrderly(s, e)
  {
    if P.LiveOrderly(s, e) {
      StepKeepsLiveGround(s, e);
      LiveGroundIsAssured(Apply(s, e));
    } else {
      DisorderIsNotAssured(s, e);
    }
  }

  /** Every state of the run is assured. */
  ghost predicate AssuredThroughout(s: State, events: seq<Event>)
    decreases |events|
  {
    Assured(s) && (events == [] || (Enabled(s, events[0]) && AssuredThroughout(Apply(s, events[0]), events[1..])))
  }

  lemma {:induction false} RunAssuredExactly(s: State, events: seq<Event>, s': State)
    requires LiveGround(s) && Run(s, events, s')
    ensures AssuredThroughout(s, events) <==> P.LiveOrderlyRun(s, events)
    decreases |events|
  {
    LiveGroundIsAssured(s);
    if events != [] {
      AssuredExactly(s, events[0]);
      if P.LiveOrderly(s, events[0]) {
        StepKeepsLiveGround(s, events[0]);
        RunAssuredExactly(Apply(s, events[0]), events[1..], s');
      }
    }
  }

  /** A run is assured throughout exactly when it is orderly for progress. */
  lemma ProgressExactlyWhenOrderly(s: State, events: seq<Event>, s': State)
    requires Start(s) && Run(s, events, s')
    ensures AssuredThroughout(s, events) <==> P.LiveOrderlyRun(s, events)
  {
    RunAssuredExactly(s, events, s');
  }

  /* ---------------------------------------------------------------- for good */

  /** Stopped, and no MODE1 word under way or asked for. */
  predicate Stuck(s: State) {
    Stopped(s) && !s.port.mode1Commit && !Carries(Todo(s.pc))
  }

  /** The configuration, which may write MODE1 but pushes nothing. */
  lemma Committed(s: State) returns (t: State)
    requires s.pc.AtConfig?
    ensures Reaches(s, t) && Shaped(t.pc) && Todo(t.pc) == [] && !T.SeenEmpty(t.pc) && t.port == ConfigPort(s.port)
    ensures t == s.(port := t.port, pc := t.pc, dev := s.dev.(regs := t.dev.regs))
  {
    var a := Apply(s, Advance(true));
    ConfigProgramMeaning(s.port, s.dev.regs);
    if ConfigProgram(s.port) == [] {
      t := a;
      ReachesSelf(a);
    } else {
      t := Drain(a);
      Unloaded(a.dev, Todo(a.pc));
    }
    ReachesAfter(s, Advance(true), t);
  }

  lemma {:induction false} Unloaded(d: Device, words: seq<Word>)
    requires WritesOnly(words) && DataOf(words) == []
    ensures ExecAll(d, words) == d.(regs := Settle(d.regs, words))
    decreases |words|
  {
    if words != [] {
      Unloaded(Exec(d, words[0]), words[1..]);
    }
  }

  /** After a send under a sleep word, with the word late enough, the transmitter is stuck. */
  lemma SendSticks(s: State, txStopped: bool) returns (t: State)
    requires Ground(s) && Enabled(s, Advance(txStopped)) && BeginsToSend(s, txStopped) && s.sleep.Some?
    ensures Reaches(Apply(s, Advance(txStopped)), t) && Stuck(t)
  {
    var a := SendLoads(s, txStopped);
    var b := Apply(a, Advance(true));
    var c := Committed(b);
    t := Apply(c, SleepWord);
    SleepWordWrites(c.dev, c.sleep.value);
    ReachesSelf(t);
    ReachesAfter(c, SleepWord, t);
    ReachesJoin(b, c, t);
    ReachesAfter(a, Advance(true), t);
    ReachesJoin(Apply(s, Advance(txStopped)), a, t);
  }

  lemma WordSticks(s: State, reply: Word)
    requires Stuck(s) && Enabled(s, Reply(reply))
    ensures Stuck(Exchange(s, reply)) && Exchange(s, reply).wire == s.wire
  {
    StepKeepsShape(s, Reply(reply));
    ExchangeTodo(s, reply);
    NothingResets(s.pc);
    if Reads(Todo(s.pc)[0], IRQSTS) {
      P.StatusWord(s.pc);
    }
  }

  lemma RxLoopCarriesNone(s: State, level: nat)
    requires Todo(s.pc) == []
    ensures !Carries(Todo(FromRxLoop(s, level).pc))
  {
    var irqen := SetBit(s.port.irqen, IRQ_RXFIFO);
    RxProgramCarriesNone(s.port.irqen, level);
    DecodeWr(IRQEN, irqen);
    CarriesNone([Wr(IRQEN, irqen)]);
  }

  lemma FinishCarriesNone(s: State)
    requires Shaped(s.pc) && s.pc.Xfer? && |s.pc.replies| == |s.pc.words| && !T.SeenEmpty(s.pc)
    ensures !Carries(Todo(Finish(s).pc))
  {
  }

  lemma IrqCarriesNone(s: State)
    requires s.pc.AtIrq?
    ensures !Carries(Todo(FromIrq(s).pc))
  {
    IrqProgramMeaning(s.dev.regs);
    ReadingsCarryNone(IrqProgram());
  }

  lemma CommitCarriesNone(s: State, level: nat)
    requires !s.port.mode1Commit
    ensures !Carries(Todo(FromConfig(s, level).pc))
  {
    ConfigCarriesNone(s.port);
  }

  lemma DecisionCarriesNone(s: State, txStopped: bool)
    requires Enabled(s, Advance(txStopped)) && !BeginsToSend(s, txStopped)
    requires !T.SeenEmpty(s.pc) && !s.port.mode1Commit
    ensures !Carries(Todo(Decide(s, txStopped).pc))
  {
    match s.pc
    case Xfer(_, _, _) => FinishCarriesNone(s);
    case AtRxLoop(level) => RxLoopCarriesNone(s, level);
    case AtIrq => IrqCarriesNone(s);
    case AtConfig(level) => CommitCarriesNone(s, level);
    case _ =>
  }

  lemma DecisionSticks(s: State, txStopped: bool)
    requires Stuck(s) && Enabled(s, Advance(txStopped))
    ensures Stuck(Decide(s, txStopped)) && Decide(s, txStopped).wire == s.wire
  {
    DecideKeepsShape(s, txStopped);
    DecideKeeps(s, txStopped);
    DecideCarriesNothing(s, txStopped);
    DecisionCarriesNone(s, txStopped);
    T.DecisionSeesNothing(s, txStopped);
    DecisionLeavesFlags(s, txStopped);
  }

  lemma FinishLeavesPort(s: State)
    requires Shaped(s.pc) && s.pc.Xfer? && |s.pc.replies| == |s.pc.words| && !T.SeenEmpty(s.pc)
    ensures Finish(s).port == s.port
  {
  }

  /** The shadow after a decision has the same flag, and MODE1 is not asked for anew. */
  predicate SameFlags(p: Port, q: Port) {
    q.txFifoEmpty == p.txFifoEmpty && (q.mode1Commit ==> p.mode1Commit)
  }

  lemma RxLoopLeavesFlags(s: State, level: nat)
    ensures SameFlags(s.port, FromRxLoop(s, level).port)
  {
  }

  lemma DecisionLeavesFlags(s: State, txStopped: bool)
    requires Enabled(s, Advance(txStopped)) && !BeginsToSend(s, txStopped) && !T.SeenEmpty(s.pc)
    ensures SameFlags(s.port, Decide(s, txStopped).port)
  {
    match s.pc
    case Xfer(_, _, _) => FinishLeavesPort(s);
    case AtRxLoop(level) => RxLoopLeavesFlags(s, level);
    case _ =>
  }

  /** Only stop_rx and set_sleep write MODE1. */
  lemma StepSticks(s: State, e: Event)
    requires Stuck(s) && Enabled(s, e) && !e.StopRx? && !e.NoteSleep?
    ensures Stuck(Apply(s, e)) && Apply(s, e).wire == s.wire
  {
    match e
    case StartWork =>
      LevelWord(s.dev.regs);
      DecodeRd(RXFIFOLVL);
      CarriesNone([Rd(RXFIFOLVL)]);
    case Reply(w) => WordSticks(s, w);
    case Advance(txStopped) => DecisionSticks(s, txStopped);
    case _ =>
  }

  /** Without a new setting of MODE1 no byte ever leaves again. */
  lemma {:induction false} StuckForGood(s: State, events: seq<Event>, t: State)
    requires Stuck(s) && Run(s, events, t)
    requires forall i :: 0 <= i < |events| ==> !events[i].StopRx? && !events[i].NoteSleep?
    ensures Stuck(t) && t.wire == s.wire
    decreases |events|
  {
    if events != [] {
      StepSticks(s, events[0]);
      StuckForGood(Apply(s, events[0]), events[1..], t);
    }
  }
}
