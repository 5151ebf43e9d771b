/** Reaching states; in particular by calm runs, in which nobody calls set_sleep any more and the work thread decides
    nothing while a sleep word is under way.  In every run, a byte that is missing stays missing. */
module Max3107Calm {
  import opened Max3107Device
  import opened Max3107Programs
  import opened Max3107System
  import opened Wrappers

  /* ---------------------------------------------------------------- reaching states */

  ghost predicate Reaches(s: State, t: State) {
    exists events :: Run(s, events, t)
  }

  lemma ReachesSelf(s: State)
    ensures Reaches(s, s)
  {
    assert Run(s, [], s);
  }

  lemma ReachesAfter(s: State, e: Event, t: State)
    requires Enabled(s, e) && Reaches(Apply(s, e), t)
    ensures Reaches(s, t)
  {
    var events :| Run(Apply(s, e), events, t);
    assert ([e] + events)[1..] == events;
    assert Run(s, [e] + events, t);
  }

  lemma {:induction false} RunJoin(s: State, a: seq<Event>, t: State, b: seq<Event>, u: State)
    requires Run(s, a, t) && Run(t, b, u)
    ensures Run(s, a + b, u)
    decreases |a|
  {
    if a == [] {
      assert a + b == b;
    } else {
      assert (a + b)[1..] == a[1..] + b;
      RunJoin(Apply(s, a[0]), a[1..], t, b, u);
    }
  }

  lemma ReachesJoin(s: State, t: State, u: State)
    requires Reaches(s, t) && Reaches(t, u)
    ensures Reaches(s, u)
  {
    var a :| Run(s, a, t);
    var b :| Run(t, b, u);
    RunJoin(s, a, t, b, u);
  }

  /* ---------------------------------------------------------------- calm runs */

  predicate CalmStep(s: State, e: Event) {
    !e.NoteSleep? && (e.Advance? ==> s.sleep.None?)
  }

  predicate CalmRun(s: State, events: seq<Event>, t: State)
    decreases |events|
  {
    if events == [] then s == t
    else Enabled(s, events[0]) && CalmStep(s, events[0]) && CalmRun(Apply(s, events[0]), events[1..], t)
  }

  ghost predicate CalmlyReaches(s: State, t: State) {
    exists events :: CalmRun(s, events, t)
  }

  lemma CalmSelf(s: State)
    ensures CalmlyReaches(s, s)
  {
    assert CalmRun(s, [], s);
  }

  lemma CalmAfter(s: State, e: Event, t: State)
    requires Enabled(s, e) && CalmStep(s, e) && CalmlyReaches(Apply(s, e), t)
    ensures CalmlyReaches(s, t)
  {
    var events :| CalmRun(Apply(s, e), events, t);
    assert ([e] + events)[1..] == events;
    assert CalmRun(s, [e] + events, t);
  }

  lemma CalmOne(s: State, e: Event)
    requires Enabled(s, e) && CalmStep(s, e)
    ensures CalmlyReaches(s, Apply(s, e))
  {
    CalmSelf(Apply(s, e));
    CalmAfter(s, e, Apply(s, e));
  }

  lemma {:induction false} CalmRunJoin(s: State, a: seq<Event>, t: State, b: seq<Event>, u: State)
    requires CalmRun(s, a, t) && CalmRun(t, b, u)
    ensures CalmRun(s, a + b, u)
    decreases |a|
  {
    if a == [] {
      assert a + b == b;
    } else {
      assert (a + b)[1..] == a[1..] + b;
      CalmRunJoin(Apply(s, a[0]), a[1..], t, b, u);
    }
  }

  lemma CalmJoin(s: State, t: State, u: State)
    requires CalmlyReaches(s, t) && CalmlyReaches(t, u)
    ensures CalmlyReaches(s, u)
  {
    var a :| CalmRun(s, a, t);
    var b :| CalmRun(t, b, u);
    CalmRunJoin(s, a, t, b, u);
  }

  lemma {:induction false} CalmRunIsRun(s: State, events: seq<Event>, t: State)
    requires CalmRun(s, events, t)
    ensures Run(s, events, t)
    decreases |events|
  {
    if events != [] {
      CalmRunIsRun(Apply(s, events[0]), events[1..], t);
    }
  }

  lemma CalmIsReached(s: State, t: State)
    requires CalmlyReaches(s, t)
    ensures Reaches(s, t)
  {
    var events :| CalmRun(s, events, t);
    CalmRunIsRun(s, events, t);
  }

  /* ---------------------------------------------------------------- bytes that are missing */

  /** The bytes that are somewhere: on the wire, in the FIFO, in the transfer under way, in the ring. */
  function Held(s: State): nat {
    |s.wire| + |s.dev.tx| + |DataOf(Todo(s.pc))| + |s.pending|
  }

  /** Some queued byte is nowhere any more. */
  predicate Lost(s: State) {
    Held(s) < |s.queued|
  }

  function Missing(s: State): int {
    |s.queued| - Held(s)
  }

  lemma ReplyFindsNone(s: State, reply: Word)
    requires Enabled(s, Reply(reply))
    ensures Missing(Exchange(s, reply)) >= Missing(s)
  {
    ExchangeTodo(s, reply);
  }

  lemma RxLoopCarriesNothing(s: State, level: nat)
    ensures DataOf(Todo(FromRxLoop(s, level).pc)) == []
  {
    var irqen := s.port.irqen;
    RxProgramMeaning(irqen, level, Regs(0, 0, 0, 0, 0, irqen, 0));
    SettleIrqen(s.dev.regs, SetBit(irqen, IRQ_RXFIFO));
  }

  lemma FinishCarriesNothing(s: State)
    requires Shaped(s.pc) && s.pc.Xfer? && |s.pc.replies| == |s.pc.words|
    ensures DataOf(Todo(Finish(s).pc)) == []
  {
    SettleMode1(s.dev.regs, SetBit(s.port.mode1, MODE1_TXDIS));
  }

  lemma DecideCarriesNothing(s: State, txStopped: bool)
    requires Enabled(s, Advance(txStopped)) && !BeginsToSend(s, txStopped)
    ensures DataOf(Todo(Decide(s, txStopped).pc)) == []
  {
    match s.pc
    case Xfer(_, _, _) => FinishCarriesNothing(s);
    case AtRxLoop(level) => RxLoopCarriesNothing(s, level);
    case AtIrq => IrqProgramMeaning(s.dev.regs);
    case AtConfig(level) => ConfigProgramMeaning(s.port, s.dev.regs);
    case _ =>
  }

  /** A decision to send nothing changes shadow and place, and gives received bytes to the tty. */
  lemma DecideKeeps(s: State, txStopped: bool)
    requires Enabled(s, Advance(txStopped)) && !BeginsToSend(s, txStopped)
    ensures var t := Decide(s, txStopped);
            t == s.(port := t.port, pc := t.pc, pushed := t.pushed)
  {
  }

  lemma SendFindsNone(s: State, level: nat, n: nat)
    requires Todo(s.pc) == [] && n <= |s.pending|
    ensures Missing(Send(s, level, n)) == Missing(s)
  {
    TxProgramMeaning(s.port, s.pending[..n], s.dev.regs);
  }

  lemma DecideFindsNone(s: State, txStopped: bool)
    requires Enabled(s, Advance(txStopped))
    ensures Missing(Decide(s, txStopped)) == Missing(s)
  {
    if BeginsToSend(s, txStopped) {
      SendFindsNone(s, s.pc.level, Take(s.pending));
    } else {
      DecideCarriesNothing(s, txStopped);
      DecideKeeps(s, txStopped);
    }
  }

  lemma StepFindsNone(s: State, e: Event)
    requires Enabled(s, e)
    ensures Missing(Apply(s, e)) >= Missing(s)
  {
    match e
    case StartWork => LevelWord(s.dev.regs);
    case Reply(w) => ReplyFindsNone(s, w);
    case Advance(txStopped) => DecideFindsNone(s, txStopped);
    case SleepWord => SleepWordWrites(s.dev, s.sleep.value);
    case _ =>
  }

  /** Whatever happens, what is missing stays missing. */
  lemma {:induction false} RunFindsNone(s: State, events: seq<Event>, t: State)
    requires Run(s, events, t)
    ensures Missing(t) >= Missing(s)
    decreases |events|
  {
    if events != [] {
      StepFindsNone(s, events[0]);
      RunFindsNone(Apply(s, events[0]), events[1..], t);
    }
  }

  lemma ReachesFindsNone(s: State, t: State)
    requires Reaches(s, t)
    ensures Missing(t) >= Missing(s)
  {
    var events :| Run(s, events, t);
    RunFindsNone(s, events, t);
  }

  /** A byte once lost is lost for good. */
  lemma LossStays(s: State, events: seq<Event>, t: State)
    requires Lost(s) && Run(s, events, t)
    ensures Lost(t)
  {
    RunFindsNone(s, events, t);
  }

  /* ---------------------------------------------------------------- transfers that write */

  /** A transfer that only writes can run to its end with nothing else happening. */
  lemma {:induction false} Drain(s: State) returns (t: State)
    requires s.pc.Xfer? && Shaped(s.pc) && WritesOnly(s.pc.words)
    ensures CalmlyReaches(s, t) && Reaches(s, t) && t == s.(dev := ExecAll(s.dev, Todo(s.pc)), pc := t.pc)
    ensures t.pc.Xfer? && t.pc.job == s.pc.job && t.pc.words == s.pc.words && |t.pc.replies| == |t.pc.words|
    decreases |Todo(s.pc)|
  {
    if Todo(s.pc) == [] {
      t := s;
      CalmSelf(s);
    } else {
      assert Todo(s.pc)[0] == s.pc.words[|s.pc.replies|];
      ExchangeTodo(s, 0);
      StepKeepsShape(s, Reply(0));
      t := Drain(Exchange(s, 0));
      CalmAfter(s, Reply(0), t);
    }
    CalmIsReached(s, t);
  }
}
