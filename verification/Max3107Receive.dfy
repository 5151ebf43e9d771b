/** Receiving: the tty gets every byte the device has taken in, once and in order. */
module Max3107Receive {
  import opened Max3107Device
  import opened Max3107Programs
  import opened Max3107System
  import opened Wrappers
  import C = Max3107Coherence

  /** The data words among the answers so far. */
  function TakenWords(pc: Pc): seq<Word> {
    if pc.Xfer? && pc.job.JRx? then
      var done, skip := |pc.replies|, pc.job.skip;
      pc.replies[Min(skip, done)..Min(skip + pc.job.n, done)]
    else []
  }

  /** Bytes the transfer under way has taken out of the device, and the tty has not got yet. */
  function Taken(pc: Pc): seq<Byte> {
    Bytes(TakenWords(pc))
  }

  /** How many bytes the driver counts on finding in the device. */
  function CountedOn(pc: Pc): nat {
    match pc
    case Idle => 0
    case AtIrq => 0
    case AtRx(level) => level
    case AtRxLoop(level) => level
    case AtTx(level) => level
    case AtConfig(level) => level
    case AtEnd(level) => level
    case Xfer(job, words, replies) =>
      match job
      case JLevel => if replies == [] then 0 else ValOf(replies[0]) as nat
      case JIrq => if |replies| < 4 then 0 else ValOf(replies[3]) as nat
      case JRx(skip, n) =>
        if |replies| <= skip then n
        else if |replies| <= skip + n then skip + n - |replies|
        else ValOf(replies[skip + n]) as nat
      case JTxOff(level) => level
      case JTx(level) => level
      case JConfig(level) => level
      case JRxOn => 0
  }

  /** The RX loop keeps the RX interrupt off while it runs. */
  predicate InLoop(pc: Pc) {
    pc.AtRxLoop? || (pc.Xfer? && pc.job.JRx?)
  }

  predicate Listening(s: State) {
    s.port.rxEnabled && !InLoop(s.pc) ==> HasBit(s.port.irqen, IRQ_RXFIFO)
  }

  predicate RxConserved(s: State) {
    s.pushed + Taken(s.pc) + s.dev.rx == s.arrived
  }

  predicate RxInv(s: State) {
    && Shaped(s.pc) && RxConserved(s)
    && CountedOn(s.pc) <= |s.dev.rx| <= RX_FIFO_SIZE
    && Listening(s)
  }

  /* ---------------------------------------------------------------- one word */

  lemma BytesSnoc(words: seq<Word>, w: Word)
    ensures Bytes(words + [w]) == Bytes(words) + [ValOf(w)]
  {
  }

  lemma MoveIn(pushed: seq<Byte>, taken: seq<Byte>, rx: seq<Byte>)
    requires rx != []
    ensures pushed + (taken + [rx[0]]) + rx[1..] == pushed + taken + rx
  {
  }

  predicate Popping(pc: Pc) {
    pc.Xfer? && pc.job.JRx? && pc.job.skip <= |pc.replies| < pc.job.skip + pc.job.n
  }

  lemma TakenGrows(pc: Pc, reply: Word)
    requires Popping(pc)
    ensures TakenWords(pc.(replies := pc.replies + [reply])) == TakenWords(pc) + [reply]
  {
  }

  lemma PopWord(s: State)
    requires Shaped(s.pc) && Popping(s.pc)
    ensures Todo(s.pc) != []
    ensures Reads(Todo(s.pc)[0], FIFO) && !Writes(Todo(s.pc)[0], FIFO)
  {
  }

  /** A data word moves the oldest byte from the device into the answers. */
  lemma PopReply(s: State, reply: Word)
    requires RxInv(s) && Enabled(s, Reply(reply)) && Popping(s.pc)
    ensures RxConserved(Exchange(s, reply))
    ensures Exchange(s, reply).dev.rx == s.dev.rx[1..]
  {
    PopWord(s);
    TakenGrows(s.pc, reply);
    BytesSnoc(TakenWords(s.pc), reply);
    MoveIn(s.pushed, Taken(s.pc), s.dev.rx);
  }

  lemma OnlyPopsPop(pc: Pc)
    requires Shaped(pc) && pc.Xfer? && |pc.replies| < |pc.words| && !Popping(pc)
    ensures !Reads(pc.words[|pc.replies|], FIFO)
  {
  }

  lemma TakenStays(pc: Pc, reply: Word)
    requires pc.Xfer? && !Popping(pc)
    ensures TakenWords(pc.(replies := pc.replies + [reply])) == TakenWords(pc)
  {
  }

  /** No other word takes anything. */
  lemma OtherReply(s: State, reply: Word)
    requires RxInv(s) && Enabled(s, Reply(reply)) && !Popping(s.pc)
    ensures RxConserved(Exchange(s, reply))
    ensures Exchange(s, reply).dev.rx == s.dev.rx
  {
    assert Todo(s.pc)[0] == s.pc.words[|s.pc.replies|];
    OnlyPopsPop(s.pc);
    NothingResets(s.pc);
    TakenStays(s.pc, reply);
  }

  /** The last word of a receiving transfer asks for the level. */
  lemma LastReplyLevel(s: State, reply: Word)
    requires RxInv(s) && Enabled(s, Reply(reply)) && s.pc.job.JRx? && !Popping(s.pc)
    ensures CountedOn(Exchange(s, reply).pc) <= |s.dev.rx|
  {
  }

  lemma StatusReplyLevel(s: State, reply: Word)
    requires RxInv(s) && Enabled(s, Reply(reply)) && s.pc.job.JIrq?
    ensures CountedOn(Exchange(s, reply).pc) <= |s.dev.rx|
  {
  }

  /** A level that has been read is a level that is there. */
  lemma OtherReplyLevel(s: State, reply: Word)
    requires RxInv(s) && Enabled(s, Reply(reply)) && !Popping(s.pc)
    ensures CountedOn(Exchange(s, reply).pc) <= |s.dev.rx|
  {
    if s.pc.job.JRx? {
      LastReplyLevel(s, reply);
    } else if s.pc.job.JIrq? {
      StatusReplyLevel(s, reply);
    } else if s.pc.job.JLevel? {
      DecodeRd(RXFIFOLVL);
    }
  }

  lemma ReplyKeepsRx(s: State, reply: Word)
    requires RxInv(s) && Enabled(s, Reply(reply))
    ensures RxInv(Exchange(s, reply))
  {
    StepKeepsShape(s, Reply(reply));
    if Popping(s.pc) {
      PopReply(s, reply);
    } else {
      OtherReply(s, reply);
      OtherReplyLevel(s, reply);
    }
  }

  /* ---------------------------------------------------------------- decisions */

  lemma FinishRxConserves(s: State)
    requires RxInv(s) && s.pc.Xfer? && |s.pc.replies| == |s.pc.words| && s.pc.job.JRx?
    ensures RxConserved(Finish(s))
  {
  }

  lemma FinishRxKeepsRx(s: State)
    requires RxInv(s) && s.pc.Xfer? && |s.pc.replies| == |s.pc.words| && s.pc.job.JRx?
    ensures RxInv(Finish(s))
  {
    FinishRxConserves(s);
  }

  /** The end of any other transfer moves no byte. */
  lemma FinishOtherConserves(s: State)
    requires RxInv(s) && s.pc.Xfer? && |s.pc.replies| == |s.pc.words| && !s.pc.job.JRx?
    ensures RxConserved(Finish(s)) && Finish(s).dev == s.dev
  {
  }

  lemma FinishOtherKeepsRx(s: State)
    requires RxInv(s) && s.pc.Xfer? && |s.pc.replies| == |s.pc.words| && !s.pc.job.JRx?
    ensures RxInv(Finish(s))
  {
    FinishKeepsShape(s);
    FinishOtherConserves(s);
  }

  lemma FinishKeepsRx(s: State)
    requires RxInv(s) && s.pc.Xfer? && |s.pc.replies| == |s.pc.words|
    ensures RxInv(Finish(s))
  {
    if s.pc.job.JRx? {
      FinishRxKeepsRx(s);
    } else {
      FinishOtherKeepsRx(s);
    }
  }

  lemma RxBurstKeepsRx(s: State, level: nat)
    requires RxInv(s) && s.pc == AtRxLoop(level)
    ensures RxInv(RxBurst(s, level))
  {
  }

  lemma RxReopenKeepsRx(s: State)
    requires RxInv(s) && s.pc.AtRxLoop?
    ensures RxInv(RxReopen(s))
  {
  }

  lemma RxLoopKeepsRx(s: State, level: nat)
    requires RxInv(s) && s.pc == AtRxLoop(level)
    ensures RxInv(FromRxLoop(s, level))
  {
    if level > 0 {
      RxBurstKeepsRx(s, level);
    } else if s.port.rxEnabled {
      RxReopenKeepsRx(s);
    }
  }

  lemma TxKeepsRx(s: State, level: nat, txStopped: bool)
    requires RxInv(s) && s.pc == AtTx(level)
    ensures RxInv(FromTx(s, level, txStopped))
  {
  }

  lemma ConfigKeepsRx(s: State, level: nat)
    requires RxInv(s) && s.pc == AtConfig(level)
    ensures RxInv(FromConfig(s, level))
  {
    ConfigKeepsShape(s, level);
  }

  lemma DecideKeepsRx(s: State, txStopped: bool)
    requires RxInv(s) && Enabled(s, Advance(txStopped))
    ensures RxInv(Decide(s, txStopped))
  {
    match s.pc
    case Xfer(_, _, _) => FinishKeepsRx(s);
    case AtRxLoop(level) => RxLoopKeepsRx(s, level);
    case AtTx(level) => TxKeepsRx(s, level, txStopped);
    case AtConfig(level) => ConfigKeepsRx(s, level);
    case _ =>
  }

  /* ---------------------------------------------------------------- everything else */

  lemma ArriveKeepsRx(s: State, b: Byte)
    requires RxInv(s) && Enabled(s, Arrive(b))
    ensures RxInv(Apply(s, Arrive(b)))
  {
  }

  lemma SleepWordKeepsRx(s: State)
    requires RxInv(s) && Enabled(s, SleepWord)
    ensures RxInv(Apply(s, SleepWord))
  {
    SleepWordWrites(s.dev, s.sleep.value);
  }

  lemma StepKeepsRx(s: State, e: Event)
    requires RxInv(s) && Enabled(s, e)
    ensures RxInv(Apply(s, e))
  {
    match e
    case Reply(w) => ReplyKeepsRx(s, w);
    case Advance(txStopped) => DecideKeepsRx(s, txStopped);
    case Arrive(b) => ArriveKeepsRx(s, b);
    case SleepWord => SleepWordKeepsRx(s);
    case _ =>
  }

  lemma {:induction false} RunKeepsRx(s: State, events: seq<Event>, s': State)
    requires RxInv(s) && Run(s, events, s')
    ensures RxInv(s')
    decreases |events|
  {
    if events != [] {
      StepKeepsRx(s, events[0]);
      RunKeepsRx(Apply(s, events[0]), events[1..], s');
    }
  }

  /** In every reachable state what the tty has got, what the transfer under way holds and what is left in the
      device are together, in order, all the bytes the device has taken in; and while the work thread is idle and
      receiving is enabled, the RX interrupt is on in the device. */
  lemma ReceiveIsExact(s: State, events: seq<Event>, s': State)
    requires Start(s) && Run(s, events, s')
    ensures s'.pushed + Taken(s'.pc) + s'.dev.rx == s'.arrived
    ensures |s'.dev.rx| <= RX_FIFO_SIZE
    ensures s'.pc.Idle? && s'.port.rxEnabled ==> HasBit(s'.dev.regs.irqen, IRQ_RXFIFO)
  {
    RunKeepsRx(s, events, s');
    C.RunKeepsRest(s, events, s');
  }

  /* ---------------------------------------------------------------- the way out of the loop */

  /** The receive loop is about to end: its last transfer has been answered with a level of zero. */
  predicate Ending(pc: Pc) {
    || pc == AtRxLoop(0)
    || (pc.Xfer? && pc.job.JRx? && Todo(pc) == [] && pc.replies != [] && ValOf(pc.replies[|pc.replies| - 1]) == 0)
  }

  /** The step that makes the end of the loop certain is the device's answer that its RX FIFO is empty. */
  lemma EndingBegins(s: State, e: Event)
    requires Shaped(s.pc) && Enabled(s, e) && !Ending(s.pc) && Ending(Apply(s, e).pc)
    ensures e.Reply? && s.pc.job.JRx? && s.dev.rx == []
  {
    if e.Reply? {
      assert Todo(s.pc)[0] == s.pc.words[|s.pc.replies|];
      DecodeRd(RXFIFOLVL);
    }
  }

  /** Until the loop is left, nothing more is exchanged. */
  lemma EndingStays(s: State, e: Event)
    requires Shaped(s.pc) && Enabled(s, e) && Ending(s.pc)
    ensures !e.Reply?
  {
  }

  /** The run up to its k-th event. */
  lemma {:induction false} RunPrefix(s: State, events: seq<Event>, s': State, k: nat) returns (m: State)
    requires Run(s, events, s') && k <= |events|
    ensures Run(s, events[..k], m) && Run(m, events[k..], s')
    decreases |events|
  {
    if k == 0 {
      m := s;
      assert events[..k] == [] && events[k..] == events;
    } else {
      m := RunPrefix(Apply(s, events[0]), events[1..], s', k - 1);
      assert events[..k][1..] == events[1..][..k - 1] && events[1..][k - 1..] == events[k..];
    }
  }

  /** In every run, when the receive loop is about to end, the last word exchanged was one that the device answered
      while its RX FIFO was empty. */
  lemma {:induction false} LoopEndsOnEmptyFifo(s: State, events: seq<Event>, s': State) returns (k: nat, m: State)
    requires Shaped(s.pc) && !Ending(s.pc) && Run(s, events, s') && Ending(s'.pc)
    ensures k < |events| && Run(s, events[..k], m) && events[k].Reply?
    ensures Enabled(m, events[k]) && m.pc.Xfer? && m.pc.job.JRx? && m.dev.rx == []
    ensures forall j :: k < j < |events| ==> !events[j].Reply?
    decreases |events|
  {
    var n := |events| - 1;
    var t := RunPrefix(s, events, s', n);
    LastEvent(t, events[n], events[n..], s');
    RunKeepsShape(s, events[..n], t);
    if Ending(t.pc) {
      EndingStays(t, events[n]);
      k, m := LoopEndsOnEmptyFifo(s, events[..n], t);
      assert events[..n][..k] == events[..k];
    } else {
      EndingBegins(t, events[n]);
      k, m := n, t;
    }
  }

  lemma LastEvent(t: State, e: Event, rest: seq<Event>, s': State)
    requires rest == [e] && Run(t, rest, s')
    ensures Enabled(t, e) && s' == Apply(t, e)
  {
    assert rest[1..] == [];
  }

  lemma {:induction false} RunKeepsShape(s: State, events: seq<Event>, s': State)
    requires Shaped(s.pc) && Run(s, events, s')
    ensures Shaped(s'.pc)
    decreases |events|
  {
    if events != [] {
      StepKeepsShape(s, events[0]);
      RunKeepsShape(Apply(s, events[0]), events[1..], s');
    }
  }

  /** The receive loop is only left in that situation, in every run: after the device has answered that its RX FIFO
      is empty, with no word exchanged since; and the RX interrupt is then on its way, if receiving is enabled. */
  lemma LoopIsLeftWhenEmpty(s: State, events: seq<Event>, s': State, txStopped: bool) returns (k: nat, m: State)
    requires Start(s) && Run(s, events, s') && Enabled(s', Advance(txStopped))
    requires InLoop(s'.pc) && !InLoop(Decide(s', txStopped).pc)
    ensures k < |events| && Run(s, events[..k], m) && events[k].Reply?
    ensures Enabled(m, events[k]) && m.pc.Xfer? && m.pc.job.JRx? && m.dev.rx == []
    ensures forall j :: k < j < |events| ==> !events[j].Reply?
    ensures var t := Decide(s', txStopped);
            && s'.pc == AtRxLoop(0)
            && (s'.port.rxEnabled ==> t.pc.Xfer? && t.pc.job.JRxOn?
                                      && HasBit(Settle(t.dev.regs, Todo(t.pc)).irqen, IRQ_RXFIFO))
  {
    k, m := LoopEndsOnEmptyFifo(s, events, s');
    C.RunKeepsRest(s, events, s');
    C.RxReopenComing(s');
    IrqBits(s'.port.irqen);
  }
}
