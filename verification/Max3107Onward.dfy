/** The work thread can always go on calmly, without sending, until it asks for the interrupt status; and a latch that
    is up then switches the transmitter off and raises the flag, whatever the FIFO holds. */
module Max3107Onward {
  import opened Bytes
  import opened Max3107Calm
  import opened Max3107Device
  import opened Max3107Programs
  import opened Max3107System
  import opened Wrappers
  import P = Max3107Progress
  import T = Max3107Transmit

  /* ---------------------------------------------------------------- answers */

  lemma LowByte(v: Byte)
    ensures ValOf(v as Word) == v
  {
  }

  /** There is always an answer. */
  lemma AnswerTo(d: Device, w: Word) returns (reply: Word)
    requires |d.rx| <= RX_FIFO_SIZE
    ensures Answers(d, w, reply)
  {
    var v: Byte := 0;
    if Reads(w, FIFO) && d.rx != [] {
      v := d.rx[0];
    } else if Reads(w, IRQSTS) {
      v := if d.txEmpty then IRQ_TXEMPTY else 0;
    } else if Reads(w, RXFIFOLVL) {
      v := ByteOf(|d.rx|);
    }
    LowByte(v);
    reply := v as Word;
  }

  /* ---------------------------------------------------------------- how far it is */

  /** About to ask for the interrupt status. */
  predicate Asking(pc: Pc) {
    pc == Xfer(JIrq, IrqProgram(), [])
  }

  /** How far it is from here to there. */
  function Stage(s: State): nat {
    match s.pc
    case Xfer(job, _, replies) =>
      (match job
       case JTxOff(_) => 14
       case JIrq => if replies == [] then 0 else 13
       case JTx(_) => 11
       case JConfig(_) => 9
       case JLevel => 6
       case JRx(_, _) => 4
       case JRxOn => 3)
    case AtTx(_) => 12
    case AtConfig(_) => 10
    case AtEnd(_) => 8
    case Idle => 7
    case AtRx(_) => 5
    case AtRxLoop(_) => 4
    case AtIrq => if s.port.handleIrq then 1 else 2
  }

  /** The pops that a receiving transfer has still to make. */
  function Pops(skip: nat, n: nat, done: nat): nat {
    if done <= skip then n else if done <= skip + n then skip + n - done else 0
  }

  /** The bytes the receive loop will leave unread after this transfer, and one more for the next one. */
  function Unread(s: State): nat {
    var n := |s.dev.rx|;
    match s.pc
    case AtRxLoop(level) => if level > 0 then n + 1 else n
    case Xfer(JRx(skip, k), words, replies) =>
      if |replies| > skip + k then (if ValOf(replies[skip + k]) != 0 then n + 1 else n)
      else if n > Pops(skip, k, |replies|) then n - Pops(skip, k, |replies|) + 1
      else 0
    case _ => 0
  }

  /** The latch is up, nobody else interferes, and no data is to come. */
  predicate Walking(s: State) {
    && Shaped(s.pc) && s.sleep.None? && |s.dev.rx| <= RX_FIFO_SIZE
    && s.dev.txEmpty && T.Coming(s) == [] && !T.SeenEmpty(s.pc)
  }

  function WordsLeft(pc: Pc): nat {
    if pc.Xfer? then |Todo(pc)| + 1 else 0
  }

  predicate Nearer(s: State, t: State) {
    || Stage(t) < Stage(s)
    || (Stage(t) == Stage(s) && Unread(t) < Unread(s))
    || (Stage(t) == Stage(s) && Unread(t) == Unread(s) && WordsLeft(t.pc) < WordsLeft(s.pc))
  }

  /* ---------------------------------------------------------------- one step */

  /** The next word of a transfer that has not read the status. */
  lemma WordOnward(s: State, reply: Word)
    requires Walking(s) && Enabled(s, Reply(reply)) && !Asking(s.pc)
    ensures Walking(Exchange(s, reply)) && Exchange(s, reply).dev.tx == s.dev.tx
  {
    StepKeepsShape(s, Reply(reply));
    NothingResets(s.pc);
    ExchangeTodo(s, reply);
    if Reads(Todo(s.pc)[0], IRQSTS) {
      P.StatusWord(s.pc);
    }
  }

  lemma PopIsNearer(s: State, reply: Word)
    requires Walking(s) && s.pc.Xfer? && s.pc.job.JRx? && Enabled(s, Reply(reply))
    requires |s.pc.replies| < s.pc.job.skip + s.pc.job.n
    ensures Unread(Exchange(s, reply)) <= Unread(s)
  {
    assert Todo(s.pc)[0] == s.pc.words[|s.pc.replies|];
    DecodeRd(FIFO);
    NothingResets(s.pc);
  }

  lemma LevelIsNearer(s: State, reply: Word)
    requires Walking(s) && s.pc.Xfer? && s.pc.job.JRx? && Enabled(s, Reply(reply))
    requires |s.pc.replies| == s.pc.job.skip + s.pc.job.n
    ensures Unread(Exchange(s, reply)) <= Unread(s)
  {
    assert Todo(s.pc)[0] == s.pc.words[|s.pc.replies|];
    DecodeRd(RXFIFOLVL);
  }

  lemma WordIsNearer(s: State, reply: Word)
    requires Walking(s) && Enabled(s, Reply(reply)) && !Asking(s.pc)
    ensures Nearer(s, Exchange(s, reply))
  {
    ExchangeTodo(s, reply);
    if s.pc.job.JRx? {
      if |s.pc.replies| < s.pc.job.skip + s.pc.job.n {
        PopIsNearer(s, reply);
      } else {
        LevelIsNearer(s, reply);
      }
    }
  }

  /** The next decision, when the tty has stopped transmission. */
  lemma DecisionOnward(s: State)
    requires Walking(s) && Enabled(s, Advance(true))
    ensures Walking(Decide(s, true)) && Decide(s, true).dev == s.dev
  {
    DecideKeepsShape(s, true);
    DecideKeeps(s, true);
    DecideCarriesNothing(s, true);
    T.DecisionSeesNothing(s, true);
  }

  lemma BurstIsNearer(s: State, level: nat)
    requires s.pc == AtRxLoop(level) && level > 0
    ensures Nearer(s, RxBurst(s, level))
  {
  }

  lemma RxLoopIsNearer(s: State, level: nat)
    requires s.pc == AtRxLoop(level)
    ensures Nearer(s, FromRxLoop(s, level))
  {
    if level > 0 {
      BurstIsNearer(s, level);
    }
  }

  lemma FinishIsNearer(s: State)
    requires Walking(s) && Enabled(s, Advance(true)) && s.pc.Xfer?
    ensures Nearer(s, Finish(s))
  {
  }

  lemma DecisionIsNearer(s: State)
    requires Walking(s) && Enabled(s, Advance(true)) && (s.pc.AtIrq? ==> s.port.handleIrq)
    ensures Nearer(s, Decide(s, true))
  {
    match s.pc
    case Xfer(_, _, _) => FinishIsNearer(s);
    case AtRxLoop(level) => RxLoopIsNearer(s, level);
    case _ =>
  }

  /** One step on the way, which leaves the TX FIFO as it is. */
  lemma OneOnward(s: State) returns (t: State)
    requires Walking(s) && !Asking(s.pc)
    ensures CalmlyReaches(s, t) && Walking(t) && t.dev.tx == s.dev.tx && Nearer(s, t)
  {
    if Todo(s.pc) != [] {
      var reply := AnswerTo(s.dev, Todo(s.pc)[0]);
      t := Exchange(s, reply);
      WordOnward(s, reply);
      WordIsNearer(s, reply);
      CalmOne(s, Reply(reply));
    } else if s.pc.Idle? {
      t := Apply(s, StartWork);
      LevelWord(s.dev.regs);
      CalmOne(s, StartWork);
    } else if s.pc.AtIrq? && !s.port.handleIrq {
      t := Apply(s, Irq);
      CalmOne(s, Irq);
    } else {
      t := Decide(s, true);
      DecisionOnward(s);
      DecisionIsNearer(s);
      CalmOne(s, Advance(true));
    }
  }

  lemma {:induction false} WalkOn(s: State) returns (t: State)
    requires Walking(s)
    ensures CalmlyReaches(s, t) && Walking(t) && t.dev.tx == s.dev.tx && Asking(t.pc)
    decreases Stage(s), Unread(s), WordsLeft(s.pc)
  {
    if Asking(s.pc) {
      t := s;
      CalmSelf(s);
    } else {
      var a := OneOnward(s);
      t := WalkOn(a);
      CalmJoin(s, a, t);
    }
  }

  /* ---------------------------------------------------------------- the flag goes up */

  /** The status words, the first of which has brought the TX-empty bit. */
  predicate Reading(s: State) {
    && s.pc.Xfer? && s.pc.job == JIrq && s.pc.words == IrqProgram() && 0 < |s.pc.replies| <= 4
    && HasBit(ValOf(s.pc.replies[0]), IRQ_TXEMPTY) && s.sleep.None? && |s.dev.rx| <= RX_FIFO_SIZE
  }

  lemma ReadOne(s: State) returns (t: State)
    requires Reading(s) && |s.pc.replies| < 4
    ensures CalmlyReaches(s, t) && Reading(t) && t.dev == s.dev && |t.pc.replies| == |s.pc.replies| + 1
  {
    var w := Todo(s.pc)[0];
    assert w == IrqProgram()[|s.pc.replies|];
    DecodeRd(STS_IRQSTS);
    DecodeRd(LSR_IRQSTS);
    DecodeRd(RXFIFOLVL);
    var reply := AnswerTo(s.dev, w);
    t := Exchange(s, reply);
    CalmOne(s, Reply(reply));
  }

  lemma {:induction false} ReadAll(s: State) returns (t: State)
    requires Reading(s)
    ensures CalmlyReaches(s, t) && Reading(t) && t.dev == s.dev && |t.pc.replies| == 4
    decreases 4 - |s.pc.replies|
  {
    if |s.pc.replies| == 4 {
      t := s;
      CalmSelf(s);
    } else {
      var a := ReadOne(s);
      t := ReadAll(a);
      CalmJoin(s, a, t);
    }
  }

  lemma FirstStatus(s: State) returns (t: State)
    requires Walking(s) && Asking(s.pc)
    ensures CalmlyReaches(s, t) && Reading(t) && t.dev.tx == s.dev.tx
  {
    assert Todo(s.pc)[0] == Rd(IRQSTS);
    DecodeRd(IRQSTS);
    var reply := AnswerTo(s.dev, Rd(IRQSTS));
    t := Exchange(s, reply);
    CalmOne(s, Reply(reply));
  }

  /** The transmitter is switched off, and the flag goes up. */
  lemma RaiseFlag(s: State) returns (t: State)
    requires Reading(s) && |s.pc.replies| == 4
    ensures CalmlyReaches(s, t) && t.pc.AtTx? && t.sleep.None? && t.port.txFifoEmpty && t.dev.tx == s.dev.tx
  {
    var a := Apply(s, Advance(true));
    var mode1 := SetBit(s.port.mode1, MODE1_TXDIS);
    assert a.pc.words == [Wr(MODE1, mode1)];
    DecodeWr(MODE1, mode1);
    var b := Exchange(a, 0);
    t := Apply(b, Advance(true));
    CalmSelf(t);
    CalmAfter(b, Advance(true), t);
    CalmAfter(a, Reply(0), t);
    CalmAfter(s, Advance(true), t);
  }

  /** Once the latch is up, the flag can go up, whatever the FIFO holds. */
  lemma FlagGoesUp(s: State) returns (t: State)
    requires Walking(s)
    ensures CalmlyReaches(s, t) && t.pc.AtTx? && t.sleep.None? && t.port.txFifoEmpty && t.dev.tx == s.dev.tx
  {
    var a := WalkOn(s);
    var b := FirstStatus(a);
    var c := ReadAll(b);
    t := RaiseFlag(c);
    CalmJoin(b, c, t);
    CalmJoin(a, b, t);
    CalmJoin(s, a, t);
  }
}
