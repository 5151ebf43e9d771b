/** The code and the system do the same: for every round of the work function, as the code runs it alone, the system
    has a run without any other event that exchanges the same words and ends in the same state. */
module Max3107Simulation {
  import opened Max3107Device
  import opened Max3107Programs
  import opened Max3107System
  import opened Max3107Driver
  import opened Max3107Work

  /* ---------------------------------------------------------------- runs of the work thread alone */

  predicate WorkOnly(e: Event) {
    e.Reply? || e.Advance?
  }

  /** The word a step exchanges with the device, if any. */
  function Spoken(s: State, e: Event): seq<Word>
    requires Enabled(s, e)
  {
    if e.Reply? then [Todo(s.pc)[0]] else []
  }

  /** The words a run exchanges with the device. */
  function Exchanged(s: State, events: seq<Event>): seq<Word>
    decreases |events|
  {
    if events == [] || !Enabled(s, events[0]) then []
    else Spoken(s, events[0]) + Exchanged(Apply(s, events[0]), events[1..])
  }

  predicate AllWork(events: seq<Event>) {
    forall i :: 0 <= i < |events| ==> WorkOnly(events[i])
  }

  /** From s to t by these events, all of the work thread, over these words. */
  predicate Script(s: State, events: seq<Event>, words: seq<Word>, t: State) {
    Run(s, events, t) && Exchanged(s, events) == words && AllWork(events)
  }

  /** From s to t with nothing but the work thread, over these words. */
  ghost predicate Alone(s: State, words: seq<Word>, t: State) {
    exists events :: Script(s, events, words, t)
  }

  lemma AloneSelf(s: State)
    ensures Alone(s, [], s)
  {
    var events: seq<Event> := [];
    assert Script(s, events, [], s);
  }

  lemma ScriptStep(s: State, e: Event, events: seq<Event>, words: seq<Word>, t: State)
    requires Enabled(s, e) && WorkOnly(e) && Script(Apply(s, e), events, words, t)
    ensures Script(s, [e] + events, Spoken(s, e) + words, t)
  {
    assert ([e] + events)[1..] == events;
  }

  lemma AloneStep(s: State, e: Event, words: seq<Word>, t: State)
    requires Enabled(s, e) && WorkOnly(e) && Alone(Apply(s, e), words, t)
    ensures Alone(s, Spoken(s, e) + words, t)
  {
    var events :| Script(Apply(s, e), events, words, t);
    ScriptStep(s, e, events, words, t);
  }

  lemma AloneDecide(s: State, txStopped: bool)
    requires Enabled(s, Advance(txStopped))
    ensures Alone(s, [], Decide(s, txStopped))
  {
    AloneSelf(Decide(s, txStopped));
    AloneStep(s, Advance(txStopped), [], Decide(s, txStopped));
  }

  lemma {:induction false} RunsJoin(s: State, a: seq<Event>, t: State, b: seq<Event>, u: State)
    requires Run(s, a, t) && Run(t, b, u)
    ensures Run(s, a + b, u) && Exchanged(s, a + b) == Exchanged(s, a) + Exchanged(t, b)
    decreases |a|
  {
    if a == [] {
      assert a + b == b;
    } else {
      assert (a + b)[1..] == a[1..] + b;
      RunsJoin(Apply(s, a[0]), a[1..], t, b, u);
      Assoc(Spoken(s, a[0]), Exchanged(Apply(s, a[0]), a[1..]), Exchanged(t, b));
    }
  }

  lemma AloneJoin(s: State, v: seq<Word>, t: State, w: seq<Word>, u: State)
    requires Alone(s, v, t) && Alone(t, w, u)
    ensures Alone(s, v + w, u)
  {
    var a :| Script(s, a, v, t);
    var b :| Script(t, b, w, u);
    RunsJoin(s, a, t, b, u);
    assert Script(s, a + b, v + w, u);
  }

  /* ---------------------------------------------------------------- one transfer */

  /** Each word is answered as the device may answer it when its turn has come. */
  predicate AllAnswered(d: Device, words: seq<Word>, replies: seq<Word>)
    decreases |words|
  {
    |words| == |replies|
    && (words == [] || (Answers(d, words[0], replies[0]) && AllAnswered(Exec(d, words[0]), words[1..], replies[1..])))
  }

  /** The state when the words still to go have been answered with these replies. */
  function Replied(s: State, replies: seq<Word>): State
    requires s.pc.Xfer?
  {
    s.(dev := ExecAll(s.dev, Todo(s.pc)), pc := s.pc.(replies := s.pc.replies + replies))
  }

  lemma RepliedStep(s: State, replies: seq<Word>)
    requires s.pc.Xfer? && replies != [] && Enabled(s, Reply(replies[0]))
    ensures Replied(s, replies) == Replied(Exchange(s, replies[0]), replies[1..])
  {
    ExchangeTodo(s, replies[0]);
    assert (s.pc.replies + [replies[0]]) + replies[1..] == s.pc.replies + replies;
  }

  lemma OneReply(s: State, replies: seq<Word>) returns (rest: seq<Word>)
    requires s.pc.Xfer? && Shaped(s.pc) && AllAnswered(s.dev, Todo(s.pc), replies) && replies != []
    ensures Enabled(s, Reply(replies[0])) && Spoken(s, Reply(replies[0])) + rest == Todo(s.pc)
    ensures var t := Exchange(s, replies[0]);
            t.pc.Xfer? && Shaped(t.pc) && rest == Todo(t.pc) && AllAnswered(t.dev, rest, replies[1..])
  {
    rest := Todo(s.pc)[1..];
    ExchangeTodo(s, replies[0]);
    StepKeepsShape(s, Reply(replies[0]));
  }

  lemma {:induction false} TransferAlone(s: State, replies: seq<Word>)
    requires s.pc.Xfer? && Shaped(s.pc) && AllAnswered(s.dev, Todo(s.pc), replies)
    ensures Alone(s, Todo(s.pc), Replied(s, replies))
    decreases |replies|
  {
    if replies == [] {
      assert s.pc.replies + replies == s.pc.replies;
      AloneSelf(s);
    } else {
      var rest := OneReply(s, replies);
      RepliedStep(s, replies);
      TransferAlone(Exchange(s, replies[0]), replies[1..]);
      AloneStep(s, Reply(replies[0]), rest, Replied(s, replies));
    }
  }

  function Zeros(n: nat): (z: seq<Word>)
    ensures |z| == n
  {
    seq(n, _ => 0)
  }

  /** A program that only writes can be answered with anything. */
  lemma {:induction false} WritesAnswered(d: Device, words: seq<Word>)
    requires WritesOnly(words)
    ensures AllAnswered(d, words, Zeros(|words|))
    decreases |words|
  {
    if words != [] {
      assert Zeros(|words|)[1..] == Zeros(|words| - 1);
      WritesAnswered(Exec(d, words[0]), words[1..]);
    }
  }

  /** A whole transfer and what the work thread makes of it. */
  lemma TransferFinished(s: State, replies: seq<Word>, txStopped: bool) returns (t: State)
    requires s.pc.Xfer? && Shaped(s.pc) && s.pc.replies == [] && AllAnswered(s.dev, s.pc.words, replies)
    ensures |replies| == |s.pc.words|
    ensures t == Finish(s.(dev := ExecAll(s.dev, s.pc.words), pc := s.pc.(replies := replies)))
    ensures Alone(s, s.pc.words, t)
  {
    var words := s.pc.words;
    assert Todo(s.pc) == words && [] + replies == replies;
    TransferAlone(s, replies);
    var m := Replied(s, replies);
    AnsweredLength(s.dev, words, replies);
    t := Finish(m);
    AloneDecide(m, txStopped);
    AloneJoin(s, words, m, [], t);
    assert words + [] == words;
  }

  lemma AnsweredLength(d: Device, words: seq<Word>, replies: seq<Word>)
    requires AllAnswered(d, words, replies)
    ensures |words| == |replies|
  {
  }

  /** A decision that begins a transfer, the transfer, and what the work thread makes of it. */
  lemma DecisionAlone(s: State, a: State, replies: seq<Word>, txStopped: bool) returns (t: State)
    requires Enabled(s, Advance(txStopped)) && a == Decide(s, txStopped) && a.pc.Xfer? && a.pc.replies == []
    requires AllAnswered(a.dev, a.pc.words, replies)
    ensures |replies| == |a.pc.words| && Shaped(a.pc.(replies := replies))
    ensures t == Finish(a.(dev := ExecAll(a.dev, a.pc.words), pc := a.pc.(replies := replies)))
    ensures Alone(s, a.pc.words, t)
  {
    DecideKeepsShape(s, txStopped);
    AloneDecide(s, txStopped);
    t := TransferFinished(a, replies, txStopped);
    AloneJoin(s, [], a, a.pc.words, t);
    assert [] + a.pc.words == a.pc.words;
  }

  /** A whole transfer of writes: the answers do not matter. */
  lemma WritesFinished(s: State, txStopped: bool) returns (t: State, replies: seq<Word>)
    requires s.pc.Xfer? && Shaped(s.pc) && s.pc.replies == [] && WritesOnly(s.pc.words)
    ensures |replies| == |s.pc.words|
    ensures t == Finish(s.(dev := ExecAll(s.dev, s.pc.words), pc := s.pc.(replies := replies)))
    ensures Alone(s, s.pc.words, t)
  {
    replies := Zeros(|s.pc.words|);
    WritesAnswered(s.dev, s.pc.words);
    t := TransferFinished(s, replies, txStopped);
  }

  /* ---------------------------------------------------------------- receiving */

  /** The device answers the transfers of the receive loop like this. */
  predicate ChatAnswered(d: Device, irqen: Byte, level: nat, rx: seq<seq<Word>>)
    requires Chat(irqen, level, rx)
    decreases |rx|
  {
    level > 0 ==>
      && AllAnswered(d, RxProgram(irqen, level), rx[0])
      && ChatAnswered(ExecAll(d, RxProgram(irqen, level)), ClearBit(irqen, IRQ_RXFIFO), NextLevel(rx[0]), rx[1..])
  }

  /** The state at the head of the loop after one burst. */
  function AfterBurst(s: State, level: nat, answer: seq<Word>): State
    requires level < |answer|
  {
    s.(port := RxPort(s.port), dev := ExecAll(s.dev, RxProgram(s.port.irqen, level)),
       pushed := s.pushed + DataAnswers(answer, level), pc := AtRxLoop(NextLevel(answer)))
  }

  lemma BurstEnds(s: State, level: nat, answer: seq<Word>)
    requires |answer| == |RxQuiet(s.port.irqen)| + level + 1
    ensures var a, words := RxBurst(s, level), RxProgram(s.port.irqen, level);
            && Shaped(a.pc.(replies := answer))
            && Finish(a.(dev := ExecAll(s.dev, words), pc := a.pc.(replies := answer))) == AfterBurst(s, level, answer)
  {
    RxBurstKeepsShape(s, level);
  }

  /** One burst, and back to the head of the loop. */
  lemma BurstAlone(s: State, level: nat, answer: seq<Word>, txStopped: bool)
    requires s.pc == AtRxLoop(level) && level > 0 && |answer| == |RxQuiet(s.port.irqen)| + level + 1
    requires AllAnswered(s.dev, RxProgram(s.port.irqen, level), answer)
    ensures Alone(s, RxProgram(s.port.irqen, level), AfterBurst(s, level, answer))
  {
    var t := DecisionAlone(s, RxBurst(s, level), answer, txStopped);
    BurstEnds(s, level, answer);
  }

  /** The state when the loop has come to level zero. */
  function LoopEnd(s: State, level: nat, rx: seq<seq<Word>>): State
    requires Chat(s.port.irqen, level, rx)
  {
    s.(port := if level == 0 then s.port else RxPort(s.port), dev := ExecAll(s.dev, ChatWords(s.port.irqen, level, rx)),
       pushed := s.pushed + ChatBytes(s.port.irqen, level, rx), pc := AtRxLoop(0))
  }

  lemma LoopEndStep(s: State, level: nat, rx: seq<seq<Word>>)
    requires Chat(s.port.irqen, level, rx) && level > 0
    ensures LoopEnd(s, level, rx) == LoopEnd(AfterBurst(s, level, rx[0]), NextLevel(rx[0]), rx[1..])
  {
    ChatStep(s.dev, s.pushed, s.port.irqen, level, rx);
    ClearTwice(s.port.irqen);
  }

  lemma ChatStep(d: Device, pushed: seq<Byte>, irqen: Byte, level: nat, rx: seq<seq<Word>>)
    requires Chat(irqen, level, rx) && level > 0
    ensures var quiet, next := ClearBit(irqen, IRQ_RXFIFO), NextLevel(rx[0]);
            && ExecAll(d, ChatWords(irqen, level, rx))
               == ExecAll(ExecAll(d, RxProgram(irqen, level)), ChatWords(quiet, next, rx[1..]))
            && pushed + ChatBytes(irqen, level, rx)
               == pushed + DataAnswers(rx[0], level) + ChatBytes(quiet, next, rx[1..])
  {
    var quiet, next := ClearBit(irqen, IRQ_RXFIFO), NextLevel(rx[0]);
    ExecAllAppend(d, RxProgram(irqen, level), ChatWords(quiet, next, rx[1..]));
    Assoc(pushed, DataAnswers(rx[0], level), ChatBytes(quiet, next, rx[1..]));
  }

  lemma {:induction false} LoopAlone(s: State, level: nat, rx: seq<seq<Word>>, txStopped: bool)
    requires s.pc == AtRxLoop(level) && Chat(s.port.irqen, level, rx)
    requires ChatAnswered(s.dev, s.port.irqen, level, rx)
    ensures Alone(s, ChatWords(s.port.irqen, level, rx), LoopEnd(s, level, rx))
    decreases |rx|
  {
    if level == 0 {
      AloneSelf(s);
      assert s.pushed + [] == s.pushed && LoopEnd(s, level, rx) == s;
    } else {
      var a, next := AfterBurst(s, level, rx[0]), NextLevel(rx[0]);
      BurstAlone(s, level, rx[0], txStopped);
      LoopAlone(a, next, rx[1..], txStopped);
      LoopEndStep(s, level, rx);
      AloneJoin(s, RxProgram(s.port.irqen, level), a, ChatWords(a.port.irqen, next, rx[1..]), LoopEnd(s, level, rx));
    }
  }

  /* ---------------------------------------------------------------- the parts of a round */

  /** The receiving part of a round: from its beginning to the interrupt part. */
  function RxEnd(s: State, level: nat, rx: seq<seq<Word>>): State
    requires Receives(s.port, level) ==> Chat(s.port.irqen, Clamp(level), rx)
  {
    s.(port := RxDone(s.port, level), dev := ExecAll(s.dev, RxWords(s.port, level, rx)),
       pushed := s.pushed + RxBytes(s.port, level, rx), pc := AtIrq)
  }

  lemma ReopenAlone(s: State, txStopped: bool)
    requires s.pc == AtRxLoop(0) && s.port.rxEnabled
    ensures var irqen := SetBit(s.port.irqen, IRQ_RXFIFO);
            Alone(s, [Wr(IRQEN, irqen)],
                  s.(port := s.port.(irqen := irqen), dev := ExecAll(s.dev, [Wr(IRQEN, irqen)]), pc := AtIrq))
  {
    var a := RxReopen(s);
    RxReopenKeepsShape(s);
    SettleIrqen(s.dev.regs, SetBit(s.port.irqen, IRQ_RXFIFO));
    WritesAnswered(a.dev, a.pc.words);
    var t := DecisionAlone(s, a, Zeros(1), txStopped);
  }

  lemma LoopThenReopen(s: State, level: nat, rx: seq<seq<Word>>, txStopped: bool)
    requires s.pc == AtRxLoop(level) && 0 < level && s.port.rxEnabled && Chat(s.port.irqen, level, rx)
    requires ChatAnswered(s.dev, s.port.irqen, level, rx)
    ensures var irqen := SetBit(s.port.irqen, IRQ_RXFIFO);
            var words := ChatWords(s.port.irqen, level, rx) + [Wr(IRQEN, irqen)];
            Alone(s, words, s.(port := s.port.(irqen := irqen), dev := ExecAll(s.dev, words),
                               pushed := s.pushed + ChatBytes(s.port.irqen, level, rx), pc := AtIrq))
  {
    var irqen, chat := SetBit(s.port.irqen, IRQ_RXFIFO), ChatWords(s.port.irqen, level, rx);
    var m := LoopEnd(s, level, rx);
    LoopAlone(s, level, rx, txStopped);
    ClearTwice(s.port.irqen);
    ReopenAlone(m, txStopped);
    ExecAllAppend(s.dev, chat, [Wr(IRQEN, irqen)]);
    AloneJoin(s, chat, m, [Wr(IRQEN, irqen)],
              m.(port := m.port.(irqen := irqen), dev := ExecAll(m.dev, [Wr(IRQEN, irqen)]), pc := AtIrq));
  }

  lemma ReceiveAlone(s: State, level: nat, rx: seq<seq<Word>>, txStopped: bool)
    requires s.pc == AtRx(level) && (Receives(s.port, level) ==> Chat(s.port.irqen, Clamp(level), rx))
    requires Receives(s.port, level) ==> ChatAnswered(s.dev, s.port.irqen, Clamp(level), rx)
    ensures Alone(s, RxWords(s.port, level, rx), RxEnd(s, level, rx))
  {
    AloneDecide(s, txStopped);
    if Receives(s.port, level) {
      var a := s.(pc := AtRxLoop(Clamp(level)));
      LoopThenReopen(a, Clamp(level), rx, txStopped);
      AloneJoin(s, [], a, RxWords(s.port, level, rx), RxEnd(s, level, rx));
      assert [] + RxWords(s.port, level, rx) == RxWords(s.port, level, rx);
    } else {
      assert s.pushed + [] == s.pushed;
      assert RxEnd(s, level, rx) == s.(pc := AtIrq);
    }
  }

  /** The interrupt part: to the transmit decision. */
  function IrqEnd(s: State, status: seq<Word>): State
    requires s.port.handleIrq ==> |status| == 4
  {
    s.(port := IrqDone(s.port, status), dev := ExecAll(s.dev, IrqWords(s.port, status)),
       pc := AtTx(NewLevel(s.port, status)))
  }

  /** The state once the status has been read. */
  function StatusRead(s: State, status: seq<Word>): State
    requires |status| == 4
  {
    FinishIrq(s.(port := s.port.(handleIrq := false), dev := ExecAll(s.dev, IrqProgram())),
              ValOf(status[0]), ValOf(status[3]) as nat)
  }

  lemma StatusFinished(s: State, status: seq<Word>)
    requires |status| == 4
    ensures var a := s.(port := s.port.(handleIrq := false), dev := ExecAll(s.dev, IrqProgram()),
                        pc := Xfer(JIrq, IrqProgram(), status));
            Shaped(a.pc) && Finish(a) == StatusRead(s, status)
  {
  }

  lemma StatusAlone(s: State, status: seq<Word>, txStopped: bool)
    requires s.pc.AtIrq? && s.port.handleIrq && |status| == 4 && AllAnswered(s.dev, IrqProgram(), status)
    ensures Alone(s, IrqProgram(), StatusRead(s, status))
  {
    StatusFinished(s, status);
    var a := s.(port := s.port.(handleIrq := false), pc := Xfer(JIrq, IrqProgram(), []));
    assert a == Decide(s, txStopped);
    var t := DecisionAlone(s, a, status, txStopped);
  }

  lemma SwitchOffAlone(s: State, level: nat, txStopped: bool)
    requires s.pc == Xfer(JTxOff(level), [Wr(MODE1, s.port.mode1)], [])
    ensures Alone(s, [Wr(MODE1, s.port.mode1)],
                  s.(port := s.port.(txEnabled := false, txFifoEmpty := true),
                     dev := ExecAll(s.dev, [Wr(MODE1, s.port.mode1)]), pc := AtTx(level)))
  {
    SettleMode1(s.dev.regs, s.port.mode1);
    var t, replies := WritesFinished(s, txStopped);
  }

  lemma InterruptsAlone(s: State, status: seq<Word>, txStopped: bool)
    requires s.pc.AtIrq? && (s.port.handleIrq ==> |status| == 4 && AllAnswered(s.dev, IrqProgram(), status))
    ensures Alone(s, IrqWords(s.port, status), IrqEnd(s, status))
  {
    if !s.port.handleIrq {
      NoInterrupt(s, status, txStopped);
    } else if SeesEmpty(s.port, status) {
      SwitchedOff(s, status, txStopped);
    } else {
      NotSwitched(s, status, txStopped);
    }
  }

  lemma NoInterrupt(s: State, status: seq<Word>, txStopped: bool)
    requires s.pc.AtIrq? && !s.port.handleIrq
    ensures Alone(s, IrqWords(s.port, status), IrqEnd(s, status))
  {
    AloneDecide(s, txStopped);
    assert IrqEnd(s, status) == Decide(s, txStopped);
  }

  lemma NotSwitched(s: State, status: seq<Word>, txStopped: bool)
    requires s.pc.AtIrq? && s.port.handleIrq && |status| == 4 && AllAnswered(s.dev, IrqProgram(), status)
    requires !SeesEmpty(s.port, status)
    ensures Alone(s, IrqWords(s.port, status), IrqEnd(s, status))
  {
    StatusAlone(s, status, txStopped);
    assert IrqWords(s.port, status) == IrqProgram();
  }

  lemma SwitchedOff(s: State, status: seq<Word>, txStopped: bool)
    requires s.pc.AtIrq? && s.port.handleIrq && |status| == 4 && AllAnswered(s.dev, IrqProgram(), status)
    requires SeesEmpty(s.port, status)
    ensures Alone(s, IrqWords(s.port, status), IrqEnd(s, status))
  {
    var level, word := ValOf(status[3]) as nat, [Wr(MODE1, SetBit(s.port.mode1, MODE1_TXDIS))];
    var m := SwitchOff(s.(port := s.port.(handleIrq := false), dev := ExecAll(s.dev, IrqProgram())), level);
    StatusAlone(s, status, txStopped);
    SwitchOffAlone(m, level, txStopped);
    ExecAllAppend(s.dev, IrqProgram(), word);
    AloneJoin(s, IrqProgram(), m, word, IrqEnd(s, status));
  }

  /** The transmit part. */
  function TxEnd(s: State, level: nat, txStopped: bool): State {
    s.(port := TxDone(s.port, s.pending, txStopped), pending := s.pending[TxCount(s.port, s.pending, txStopped)..],
       dev := ExecAll(s.dev, TxWords(s.port, s.pending, txStopped)), pc := AtConfig(level))
  }

  lemma TransmitAlone(s: State, level: nat, txStopped: bool)
    requires s.pc == AtTx(level)
    ensures Alone(s, TxWords(s.port, s.pending, txStopped), TxEnd(s, level, txStopped))
  {
    if Sends(s.port.txFifoEmpty, s.pending, txStopped) {
      var a := Send(s, level, Take(s.pending));
      TxProgramMeaning(s.port, s.pending[..Take(s.pending)], s.dev.regs);
      WritesAnswered(a.dev, a.pc.words);
      var t := DecisionAlone(s, a, Zeros(|a.pc.words|), txStopped);
    } else {
      AloneDecide(s, txStopped);
      assert s.pending[0..] == s.pending;
      assert TxEnd(s, level, txStopped) == Decide(s, txStopped);
    }
  }

  /** The configuration part. */
  function ConfigEnd(s: State, level: nat): State {
    s.(port := ConfigPort(s.port), dev := ExecAll(s.dev, ConfigProgram(s.port)), pc := AtEnd(level))
  }

  lemma ConfigAlone(s: State, level: nat, txStopped: bool)
    requires s.pc == AtConfig(level)
    ensures Alone(s, ConfigProgram(s.port), ConfigEnd(s, level))
  {
    if ConfigProgram(s.port) == [] {
      AloneDecide(s, txStopped);
      assert ConfigEnd(s, level) == FromConfig(s, level);
    } else {
      CommitAlone(s, level, txStopped);
    }
  }

  lemma CommitAlone(s: State, level: nat, txStopped: bool)
    requires s.pc == AtConfig(level) && ConfigProgram(s.port) != []
    ensures Alone(s, ConfigProgram(s.port), ConfigEnd(s, level))
  {
    var a := FromConfig(s, level);
    ConfigProgramMeaning(s.port, s.dev.regs);
    WritesAnswered(a.dev, a.pc.words);
    var t := DecisionAlone(s, a, Zeros(|a.pc.words|), txStopped);
  }

  /* ---------------------------------------------------------------- the round */

  /** The device answers the round like this: the receive loop, and the status words after it. */
  predicate RoundAnswered(d: Device, p: Port, level: nat, r: Round)
    requires Ready(p, level, r)
  {
    && (Receives(p, level) ==> ChatAnswered(d, p.irqen, Clamp(level), r.rx))
    && (p.handleIrq ==> AllAnswered(ExecAll(d, RxWords(p, level, r.rx)), IrqProgram(), r.status))
  }

  /** What the code works on, in a state of the system. */
  function Seen(s: State, sent: seq<Word>): Snap {
    Snap(s.port, s.pending, sent, s.pushed)
  }

  /** For every round that the code runs alone with answers the device may give, the system has a run of the work
      thread alone that exchanges exactly the words the code sends, and leaves shadow, ring, tty, device and level as
      the code does. */
  lemma RoundInSystem(s: State, level: nat, r: Round) returns (words: seq<Word>, t: State)
    requires s.pc == AtRx(level) && Ready(s.port, level, r) && RoundAnswered(s.dev, s.port, level, r)
    ensures Alone(s, words, t) && t.pc == AtEnd(Next(s.port, level, r))
    ensures Seen(t, words) == RoundEnd(Seen(s, []), level, r)
    ensures t == s.(port := t.port, pending := t.pending, pushed := t.pushed, pc := t.pc, dev := ExecAll(s.dev, words))
  {
    var a := RxEnd(s, level, r.rx);
    ReceiveAlone(s, level, r.rx, r.txStopped);
    var w1 := RxWords(s.port, level, r.rx);
    var b := IrqEnd(a, r.status);
    InterruptsAlone(a, r.status, r.txStopped);
    var w2 := IrqWords(a.port, r.status);
    var next := NewLevel(a.port, r.status);
    var c, w34 := SendAndCommitAlone(b, next, r.txStopped);
    t := c;
    words := w1 + w2 + w34;
    AloneJoin(s, w1, a, w2, b);
    AloneJoin(s, w1 + w2, b, w34, c);
    ExecAllAppend(s.dev, w1, w2);
    ExecAllAppend(s.dev, w1 + w2, w34);
    Assoc(w1 + w2, TxWords(b.port, b.pending, r.txStopped), ConfigProgram(TxDone(b.port, b.pending, r.txStopped)));
    assert [] + w1 == w1;
  }

  lemma SendAndCommitAlone(s: State, level: nat, txStopped: bool) returns (t: State, words: seq<Word>)
    requires s.pc == AtTx(level)
    ensures Alone(s, words, t) && t.pc == AtEnd(level)
    ensures words == TxWords(s.port, s.pending, txStopped) + ConfigProgram(TxDone(s.port, s.pending, txStopped))
    ensures t == s.(port := ConfigPort(TxDone(s.port, s.pending, txStopped)), dev := ExecAll(s.dev, words), pc := t.pc,
                    pending := s.pending[TxCount(s.port, s.pending, txStopped)..])
  {
    var a := TxEnd(s, level, txStopped);
    TransmitAlone(s, level, txStopped);
    ConfigAlone(a, level, txStopped);
    t := ConfigEnd(a, level);
    var v, w := TxWords(s.port, s.pending, txStopped), ConfigProgram(a.port);
    words := v + w;
    AloneJoin(s, v, a, w, t);
    ExecAllAppend(s.dev, v, w);
  }

  /* ---------------------------------------------------------------- the whole function */

  /** What the code works on, without the words sent so far. */
  function Fresh(x: Snap): Snap {
    x.(sent := [])
  }

  /** The words of one round. */
  function RoundWords(x: Snap, level: nat, r: Round): seq<Word>
    requires Ready(x.port, level, r)
  {
    RoundEnd(Fresh(x), level, r).sent
  }

  /** A round appends its words to those sent before. */
  lemma RoundAppends(x: Snap, level: nat, r: Round)
    requires Ready(x.port, level, r)
    ensures RoundEnd(x, level, r) == RoundEnd(Fresh(x), level, r).(sent := x.sent + RoundWords(x, level, r))
  {
    var q := Served(x.port, level, r);
    var a, b := RxWords(x.port, level, r.rx), IrqWords(RxDone(x.port, level), r.status);
    var c, d := TxWords(q, x.pending, r.txStopped), ConfigProgram(TxDone(q, x.pending, r.txStopped));
    assert [] + a == a;
    FourOnTop(x.sent, a, b, c, d);
  }

  lemma FourOnTop(sent: seq<Word>, a: seq<Word>, b: seq<Word>, c: seq<Word>, d: seq<Word>)
    ensures sent + a + b + c + d == sent + (a + b + c + d)
  {
  }

  /** The device answers all the rounds of a call like this. */
  predicate CallAnswered(dev: Device, x: Snap, level: nat, rounds: seq<Round>)
    requires Plays(x, level, rounds)
    decreases |rounds|
  {
    var next := Next(x.port, level, rounds[0]);
    && RoundAnswered(dev, x.port, level, rounds[0])
    && (next == 0 || CallAnswered(ExecAll(dev, RoundWords(x, level, rounds[0])), RoundEnd(x, level, rounds[0]),
                                  next, rounds[1..]))
  }

  /** Round again, or back to idle. */
  function OnFrom(next: nat): Pc {
    if next == 0 then Idle else AtRx(next)
  }

  lemma EndAlone(s: State, words: seq<Word>, t: State, next: nat)
    requires Alone(s, words, t) && t.pc == AtEnd(next)
    ensures Alone(s, words, t.(pc := OnFrom(next)))
  {
    AloneDecide(t, false);
    AloneJoin(s, words, t, [], t.(pc := OnFrom(next)));
    assert words + [] == words;
  }

  /** One round and the decision after it, on top of the words sent before. */
  lemma RoundAndOn(s: State, sent: seq<Word>, level: nat, r: Round) returns (words: seq<Word>, t: State)
    requires s.pc == AtRx(level) && Ready(s.port, level, r) && RoundAnswered(s.dev, s.port, level, r)
    ensures Alone(s, words, t) && words == RoundWords(Seen(s, sent), level, r)
    ensures Seen(t, sent + words) == RoundEnd(Seen(s, sent), level, r)
    ensures t.pc == OnFrom(Next(s.port, level, r))
    ensures t == s.(port := t.port, pending := t.pending, pushed := t.pushed, pc := t.pc, dev := ExecAll(s.dev, words))
  {
    var a;
    words, a := RoundInSystem(s, level, r);
    RoundAppends(Seen(s, sent), level, r);
    t := a.(pc := OnFrom(Next(s.port, level, r)));
    EndAlone(s, words, a, Next(s.port, level, r));
  }

  /** All rounds of a call, one after the other. */
  lemma {:induction false} RoundsInSystem(s: State, sent: seq<Word>, level: nat, rounds: seq<Round>)
    returns (words: seq<Word>, t: State)
    requires s.pc == AtRx(level) && Plays(Seen(s, sent), level, rounds)
    requires CallAnswered(s.dev, Seen(s, sent), level, rounds)
    ensures Alone(s, words, t) && t.pc.Idle? && Seen(t, sent + words) == WorkEnd(Seen(s, sent), level, rounds)
    ensures t == s.(port := t.port, pending := t.pending, pushed := t.pushed, pc := t.pc, dev := ExecAll(s.dev, words))
    decreases |rounds|
  {
    var next := Next(s.port, level, rounds[0]);
    var first, a := RoundAndOn(s, sent, level, rounds[0]);
    if next == 0 {
      words, t := first, a;
    } else {
      var rest;
      rest, t := RoundsInSystem(a, sent + first, next, rounds[1..]);
      AloneJoin(s, first, a, rest, t);
      ExecAllAppend(s.dev, first, rest);
      Assoc(sent, first, rest);
      words := first + rest;
    }
  }

  lemma LevelReads(d: Device)
    ensures ExecAll(d, [Rd(RXFIFOLVL)]) == d
  {
    DecodeRd(RXFIFOLVL);
    assert [Rd(RXFIFOLVL)][1..] == [];
  }

  /** The level is asked for. */
  lemma LevelAlone(s: State, answer: Word)
    requires s.pc.Idle? && Answers(s.dev, Rd(RXFIFOLVL), answer)
    ensures Alone(Apply(s, StartWork), [Rd(RXFIFOLVL)], s.(pc := AtRx(ValOf(answer) as nat)))
  {
    DecodeRd(RXFIFOLVL);
    var a := Apply(s, StartWork);
    assert AllAnswered(Exec(s.dev, Rd(RXFIFOLVL)), [], []);
    assert [Rd(RXFIFOLVL)][1..] == [] && [answer][1..] == [];
    var t := TransferFinished(a, [answer], false);
    LevelReads(s.dev);
  }

  /** The whole call: once it has been started, the system has a run of the work thread alone that exchanges exactly the
      words the code sends, and is idle again with the shadow, ring, tty and device that the code leaves. */
  lemma WorkInSystem(s: State, answer: Word, rounds: seq<Round>) returns (words: seq<Word>, t: State)
    requires s.pc.Idle? && Answers(s.dev, Rd(RXFIFOLVL), answer)
    requires Plays(Asked(Seen(s, [])), ValOf(answer) as nat, rounds)
    requires CallAnswered(s.dev, Asked(Seen(s, [])), ValOf(answer) as nat, rounds)
    ensures Alone(Apply(s, StartWork), words, t) && t.pc.Idle?
    ensures Seen(t, words) == WorkEnd(Asked(Seen(s, [])), ValOf(answer) as nat, rounds)
    ensures t == s.(port := t.port, pending := t.pending, pushed := t.pushed, dev := ExecAll(s.dev, words))
  {
    var level := ValOf(answer) as nat;
    var first := [Rd(RXFIFOLVL)];
    LevelAlone(s, answer);
    var a := s.(pc := AtRx(level));
    assert [] + first == first;
    var rest;
    rest, t := RoundsInSystem(a, first, level, rounds);
    words := first + rest;
    AloneJoin(Apply(s, StartWork), first, a, rest, t);
    ExecAllAppend(s.dev, first, rest);
    LevelReads(s.dev);
  }
}
