/** What the data asks of set_sleep is exact: a run is secure, if everybody keeps calm from then on, exactly when it is
    orderly; after a step that is not, a byte can be lost however calm everybody keeps. */
module Max3107Disorder {
  import opened Max3107Calm
  import opened Max3107Device
  import opened Max3107Onward
  import opened Max3107Programs
  import opened Max3107System
  import opened Wrappers
  import C = Max3107Coherence
  import T = Max3107Transmit

  /* ---------------------------------------------------------------- running ahead */

  /** A TX transfer under way into a FIFO whose transmitter is on. */
  predicate Loading(s: State) {
    && Shaped(s.pc) && s.pc.Xfer? && s.pc.job.JTx? && s.sleep.None? && |s.dev.rx| <= RX_FIFO_SIZE
    && !TxDisabled(s.dev.regs.mode1) && DataFirst(Todo(s.pc)) && |s.dev.tx| + |T.Coming(s)| <= TX_FIFO_SIZE
  }

  lemma WriteOn(s: State) returns (t: State)
    requires Loading(s) && T.Coming(s) != []
    ensures CalmlyReaches(s, t) && Loading(t) && |Todo(t.pc)| < |Todo(s.pc)|
    ensures t.dev.tx == s.dev.tx + Pushed(Todo(s.pc)[0]) && Pushed(Todo(s.pc)[0]) + T.Coming(t) == T.Coming(s)
  {
    var w := Todo(s.pc)[0];
    assert w == s.pc.words[|s.pc.replies|];
    ExecWrite(s.dev, w);
    t := Exchange(s, 0);
    ExchangeTodo(s, 0);
    StepKeepsShape(s, Reply(0));
    CalmOne(s, Reply(0));
  }

  lemma {:induction false} PushOne(s: State) returns (t: State)
    requires Loading(s) && T.Coming(s) != []
    ensures CalmlyReaches(s, t) && Loading(t) && t.dev.tx != [] && |T.Coming(t)| == |T.Coming(s)| - 1
    decreases |Todo(s.pc)|
  {
    var a := WriteOn(s);
    if Pushed(Todo(s.pc)[0]) != [] {
      t := a;
    } else {
      t := PushOne(a);
      CalmJoin(s, a, t);
    }
  }

  /** Everything in the FIFO leaves, and the latch goes up. */
  lemma {:induction false} ShiftAll(s: State) returns (t: State)
    requires Loading(s) && s.dev.tx != []
    ensures CalmlyReaches(s, t) && Loading(t) && t.dev.tx == [] && t.dev.txEmpty && t.pc == s.pc
    decreases |s.dev.tx|
  {
    var a := Apply(s, ShiftOut);
    CalmOne(s, ShiftOut);
    if |s.dev.tx| == 1 {
      t := a;
    } else {
      t := ShiftAll(a);
      CalmJoin(s, a, t);
    }
  }

  /** The device reports an empty FIFO, and then the rest of the data comes in. */
  lemma RunAhead(s: State) returns (t: State)
    requires Loading(s) && !T.CannotRunAhead(s)
    ensures CalmlyReaches(s, t) && Walking(t) && 0 < |t.dev.tx| <= TX_FIFO_SIZE
  {
    var a := s;
    if s.dev.tx == [] {
      a := PushOne(s);
    } else {
      CalmSelf(s);
    }
    var b := ShiftAll(a);
    t := Drain(b);
    ExecAllWrites(b.dev, Todo(b.pc));
    CalmJoin(a, b, t);
    CalmJoin(s, a, t);
  }

  /* ---------------------------------------------------------------- a byte is lost */

  /** The driver takes a FIFO for empty that is not. */
  predicate Misled(s: State) {
    s.pc.AtTx? && s.sleep.None? && s.port.txFifoEmpty && 0 < |s.dev.tx| <= TX_FIFO_SIZE
  }

  lemma Misleads(s: State) returns (t: State)
    requires Loading(s) && !T.CannotRunAhead(s)
    ensures CalmlyReaches(s, t) && Misled(t)
  {
    var a := RunAhead(s);
    t := FlagGoesUp(a);
    CalmJoin(s, a, t);
  }

  lemma {:induction false} FifoIsFull(d: Device, words: seq<Word>)
    requires |d.tx| <= TX_FIFO_SIZE
    ensures |ExecAll(d, words).tx| <= TX_FIFO_SIZE
    decreases |words|
  {
    if words != [] {
      FifoIsFull(Exec(d, words[0]), words[1..]);
    }
  }

  /** A whole FIFO of data does not fit behind what is still there. */
  lemma Overflow(s: State) returns (t: State)
    requires Misled(s)
    ensures CalmlyReaches(s, t) && Missing(t) > Missing(s)
  {
    var a := Apply(s, Queue(seq(TX_FIFO_SIZE, _ => 0)));
    var b := Apply(a, Advance(false));
    DecideFindsNone(a, false);
    StepKeepsShape(a, Advance(false));
    TxProgramMeaning(a.port, a.pending[..TX_FIFO_SIZE], a.dev.regs);
    t := Drain(b);
    FifoIsFull(b.dev, Todo(b.pc));
    CalmAfter(a, Advance(false), t);
    CalmAfter(s, Queue(seq(TX_FIFO_SIZE, _ => 0)), t);
  }

  /* ---------------------------------------------------------------- steps that are not orderly for the data */

  /** What holds of every state that an orderly run reaches. */
  predicate Ground(s: State) {
    T.TxInv(s) && C.RestCoherent(s) && |s.dev.rx| <= RX_FIFO_SIZE
  }

  /** A sleep mode noted while there is data to run ahead of: its word arrives at once. */
  lemma NoteMisleads(s: State, b: Byte, on: bool) returns (t: State)
    requires Ground(s) && Enabled(s, NoteSleep(b, on)) && !T.CannotRunAhead(s)
    ensures CalmlyReaches(Apply(s, NoteSleep(b, on)), t) && Misled(t)
  {
    TxDisableUntouched(s.port.mode1, b);
    var noted := Apply(s, NoteSleep(b, on));
    var a := Apply(noted, SleepWord);
    SleepWordWrites(noted.dev, noted.sleep.value);
    t := Misleads(a);
    CalmAfter(noted, SleepWord, t);
  }

  /** The transmitter switched off while a sleep word is under way: the word arrives, and the driver sends. */
  lemma SwitchMisleads(s: State, txStopped: bool) returns (t: State)
    requires Ground(s) && Enabled(s, Advance(txStopped)) && !T.TxOrderly(s, Advance(txStopped))
    ensures CalmlyReaches(Apply(s, Advance(txStopped)), t) && Misled(t)
  {
    var a := Apply(s, Advance(txStopped));
    var b := Woken(a);
    t := SendMisleads(b);
    CalmJoin(a, b, t);
  }

  /** Flag up, FIFO empty, and the transmitter on. */
  predicate Awoken(s: State) {
    && s.pc.AtTx? && s.sleep.None? && s.port.txFifoEmpty && s.dev.tx == [] && |s.dev.rx| <= RX_FIFO_SIZE
    && !TxDisabled(s.dev.regs.mode1)
  }

  lemma Woken(s: State) returns (t: State)
    requires s.pc.Xfer? && s.pc.job.JTxOff? && s.pc.words == [Wr(MODE1, s.port.mode1)] && s.pc.replies == []
    requires s.sleep.Some? && !TxDisabled(s.sleep.value) && s.dev.tx == [] && |s.dev.rx| <= RX_FIFO_SIZE
    ensures CalmlyReaches(s, t) && Awoken(t)
  {
    DecodeWr(MODE1, s.port.mode1);
    var a := Exchange(s, 0);
    var b := Apply(a, SleepWord);
    SleepWordWrites(a.dev, a.sleep.value);
    t := Apply(b, Advance(false));
    CalmSelf(t);
    CalmAfter(b, Advance(false), t);
    CalmAfter(a, SleepWord, t);
    CalmAfter(s, Reply(0), t);
  }

  lemma SendMisleads(s: State) returns (t: State)
    requires Awoken(s)
    ensures CalmlyReaches(s, t) && Misled(t)
  {
    var a := Apply(s, Queue([0, 0]));
    var n := Take(a.pending);
    var b := Apply(a, Advance(false));
    StepKeepsShape(a, Advance(false));
    TxProgramMeaning(a.port, a.pending[..n], a.dev.regs);
    t := Misleads(b);
    CalmAfter(a, Advance(false), t);
    CalmAfter(s, Queue([0, 0]), t);
  }

  /** After a step that is not orderly for the data the driver can take a FIFO for empty that is not. */
  lemma DisorderMisleads(s: State, e: Event) returns (t: State)
    requires Ground(s) && Enabled(s, e) && !T.TxOrderly(s, e)
    ensures CalmlyReaches(Apply(s, e), t) && Misled(t)
  {
    match e
    case NoteSleep(b, on) => t := NoteMisleads(s, b, on);
    case Advance(txStopped) => t := SwitchMisleads(s, txStopped);
  }

  /** And then a byte can be lost. */
  lemma DisorderLoses(s: State, e: Event) returns (t: State)
    requires Ground(s) && Enabled(s, e) && !T.TxOrderly(s, e)
    ensures CalmlyReaches(Apply(s, e), t) && Lost(t)
  {
    var a := DisorderMisleads(s, e);
    t := Overflow(a);
    StepFindsNone(s, e);
    CalmIsReached(Apply(s, e), a);
    ReachesFindsNone(Apply(s, e), a);
    CalmJoin(Apply(s, e), a, t);
  }

  /* ---------------------------------------------------------------- exactly the orderly runs are secure */

  /** No byte is missing, and tx_fifo_empty is true. */
  predicate Sound(s: State) {
    T.Conserved(s) && (s.port.txFifoEmpty ==> s.dev.tx == [] && T.Coming(s) == [])
  }

  /** If everybody keeps calm from now on, nothing goes wrong any more. */
  ghost predicate Secure(s: State) {
    forall t :: CalmlyReaches(s, t) ==> Sound(t)
  }

  lemma StepKeepsRoom(s: State, e: Event)
    requires Enabled(s, e) && |s.dev.rx| <= RX_FIFO_SIZE
    ensures |Apply(s, e).dev.rx| <= RX_FIFO_SIZE
  {
    match e
    case Advance(txStopped) => DecideKeepsDevice(s, txStopped);
    case _ =>
  }

  lemma DecideKeepsDevice(s: State, txStopped: bool)
    requires Enabled(s, Advance(txStopped))
    ensures Decide(s, txStopped).dev == s.dev
  {
  }

  lemma StepKeepsGround(s: State, e: Event)
    requires Ground(s) && Enabled(s, e) && T.TxOrderly(s, e)
    ensures Ground(Apply(s, e))
  {
    T.StepKeepsTx(s, e);
    C.StepKeepsRest(s, e);
    StepKeepsRoom(s, e);
  }

  lemma {:induction false} CalmKeepsGround(s: State, events: seq<Event>, t: State)
    requires Ground(s) && CalmRun(s, events, t)
    ensures Ground(t)
    decreases |events|
  {
    if events != [] {
      StepKeepsGround(s, events[0]);
      CalmKeepsGround(Apply(s, events[0]), events[1..], t);
    }
  }

  lemma GroundIsSecure(s: State)
    requires Ground(s)
    ensures Secure(s)
  {
    forall t | CalmlyReaches(s, t)
      ensures Sound(t)
    {
      var events :| CalmRun(s, events, t);
      CalmKeepsGround(s, events, t);
    }
  }

  lemma LostIsUnsound(s: State)
    requires Lost(s)
    ensures !Sound(s)
  {
  }

  /** A step keeps everything secure exactly when it is orderly for the data. */
  lemma SecureExactly(s: State, e: Event)
    requires Ground(s) && Enabled(s, e)
    ensures Secure(Apply(s, e)) <==> T.TxOrderly(s, e)
  {
    if T.TxOrderly(s, e) {
      StepKeepsGround(s, e);
      GroundIsSecure(Apply(s, e));
    } else {
      var t := DisorderLoses(s, e);
      LostIsUnsound(t);
    }
  }

  /** Every state of the run is secure. */
  ghost predicate SecureThroughout(s: State, events: seq<Event>)
    decreases |events|
  {
    Secure(s) && (events == [] || (Enabled(s, events[0]) && SecureThroughout(Apply(s, events[0]), events[1..])))
  }

  lemma {:induction false} RunSecureExactly(s: State, events: seq<Event>, s': State)
    requires Ground(s) && Run(s, events, s')
    ensures SecureThroughout(s, events) <==> T.TxOrderlyRun(s, events)
    decreases |events|
  {
    GroundIsSecure(s);
    if events != [] {
      SecureExactly(s, events[0]);
      if T.TxOrderly(s, events[0]) {
        StepKeepsGround(s, events[0]);
        RunSecureExactly(Apply(s, events[0]), events[1..], s');
      }
    }
  }

  /** A run is secure throughout exactly when it is orderly for the data. */
  lemma TransmitExactlyWhenOrderly(s: State, events: seq<Event>, s': State)
    requires Start(s) && Run(s, events, s')
    ensures SecureThroughout(s, events) <==> T.TxOrderlyRun(s, events)
  {
    RunSecureExactly(s, events, s');
  }
}
