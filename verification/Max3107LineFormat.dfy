/** What the settings mean to the device: the line format in LCR and the receiver bit of MODE1.  Once it has been
    committed, the device has the format that was asked for last, and receives until stop_rx has been called. */
module Max3107LineFormat {
  import opened Max3107Device
  import opened Max3107Programs
  import opened Max3107Settings
  import opened Max3107System
  import opened Max3107Coherence
  import opened Wrappers

  datatype Parity = NoParity | OddParity | EvenParity
  datatype Format = Format(bits: nat, parity: Parity, stops: nat)

  /** The device's reading of LCR: bits 0 and 1 are the word length less five, bit 2 asks for two stop bits, bit 3
      turns parity on and bit 4 makes it even. */
  function DecodeLcr(v: Byte): Format {
    Format(5 + (v & 0x03) as nat,
           if v & 0x08 == 0 then NoParity else if v & 0x10 == 0 then OddParity else EvenParity,
           if v & 0x04 == 0 then 1 else 2)
  }

  /** What the tty asks for. */
  function Asked(t: Termios): Format {
    Format(if t.sevenBits then 7 else 8,
           if !t.parity then NoParity else if t.odd then OddParity else EvenParity,
           if t.twoStops then 2 else 1)
  }

  /** The LCR value says what the tty asks for, bit by bit, and nothing about forced parity, break and RTS. */
  lemma LcrMeaning(t: Termios)
    ensures DecodeLcr(NewLcr(t)) == Asked(t)
    ensures NewLcr(t) & 0x03 == if t.sevenBits then 0x02 else 0x03
    ensures NewLcr(t) & 0x18 == if !t.parity then 0x00 else if t.odd then 0x08 else 0x18
    ensures NewLcr(t) & 0x04 == if t.twoStops then 0x04 else 0x00
    ensures NewLcr(t) & 0xe0 == 0x00
  {
    var lcr := NewLcr(t);
    assert lcr & 0x03 == 0x02 || lcr & 0x03 == 0x03;
  }

  /* ---------------------------------------------------------------- decisions of the work thread */

  /** The bits of MODE1 that others than the work thread decide about: bit 0 disables the receiver, bit 5 forces sleep,
      and bit 6 lets the chip fall asleep by itself. */
  function Told(mode1: Byte): Byte {
    mode1 & 0x61
  }

  lemma ToldUntouched(v: Byte)
    ensures Told(SetBit(v, MODE1_TXDIS)) == Told(v) && Told(ClearBit(v, MODE1_TXDIS)) == Told(v)
  {
  }

  /** The same settings, the same receiver flag and the same of those bits. */
  predicate Leaves(p: Port, q: Port) {
    q.lcr == p.lcr && q.brg == p.brg && q.rxEnabled == p.rxEnabled && Told(q.mode1) == Told(p.mode1)
  }

  lemma SwitchOffLeaves(s: State, level: nat)
    ensures Leaves(s.port, SwitchOff(s, level).port)
  {
    ToldUntouched(s.port.mode1);
  }

  lemma FinishLeaves(s: State)
    requires Shaped(s.pc) && s.pc.Xfer? && |s.pc.replies| == |s.pc.words|
    ensures Leaves(s.port, Finish(s).port)
  {
    if s.pc.job.JIrq? {
      SwitchOffLeaves(s, ValOf(s.pc.replies[3]) as nat);
    }
  }

  lemma RxLoopLeaves(s: State, level: nat)
    ensures Leaves(s.port, FromRxLoop(s, level).port)
  {
  }

  lemma TxLeaves(s: State, level: nat, txStopped: bool)
    ensures Leaves(s.port, FromTx(s, level, txStopped).port)
  {
    ToldUntouched(s.port.mode1);
  }

  /** The work thread decides neither about the settings nor about receiver and sleep. */
  lemma DecideLeaves(s: State, txStopped: bool)
    requires Enabled(s, Advance(txStopped))
    ensures Leaves(s.port, Decide(s, txStopped).port)
  {
    match s.pc
    case Xfer(_, _, _) => FinishLeaves(s);
    case AtRxLoop(level) => RxLoopLeaves(s, level);
    case AtTx(level) => TxLeaves(s, level, txStopped);
    case _ =>
  }

  /* ---------------------------------------------------------------- the line format */

  /** Only SetTermios changes the settings that the driver wants. */
  lemma StepKeepsSettings(s: State, e: Event)
    requires Enabled(s, e) && !e.SetTermios?
    ensures Apply(s, e).port.lcr == s.port.lcr && Apply(s, e).port.brg == s.port.brg
  {
    if e.Advance? {
      DecideLeaves(s, e.txStopped);
    }
  }

  lemma {:induction false} RunKeepsSettings(s: State, events: seq<Event>, s': State)
    requires Run(s, events, s') && forall i :: 0 <= i < |events| ==> !events[i].SetTermios?
    ensures s'.port.lcr == s.port.lcr && s'.port.brg == s.port.brg
    decreases |events|
  {
    if events != [] {
      StepKeepsSettings(s, events[0]);
      RunKeepsSettings(Apply(s, events[0]), events[1..], s');
    }
  }

  /** Between transfers, and with the commit flags down, the device has the line format and the generator setting of the
      last SetTermios, whatever happened before and since. */
  lemma FormatArrives(s: State, before: seq<Event>, m: State, t: Termios, brg: Brg, after: seq<Event>, s': State)
    requires Start(s) && Run(s, before, m) && Enabled(m, SetTermios(NewLcr(t), brg))
    requires Run(Apply(m, SetTermios(NewLcr(t), brg)), after, s')
    requires forall i :: 0 <= i < |after| ==> !after[i].SetTermios?
    requires Todo(s'.pc) == []
    ensures !s'.port.lcrCommit ==> DecodeLcr(s'.dev.regs.lcr) == Asked(t) && s'.dev.regs.lcr & 0xe0 == 0
    ensures !s'.port.brgCommit ==>
              s'.dev.regs.brgMsb == brg.msb && s'.dev.regs.brgLsb == brg.lsb && s'.dev.regs.brgCfg == brg.cfg
  {
    var n := Apply(m, SetTermios(NewLcr(t), brg));
    StartCoherent(s);
    RunKeepsRest(s, before, m);
    StepKeepsRest(m, SetTermios(NewLcr(t), brg));
    RunKeepsRest(n, after, s');
    RunKeepsSettings(n, after, s');
    LcrMeaning(t);
  }

  /** The configuration part of the work function takes all three flags down, and sends what they stood for. */
  lemma CommitWritesAll(s: State, txStopped: bool)
    requires RestCoherent(s) && s.pc.AtConfig? && Enabled(s, Advance(txStopped))
    ensures var t := Apply(s, Advance(txStopped));
            && !t.port.mode1Commit && !t.port.lcrCommit && !t.port.brgCommit
            && t.port.mode1 == s.port.mode1 && t.port.lcr == s.port.lcr && t.port.brg == s.port.brg
            && Coming(t).lcr == s.port.lcr && Brg(Coming(t).brgMsb, Coming(t).brgLsb, Coming(t).brgCfg) == s.port.brg
            && (s.port.mode1Commit ==> Coming(t).mode1 == s.port.mode1)
  {
    ConfigComing(s, s.pc.level);
  }

  /* ---------------------------------------------------------------- the receiver */

  predicate RxBit(mode1: Byte) {
    mode1 & 0x01 == 0x01
  }

  /** What the bits are worth one by one. */
  lemma ToldBits(v: Byte, w: Byte)
    requires Told(v) == Told(w)
    ensures RxBit(v) == RxBit(w) && v & 0x20 == w & 0x20 && v & 0x40 == w & 0x40
  {
  }

  lemma RxBitUntouched(v: Byte, b: Byte)
    requires SleepBit(b)
    ensures RxBit(SetBit(v, b)) == RxBit(v) && RxBit(ClearBit(v, b)) == RxBit(v)
  {
  }

  /** The receiver bit of the shadow is up exactly when receiving is disabled. */
  predicate RxBitTold(s: State) {
    RxBit(s.port.mode1) <==> !s.port.rxEnabled
  }

  lemma StepTellsRx(s: State, e: Event)
    requires RxBitTold(s) && Enabled(s, e)
    ensures RxBitTold(Apply(s, e)) && (!Apply(s, e).port.rxEnabled <==> !s.port.rxEnabled || e.StopRx?)
  {
    match e
    case Advance(txStopped) =>
      DecideLeaves(s, txStopped);
      ToldBits(s.port.mode1, Decide(s, txStopped).port.mode1);
    case NoteSleep(b, on) => RxBitUntouched(s.port.mode1, b);
    case _ =>
  }

  lemma {:induction false} RunTellsRx(s: State, events: seq<Event>, s': State)
    requires RxBitTold(s) && Run(s, events, s')
    ensures RxBitTold(s') && (!s'.port.rxEnabled <==> !s.port.rxEnabled || StopRx in events)
    decreases |events|
  {
    if events != [] {
      StepTellsRx(s, events[0]);
      RunTellsRx(Apply(s, events[0]), events[1..], s');
      assert events == [events[0]] + events[1..];
    }
  }

  /** After an orderly run from the initialised registers, with everything committed, the device's receiver is disabled
      (bit 0 of MODE1) exactly when stop_rx has been called. */
  lemma StopRxArrives(s: State, events: seq<Event>, s': State)
    requires Start(s) && s.port.mode1 == 0x82 && Run(s, events, s')
    ensures !s'.port.rxEnabled <==> StopRx in events
    ensures OrderlyRun(s, events) && s'.sleep.None? && Todo(s'.pc) == [] && !s'.port.mode1Commit ==>
              (s'.dev.regs.mode1 & 0x01 == 0x01 <==> StopRx in events)
  {
    RunTellsRx(s, events, s');
    ShadowsAreCoherent(s, events, s');
  }

  /* ---------------------------------------------------------------- sleep */

  /** Bit 5 of MODE1 forces sleep, bit 6 is automatic sleep. */
  function ModeBit(forced: bool): (b: Byte)
    ensures SleepBit(b)
  {
    if forced then 0x20 else 0x40
  }

  lemma Toggled(v: Byte, forced: bool, on: bool)
    ensures ToggleBit(v, ModeBit(forced), on) & (if forced then 0x20 else 0x40)
         == if !on then 0x00 else if forced then 0x20 else 0x40
  {
  }

  lemma OthersUntouched(v: Byte, forced: bool, on: bool)
    ensures ToggleBit(v, ModeBit(!forced), on) & ModeBit(forced) == v & ModeBit(forced)
    ensures SetBit(v, MODE1_RXDIS) & ModeBit(forced) == v & ModeBit(forced)
  {
  }

  lemma StepKeepsSleep(s: State, e: Event, forced: bool)
    requires Enabled(s, e) && !(e.NoteSleep? && e.bit == ModeBit(forced))
    ensures Apply(s, e).port.mode1 & ModeBit(forced) == s.port.mode1 & ModeBit(forced)
  {
    match e
    case Advance(txStopped) =>
      DecideLeaves(s, txStopped);
      ToldBits(s.port.mode1, Decide(s, txStopped).port.mode1);
    case NoteSleep(b, on) => OthersUntouched(s.port.mode1, forced, on);
    case StopRx => OthersUntouched(s.port.mode1, forced, true);
    case _ =>
  }

  lemma {:induction false} RunKeepsSleep(s: State, events: seq<Event>, s': State, forced: bool)
    requires Run(s, events, s')
    requires forall i :: 0 <= i < |events| && events[i].NoteSleep? ==> events[i].bit != ModeBit(forced)
    ensures s'.port.mode1 & ModeBit(forced) == s.port.mode1 & ModeBit(forced)
    decreases |events|
  {
    if events != [] {
      StepKeepsSleep(s, events[0], forced);
      RunKeepsSleep(Apply(s, events[0]), events[1..], s', forced);
    }
  }

  /** After an orderly run, between transfers and with no word under way, the device is in the sleep mode that was asked
      for last. */
  lemma SleepArrives(s: State, before: seq<Event>, m: State, forced: bool, on: bool, after: seq<Event>, s': State)
    requires Start(s) && Run(s, before, m) && OrderlyRun(s, before)
    requires Enabled(m, NoteSleep(if forced then 0x20 else 0x40, on))
    requires Orderly(m, NoteSleep(if forced then 0x20 else 0x40, on))
    requires var n := Apply(m, NoteSleep(if forced then 0x20 else 0x40, on));
             Run(n, after, s') && OrderlyRun(n, after)
    requires forall i :: 0 <= i < |after| && after[i].NoteSleep? ==> after[i].bit != if forced then 0x20 else 0x40
    requires s'.sleep.None? && Todo(s'.pc) == [] && !s'.port.mode1Commit
    ensures s'.dev.regs.mode1 & (if forced then 0x20 else 0x40)
         == if !on then 0x00 else if forced then 0x20 else 0x40
  {
    var bit := ModeBit(forced);
    var n := Apply(m, NoteSleep(bit, on));
    StartCoherent(s);
    RunCoherentExactly(s, before, m);
    StepCoherentExactly(m, NoteSleep(bit, on));
    RunCoherentExactly(n, after, s');
    Toggled(m.port.mode1, forced, on);
    RunKeepsSleep(n, after, s', forced);
  }
}
