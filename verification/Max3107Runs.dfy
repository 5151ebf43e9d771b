/** The size of every transfer. */
module Max3107Runs {
  import opened Max3107Device
  import opened Max3107Programs
  import opened Max3107System
  import C = Max3107Coherence
  import R = Max3107Receive

  /** Each transfer fits the buffer it is built in. */
  predicate Fits(pc: Pc) {
    pc.Xfer? ==>
      match pc.job
      case JRx(_, _) => |pc.words| <= RX_FIFO_SIZE + 2
      case JTx(_) => |pc.words| <= TX_FIFO_SIZE + 3
      case JConfig(_) => |pc.words| <= 5
      case JIrq => |pc.words| <= 8
      case _ => |pc.words| <= 1
  }

  lemma RxBurstFits(s: State, level: nat)
    requires C.RestCoherent(s) && Todo(s.pc) == [] && level <= RX_FIFO_SIZE
    ensures Fits(RxBurst(s, level).pc)
  {
  }

  lemma SendFits(s: State, level: nat, n: nat)
    requires n <= |s.pending| && n <= TX_FIFO_SIZE
    ensures Fits(Send(s, level, n).pc)
  {
  }

  lemma ConfigFits(s: State, level: nat)
    ensures Fits(FromConfig(s, level).pc)
  {
  }

  lemma DecideKeepsFit(s: State, txStopped: bool)
    requires Fits(s.pc) && R.RxInv(s) && C.RestCoherent(s) && Enabled(s, Advance(txStopped))
    ensures Fits(Decide(s, txStopped).pc)
  {
    match s.pc
    case AtRxLoop(level) => RxBurstFits(s, level);
    case AtTx(level) => SendFits(s, level, Take(s.pending));
    case AtConfig(level) => ConfigFits(s, level);
    case _ =>
  }

  lemma {:induction false} RunKeepsFit(s: State, events: seq<Event>, s': State)
    requires Fits(s.pc) && R.RxInv(s) && C.RestCoherent(s) && Run(s, events, s')
    ensures Fits(s'.pc)
    decreases |events|
  {
    if events != [] {
      var e := events[0];
      if e.Advance? {
        DecideKeepsFit(s, e.txStopped);
      }
      R.StepKeepsRx(s, e);
      C.StepKeepsRest(s, e);
      RunKeepsFit(Apply(s, e), events[1..], s');
    }
  }

  /** In every reachable state the transfer under way fits its buffer: the RX FIFO and two words, the TX FIFO and
      three, five words of configuration. */
  lemma TransfersFit(s: State, events: seq<Event>, s': State)
    requires Start(s) && Run(s, events, s')
    ensures Fits(s'.pc)
  {
    RunKeepsFit(s, events, s');
  }
}
