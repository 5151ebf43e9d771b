/** The file-transfer pair as two processes joined by two channels that may lose messages but neither
    duplicate nor reorder them.  Neither side has a timeout, so loss means waiting for ever; the claim is
    safety: whatever is lost, the receiver's file never goes wrong. */
module StopAndWait {
  import opened Frames

  /** What the receiver sends back: acknowledgements and requests for the next frame. */
  datatype Reply = AckMsg(ack: Ack) | NextCmd

  /** The sender: about to send chunk i of frame f, waiting for its acknowledgement, waiting for the
      request for the next frame (ok: udp_send returned 0), or out of frames. */
  datatype Sender = Sending(f: nat, i: nat) | AwaitAck(f: nat, i: nat) | AwaitNext(f: nat, ok: bool) | Finished

  /** The receiver: waiting, having acknowledged a datagram but not yet written it, or about to ask for
      the next frame. */
  datatype Phase = Idle | Writing(msg: Datagram) | Asking

  datatype System = System(
    sender: Sender,
    data: seq<Datagram>,
    back: seq<Reply>,
    phase: Phase,
    received: Received
  )

  datatype Event = Send | TakeReply | LoseData(k: nat) | LoseReply(k: nat) | Take | Write | Ask

  /** What the sender reads when it takes a reply for an acknowledgement.  A request overlays only the
      first field; the rest is whatever the buffer held. */
  ghost predicate ReadsAs(r: Reply, a: Ack) {
    match r
    case AckMsg(ack) => a == ack
    case NextCmd => a.frameNum == NEXT_FRAME_CMD
  }

  ghost predicate InFrames(frames: seq<seq<u8>>, s: System) {
    match s.sender
    case Sending(f, i) => f < |frames| && i <= LastChunk(frames[f])
    case AwaitAck(f, i) => f < |frames| && i <= LastChunk(frames[f])
    case AwaitNext(f, _) => f < |frames|
    case Finished => true
  }

  function BeginFrame(frames: seq<seq<u8>>, f: nat): Sender {
    if f < |frames| then Sending(f, 0) else Finished
  }

  /** One step of either process or of a channel. */
  ghost predicate Step(frames: seq<seq<u8>>, s: System, e: Event, s': System) {
    InFrames(frames, s) &&
    match e
    case Send =>
      && s.sender.Sending?
      && s' == s.(sender := AwaitAck(s.sender.f, s.sender.i), data := s.data + [Chunk(frames[s.sender.f], s.sender.i)])
    case TakeReply =>
      && s.back != []
      && (s.sender.AwaitAck? || s.sender.AwaitNext?)
      && (exists a :: ReadsAs(s.back[0], a) && s' == s.(back := s.back[1..], sender := OnReply(frames, s, a)))
    case LoseData(k) => k < |s.data| && s' == s.(data := s.data[..k] + s.data[k + 1..])
    case LoseReply(k) => k < |s.back| && s' == s.(back := s.back[..k] + s.back[k + 1..])
    case Take =>
      && s.phase.Idle? && s.data != []
      && (var m := s.data[0];
          var frameNum := Counted(s.received, m);
          s' == s.(data := s.data[1..], phase := Writing(m), received := s.received.(frameNum := frameNum),
                   back := s.back + [AckMsg(AckFor(frameNum, m))]))
    case Write =>
      && s.phase.Writing?
      && s' == s.(phase := if LastOf(s.phase.msg) then Asking else Idle,
                  received := s.received.(file := s.received.file + PayloadOf(s.phase.msg)))
    case Ask =>
      && s.phase.Asking?
      && s' == s.(phase := Idle, back := s.back + [NextCmd])
  }

  /** The sender's reaction to a reply read as acknowledgement a. */
  ghost function OnReply(frames: seq<seq<u8>>, s: System, a: Ack): Sender
    requires InFrames(frames, s) && s.back != [] && (s.sender.AwaitAck? || s.sender.AwaitNext?)
  {
    match s.sender
    case AwaitAck(f, i) =>
      if a != AckFor(f + 1, Chunk(frames[f], i)) then AwaitNext(f, false)
      else if i == LastChunk(frames[f]) then AwaitNext(f, true)
      else Sending(f, i + 1)
    case AwaitNext(f, ok) =>
      if a.frameNum == NEXT_FRAME_CMD then BeginFrame(frames, f + 1) else s.sender
  }

  ghost predicate Run(frames: seq<seq<u8>>, s: System, events: seq<Event>, s': System)
    decreases |events|
  {
    if events == [] then s == s'
    else exists t :: Step(frames, s, events[0], t) && Run(frames, t, events[1..], s')
  }

  function Start(frames: seq<seq<u8>>): System {
    System(BeginFrame(frames, 0), [], [], Idle, Received([], 0))
  }

  function Concat(frames: seq<seq<u8>>): seq<u8> {
    if frames == [] then [] else Concat(frames[..|frames| - 1]) + frames[|frames| - 1]
  }

  /** All bytes of the first f frames and of the first i chunks of the next one. */
  function Sofar(frames: seq<seq<u8>>, f: nat, i: nat): seq<u8>
    requires f < |frames|
  {
    Concat(frames[..f]) + FirstChunks(frames[f], i)
  }

  /** The bytes the receiver has acknowledged: its file, and the datagram in its hands. */
  function InHand(s: System): seq<u8> {
    s.received.file + if s.phase.Writing? then PayloadOf(s.phase.msg) else []
  }

  /** No reply is under way and the receiver expects chunk i of frame f; it may still be writing the chunk
      before. */
  ghost predicate Quiet(frames: seq<seq<u8>>, s: System, f: nat, i: nat)
    requires f < |frames| && i <= LastChunk(frames[f])
  {
    && s.back == []
    && (s.phase.Idle? || (s.phase.Writing? && i > 0 && s.phase.msg == Chunk(frames[f], i - 1)))
    && InHand(s) == Sofar(frames, f, i) && s.received.frameNum == if i == 0 then f else f + 1
  }

  /** The receiver has taken chunk i of frame f; on the way back are at most its acknowledgement and,
      after the last chunk has been written, the request for the next frame. */
  ghost predicate TookChunk(frames: seq<seq<u8>>, s: System, f: nat, i: nat, acks: seq<Reply>, asks: seq<Reply>)
    requires f < |frames| && i <= LastChunk(frames[f])
  {
    && s.data == [] && s.back == acks + asks
    && (asks == [] || (asks == [NextCmd] && s.phase.Idle? && i == LastChunk(frames[f])))
    && (match s.phase
        case Writing(m) => m == Chunk(frames[f], i)
        case Asking => i == LastChunk(frames[f])
        case Idle => true)
    && InHand(s) == Sofar(frames, f, i + 1) && s.received.frameNum == f + 1
  }

  ghost function AckOf(frames: seq<seq<u8>>, f: nat, i: nat): Reply
    requires f < |frames| && i <= LastChunk(frames[f])
  {
    AckMsg(AckFor(f + 1, Chunk(frames[f], i)))
  }

  ghost predicate AckMaybe(frames: seq<seq<u8>>, f: nat, i: nat, acks: seq<Reply>)
    requires f < |frames| && i <= LastChunk(frames[f])
  {
    acks == [] || acks == [AckOf(frames, f, i)]
  }

  ghost predicate Inv(frames: seq<seq<u8>>, s: System) {
    && InFrames(frames, s)
    && match s.sender
       case Sending(f, i) => s.data == [] && Quiet(frames, s, f, i)
       case AwaitAck(f, i) =>
         || ((s.data == [] || s.data == [Chunk(frames[f], i)]) && Quiet(frames, s, f, i))
         || (exists acks, asks :: AckMaybe(frames, f, i, acks) && TookChunk(frames, s, f, i, acks, asks))
       case AwaitNext(f, _) => exists asks :: TookChunk(frames, s, f, LastChunk(frames[f]), [], asks)
       case Finished => s.data == [] && s.back == [] && s.phase.Idle? && s.received.file == Concat(frames)
  }

  ghost predicate SmallFrames(frames: seq<seq<u8>>) {
    && |frames| < NEXT_FRAME_CMD
    && forall f :: 0 <= f < |frames| ==> |frames[f]| < MAX_FRAME
  }

  lemma StartInv(frames: seq<seq<u8>>)
    ensures Inv(frames, Start(frames))
  {
  }

  lemma WholeFrame(frames: seq<seq<u8>>, f: nat)
    requires f < |frames|
    ensures Sofar(frames, f, LastChunk(frames[f]) + 1) == Concat(frames[..f + 1])
  {
    ChunkExtends(frames[f], LastChunk(frames[f]));
    assert frames[..f + 1][..f] == frames[..f];
  }

  lemma NextChunk(frames: seq<seq<u8>>, f: nat, i: nat)
    requires f < |frames| && i <= LastChunk(frames[f])
    ensures Sofar(frames, f, i + 1) == Sofar(frames, f, i) + PayloadOf(Chunk(frames[f], i))
    ensures LastOf(Chunk(frames[f], i)) <==> i == LastChunk(frames[f])
  {
  }

  /** After a frame has been taken completely the receiver expects the next one. */
  lemma NextFrame(frames: seq<seq<u8>>, s: System, f: nat)
    requires f < |frames| && TookChunk(frames, s, f, LastChunk(frames[f]), [], [])
    requires s.phase.Idle?
    ensures Inv(frames, s.(sender := BeginFrame(frames, f + 1)))
  {
    WholeFrame(frames, f);
    if f + 1 == |frames| {
      assert frames[..f + 1] == frames;
    }
  }

  lemma SendKeepsInv(frames: seq<seq<u8>>, s: System, s': System)
    requires Inv(frames, s) && Step(frames, s, Send, s')
    ensures Inv(frames, s')
  {
  }

  /** The receiver takes the chunk it expects. */
  lemma TakeTook(frames: seq<seq<u8>>, s: System, f: nat, i: nat, s': System)
    requires SmallFrames(frames) && f < |frames| && i <= LastChunk(frames[f])
    requires Quiet(frames, s, f, i) && s.data == [Chunk(frames[f], i)] && Step(frames, s, Take, s')
    ensures TookChunk(frames, s', f, i, [AckOf(frames, f, i)], []) && s'.sender == s.sender
  {
    ChunkNumber(frames[f], i);
    NextChunk(frames, f, i);
  }

  lemma TakeKeepsInv(frames: seq<seq<u8>>, s: System, s': System)
    requires SmallFrames(frames) && Inv(frames, s) && Step(frames, s, Take, s')
    ensures Inv(frames, s')
  {
    TakeTook(frames, s, s.sender.f, s.sender.i, s');
  }

  lemma WriteKeepsQuiet(frames: seq<seq<u8>>, s: System, f: nat, i: nat, s': System)
    requires f < |frames| && i <= LastChunk(frames[f]) && Quiet(frames, s, f, i) && Step(frames, s, Write, s')
    ensures Quiet(frames, s', f, i) && s'.data == s.data && s'.sender == s.sender
  {
    NextChunk(frames, f, i - 1);
  }

  lemma WriteKeepsTook(frames: seq<seq<u8>>, s: System, f: nat, i: nat, acks: seq<Reply>, asks: seq<Reply>, s': System)
    requires f < |frames| && i <= LastChunk(frames[f]) && TookChunk(frames, s, f, i, acks, asks)
    requires Step(frames, s, Write, s')
    ensures TookChunk(frames, s', f, i, acks, asks) && s'.sender == s.sender
  {
    NextChunk(frames, f, i);
  }

  lemma WriteKeepsInv(frames: seq<seq<u8>>, s: System, s': System)
    requires Inv(frames, s) && Step(frames, s, Write, s')
    ensures Inv(frames, s')
  {
    match s.sender {
      case Sending(f, i) => WriteKeepsQuiet(frames, s, f, i, s');
      case AwaitAck(f, i) =>
        if acks, asks :| AckMaybe(frames, f, i, acks) && TookChunk(frames, s, f, i, acks, asks) {
          WriteKeepsTook(frames, s, f, i, acks, asks, s');
        } else {
          WriteKeepsQuiet(frames, s, f, i, s');
        }
      case AwaitNext(f, _) =>
        var asks :| TookChunk(frames, s, f, LastChunk(frames[f]), [], asks);
        WriteKeepsTook(frames, s, f, LastChunk(frames[f]), [], asks, s');
      case _ =>
    }
  }

  lemma AskKeepsInv(frames: seq<seq<u8>>, s: System, s': System)
    requires Inv(frames, s) && Step(frames, s, Ask, s')
    ensures Inv(frames, s')
  {
    match s.sender {
      case AwaitAck(f, i) =>
        var acks, asks :| AckMaybe(frames, f, i, acks) && TookChunk(frames, s, f, i, acks, asks);
        assert TookChunk(frames, s', f, i, acks, [NextCmd]);
      case AwaitNext(f, _) =>
        var asks :| TookChunk(frames, s, f, LastChunk(frames[f]), [], asks);
        assert TookChunk(frames, s', f, LastChunk(frames[f]), [], [NextCmd]);
      case _ =>
    }
  }

  lemma LoseDataKeepsInv(frames: seq<seq<u8>>, s: System, k: nat, s': System)
    requires Inv(frames, s) && Step(frames, s, LoseData(k), s')
    ensures Inv(frames, s')
  {
  }

  lemma LoseReplyKeepsInv(frames: seq<seq<u8>>, s: System, k: nat, s': System)
    requires Inv(frames, s) && Step(frames, s, LoseReply(k), s')
    ensures Inv(frames, s')
  {
    match s.sender {
      case AwaitAck(f, i) =>
        var acks, asks :| AckMaybe(frames, f, i, acks) && TookChunk(frames, s, f, i, acks, asks);
        if k < |acks| {
          assert TookChunk(frames, s', f, i, [], asks);
        } else {
          assert TookChunk(frames, s', f, i, acks, []);
        }
      case AwaitNext(f, _) =>
        var asks :| TookChunk(frames, s, f, LastChunk(frames[f]), [], asks);
        assert TookChunk(frames, s', f, LastChunk(frames[f]), [], []);
      case _ =>
    }
  }

  lemma TakeReplyKeepsInv(frames: seq<seq<u8>>, s: System, s': System)
    requires SmallFrames(frames) && Inv(frames, s) && Step(frames, s, TakeReply, s')
    ensures Inv(frames, s')
  {
    var a :| ReadsAs(s.back[0], a) && s' == s.(back := s.back[1..], sender := OnReply(frames, s, a));
    match s.sender {
      case AwaitAck(f, i) => ReplyToChunk(frames, s, f, i, a, s');
      case AwaitNext(f, _) =>
        var asks :| TookChunk(frames, s, f, LastChunk(frames[f]), [], asks);
        NextFrame(frames, s.(back := []), f);
      case _ =>
    }
  }

  /** The reply is the acknowledgement that the sender waits for, or the request, its acknowledgement being lost. */
  lemma ReplyToChunk(frames: seq<seq<u8>>, s: System, f: nat, i: nat, a: Ack, s': System)
    requires SmallFrames(frames) && Inv(frames, s) && s.sender == AwaitAck(f, i) && s.back != []
    requires ReadsAs(s.back[0], a) && s' == s.(back := s.back[1..], sender := OnReply(frames, s, a))
    ensures Inv(frames, s')
  {
    var acks, asks :| AckMaybe(frames, f, i, acks) && TookChunk(frames, s, f, i, acks, asks);
    if acks == [] {
      assert a.frameNum == NEXT_FRAME_CMD;
      assert TookChunk(frames, s', f, i, [], []);
    } else {
      assert s.back[1..] == asks;
      AckTaken(frames, s, f, i, asks, s');
    }
  }

  lemma AckTaken(frames: seq<seq<u8>>, s: System, f: nat, i: nat, asks: seq<Reply>, s': System)
    requires f < |frames| && i <= LastChunk(frames[f]) && s.sender == AwaitAck(f, i)
    requires TookChunk(frames, s, f, i, [AckOf(frames, f, i)], asks)
    requires s' == s.(back := asks,
                      sender := if i == LastChunk(frames[f]) then AwaitNext(f, true) else Sending(f, i + 1))
    ensures Inv(frames, s')
  {
    assert TookChunk(frames, s', f, i, [], asks);
  }

  lemma StepKeepsInv(frames: seq<seq<u8>>, s: System, e: Event, s': System)
    requires SmallFrames(frames) && Inv(frames, s) && Step(frames, s, e, s')
    ensures Inv(frames, s')
  {
    match e
    case Send => SendKeepsInv(frames, s, s');
    case TakeReply => TakeReplyKeepsInv(frames, s, s');
    case LoseData(k) => LoseDataKeepsInv(frames, s, k, s');
    case LoseReply(k) => LoseReplyKeepsInv(frames, s, k, s');
    case Take => TakeKeepsInv(frames, s, s');
    case Write => WriteKeepsInv(frames, s, s');
    case Ask => AskKeepsInv(frames, s, s');
  }

  lemma {:induction false} RunKeepsInv(frames: seq<seq<u8>>, s: System, events: seq<Event>, s': System)
    requires SmallFrames(frames) && Inv(frames, s) && Run(frames, s, events, s')
    ensures Inv(frames, s')
    decreases |events|
  {
    if events != [] {
      var t :| Step(frames, s, events[0], t) && Run(frames, t, events[1..], s');
      StepKeepsInv(frames, s, events[0], t);
      RunKeepsInv(frames, t, events[1..], s');
    }
  }

  lemma {:induction false} ConcatPrefix(frames: seq<seq<u8>>, f: nat)
    requires f <= |frames|
    ensures Concat(frames[..f]) <= Concat(frames)
  {
    if f < |frames| {
      var front := frames[..|frames| - 1];
      ConcatPrefix(front, f);
      assert front[..f] == frames[..f];
    } else {
      assert frames[..f] == frames;
    }
  }

  lemma PrefixBehind(a: seq<u8>, b: seq<u8>, c: seq<u8>, whole: seq<u8>)
    requires b <= c && a + c <= whole
    ensures a + b <= whole
  {
  }

  lemma ConcatNext(frames: seq<seq<u8>>, f: nat)
    requires f < |frames|
    ensures Concat(frames[..f + 1]) == Concat(frames[..f]) + frames[f]
  {
    assert frames[..f + 1][..f] == frames[..f];
  }

  lemma SofarPrefix(frames: seq<seq<u8>>, f: nat, i: nat)
    requires f < |frames|
    ensures Sofar(frames, f, i) <= Concat(frames)
  {
    ConcatPrefix(frames, f + 1);
    ConcatNext(frames, f);
    PrefixBehind(Concat(frames[..f]), FirstChunks(frames[f], i), frames[f], Concat(frames));
  }

  lemma InHandIsPrefix(frames: seq<seq<u8>>, s: System)
    requires Inv(frames, s)
    ensures InHand(s) <= Concat(frames)
  {
    match s.sender {
      case Sending(f, i) => SofarPrefix(frames, f, i);
      case AwaitAck(f, i) =>
        SofarPrefix(frames, f, i);
        SofarPrefix(frames, f, i + 1);
      case AwaitNext(f, _) => SofarPrefix(frames, f, LastChunk(frames[f]) + 1);
      case Finished =>
    }
  }

  /** Safety of every run, whatever the channels lose.  The receiver's file is always a prefix of all the
      frames put together.  When udp_send has returned 0 for frame f the receiver has the whole of it, the
      last chunk at least in its hands; and when the sender is through, the file is complete. */
  lemma StopAndWaitIsSafe(frames: seq<seq<u8>>, events: seq<Event>, s: System)
    requires SmallFrames(frames) && Run(frames, Start(frames), events, s)
    ensures s.received.file <= Concat(frames)
    ensures s.sender.AwaitNext? && s.sender.ok ==>
              s.sender.f < |frames| && InHand(s) == Concat(frames[..s.sender.f + 1])
    ensures s.sender.Finished? ==> s.received.file == Concat(frames)
  {
    StartInv(frames);
    RunKeepsInv(frames, Start(frames), events, s);
    InHandIsPrefix(frames, s);
    assert s.received.file <= InHand(s);
    if s.sender.AwaitNext? {
      WholeFrame(frames, s.sender.f);
    }
  }
}
