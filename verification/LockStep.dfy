/** The second file-transfer pair: data over one channel, acknowledgements, requests and end-of-frame
    commands over another, both lossless.  Server and client move in lock step, as long as no frame hits
    one of two gaps in the protocol; and if one does, the pair can get stuck. */
module LockStep {
  import opened Frames
  import SW = StopAndWait

  const END_OF_FILE_MARK: nat := 0xffff_0001

  datatype Cmd = Next | AckMsg(ack: Ack) | End

  datatype Server = Waiting(f: nat) | Sending(f: nat, i: nat) | AwaitAck(f: nat, i: nat) | Ending(f: nat) | Done

  datatype Client = WaitData | Writing(msg: Datagram) | WaitEnd | AskNext | Stopped

  datatype System = System(
    server: Server,
    data: seq<Datagram>,
    toServer: seq<Cmd>,
    toClient: seq<Cmd>,
    client: Client,
    received: Received
  )

  /** One event per step; SSend's flag is the value an uninitialised result happens to have. */
  datatype Event = SGetCmd | SSend(junk: bool) | SAck | SEnd | CTake | CWrite | CEnd | CAsk

  /** The first four bytes of a datagram, low byte first, in a zeroed buffer. */
  function FirstWord(m: Datagram): nat {
    m[0] as int + 0x100 * m[1] as int + 0x1_0000 * m[2] as int + 0x100_0000 * (if |m| > 3 then m[3] as int else 0)
  }

  /** The client takes such a datagram for the end of the whole stream. */
  predicate LooksLikeEnd(m: Datagram) {
    FirstWord(m) == END_OF_FILE_MARK
  }

  /** The server's chunk loop stops without sending when exactly 1024 bytes are left. */
  predicate StopsShort(frame: seq<u8>, i: nat) {
    |frame| - i * MAX_BUF_SIZE == MAX_BUF_SIZE
  }

  function AfterFrame(frames: seq<seq<u8>>, f: nat): Server {
    if f + 1 < |frames| then Waiting(f + 1) else Done
  }

  predicate InFrames(frames: seq<seq<u8>>, s: System) {
    match s.server
    case Waiting(f) => f < |frames|
    case Sending(f, i) => f < |frames| && i <= LastChunk(frames[f])
    case AwaitAck(f, i) => f < |frames| && i <= LastChunk(frames[f])
    case Ending(f) => f < |frames|
    case Done => true
  }

  predicate Enabled(frames: seq<seq<u8>>, s: System, e: Event) {
    InFrames(frames, s) &&
    match e
    case SGetCmd => s.server.Waiting? && s.toServer != []
    case SSend(_) => s.server.Sending?
    case SAck => s.server.AwaitAck? && s.toServer != []
    case SEnd => s.server.Ending?
    case CTake => s.client.WaitData? && s.data != []
    case CWrite => s.client.Writing?
    case CEnd => s.client.WaitEnd? && s.toClient != []
    case CAsk => s.client.AskNext?
  }

  function Apply(frames: seq<seq<u8>>, s: System, e: Event): System
    requires Enabled(frames, s, e)
  {
    match e
    case SGetCmd =>
      s.(toServer := s.toServer[1..], server := if s.toServer[0] == Next then Sending(s.server.f, 0) else s.server)
    case SSend(junk) =>
      var f, i := s.server.f, s.server.i;
      if StopsShort(frames[f], i) then s.(server := if i > 0 || junk then Ending(f) else AfterFrame(frames, f))
      else s.(server := AwaitAck(f, i), data := s.data + [Chunk(frames[f], i)])
    case SAck =>
      var f, i := s.server.f, s.server.i;
      s.(toServer := s.toServer[1..],
         server := if s.toServer[0] != AckMsg(AckFor(f + 1, Chunk(frames[f], i))) then AfterFrame(frames, f)
                   else if i == LastChunk(frames[f]) then Ending(f) else Sending(f, i + 1))
    case SEnd =>
      s.(server := AfterFrame(frames, s.server.f), toClient := s.toClient + [End])
    case CTake =>
      var m := s.data[0];
      if LooksLikeEnd(m) then s.(data := s.data[1..], client := Stopped)
      else
        var frameNum := Counted(s.received, m);
        s.(data := s.data[1..], client := Writing(m), received := s.received.(frameNum := frameNum),
           toServer := s.toServer + [AckMsg(AckFor(frameNum, m))])
    case CWrite =>
      s.(client := if LastOf(s.client.msg) then WaitEnd else WaitData,
         received := s.received.(file := s.received.file + PayloadOf(s.client.msg)))
    case CEnd =>
      s.(toClient := s.toClient[1..], client := if s.toClient[0] == End then AskNext else WaitEnd)
    case CAsk =>
      s.(toServer := s.toServer + [Next], client := WaitData)
  }

  predicate Run(frames: seq<seq<u8>>, s: System, events: seq<Event>, s': System)
    decreases |events|
  {
    if events == [] then s == s'
    else Enabled(frames, s, events[0]) && Run(frames, Apply(frames, s, events[0]), events[1..], s')
  }

  /** The client has just asked for frame f and nothing else is under way. */
  function Boundary(frames: seq<seq<u8>>, f: nat): System
    requires f < |frames|
  {
    System(Waiting(f), [], [Next], [], WaitData, Received(SW.Concat(frames[..f]), f))
  }

  function Start(frames: seq<seq<u8>>): System
    requires frames != []
  {
    Boundary(frames, 0)
  }

  ghost predicate Reachable(frames: seq<seq<u8>>, s: System)
    requires frames != []
  {
    exists events :: Run(frames, Start(frames), events, s)
  }

  /** Nobody can move any more, but the server has frames left or the client's file is incomplete. */
  ghost predicate HaltedShort(frames: seq<seq<u8>>, s: System) {
    && (forall e :: !Enabled(frames, s, e))
    && !(s.server == Done && s.received.file == SW.Concat(frames))
  }

  /** A frame the protocol carries: not a positive multiple of 1024 long, and not of two chunks the second
      of which starts with 0xff. */
  predicate Carried(frame: seq<u8>) {
    && (|frame| > 0 ==> |frame| % MAX_BUF_SIZE != 0)
    && !(MAX_BUF_SIZE < |frame| < 2 * MAX_BUF_SIZE && frame[MAX_BUF_SIZE] == 0xff)
  }

  ghost predicate SmallFrames(frames: seq<seq<u8>>) {
    frames != [] && forall f :: 0 <= f < |frames| ==> |frames[f]| < MAX_FRAME
  }

  ghost predicate AllCarried(frames: seq<seq<u8>>) {
    SmallFrames(frames) && forall f :: 0 <= f < |frames| ==> Carried(frames[f])
  }

  /** A chunk looks like the end of the stream only as the second and last chunk starting with 0xff. */
  lemma EndLookalike(frame: seq<u8>, i: nat)
    requires |frame| < MAX_FRAME && i <= LastChunk(frame)
    ensures LooksLikeEnd(Chunk(frame, i)) <==>
              i == 1 && MAX_BUF_SIZE < |frame| < 2 * MAX_BUF_SIZE && frame[MAX_BUF_SIZE] == 0xff
  {
  }

  /** A frame that is a positive multiple of 1024 long stops short at the chunk before the last. */
  lemma StopsShortAt(frame: seq<u8>, i: nat)
    requires i <= LastChunk(frame)
    ensures StopsShort(frame, i) <==> |frame| > 0 && |frame| % MAX_BUF_SIZE == 0 && i == LastChunk(frame) - 1
  {
  }

  /* ---------------------------------------------------------------- the invariant of carried frames */

  function InHand(s: System): seq<u8> {
    s.received.file + if s.client.Writing? then PayloadOf(s.client.msg) else []
  }

  /** The client has everything before chunk i of frame f, and is ready for it or still writing the chunk
      before. */
  ghost predicate Ready(frames: seq<seq<u8>>, s: System, f: nat, i: nat)
    requires f < |frames| && i <= LastChunk(frames[f])
  {
    && (s.client.WaitData? || (s.client.Writing? && i > 0 && s.client.msg == Chunk(frames[f], i - 1)))
    && InHand(s) == SW.Sofar(frames, f, i) && s.received.frameNum == if i == 0 then f else f + 1
  }

  /** The client has taken chunk i of frame f and is writing it or through with it. */
  ghost predicate Took(frames: seq<seq<u8>>, s: System, f: nat, i: nat)
    requires f < |frames| && i <= LastChunk(frames[f])
  {
    && (|| (s.client.Writing? && s.client.msg == Chunk(frames[f], i))
        || (if i == LastChunk(frames[f]) then s.client.WaitEnd? else s.client.WaitData?))
    && InHand(s) == SW.Sofar(frames, f, i + 1) && s.received.frameNum == f + 1
  }

  /** Between frames: f frames have been acknowledged, and the client has yet to see the end command, or
      to ask, or has asked. */
  ghost predicate Between(frames: seq<seq<u8>>, s: System, f: nat)
    requires f <= |frames|
  {
    && s.data == []
    && (|| (s.toServer == [] && s.toClient == [End] && f > 0 && Took(frames, s, f - 1, LastChunk(frames[f - 1])))
        || (s.toServer == [] && s.toClient == [] && s.client.AskNext?)
        || (s.toServer == [Next] && s.toClient == [] && s.client.WaitData?))
    && InHand(s) == SW.Concat(frames[..f]) && s.received.frameNum == f
  }

  ghost predicate Inv(frames: seq<seq<u8>>, s: System) {
    && InFrames(frames, s)
    && match s.server
       case Waiting(f) => Between(frames, s, f)
       case Sending(f, i) => s.data == [] && s.toServer == [] && s.toClient == [] && Ready(frames, s, f, i)
       case AwaitAck(f, i) =>
         && s.toClient == []
         && (|| (s.data == [Chunk(frames[f], i)] && s.toServer == [] && Ready(frames, s, f, i))
             || (s.data == [] && s.toServer == [AckMsg(AckFor(f + 1, Chunk(frames[f], i)))] && Took(frames, s, f, i)))
       case Ending(f) =>
         s.data == [] && s.toServer == [] && s.toClient == [] && Took(frames, s, f, LastChunk(frames[f]))
       case Done => Between(frames, s, |frames|)
  }

  lemma StartInv(frames: seq<seq<u8>>)
    requires frames != []
    ensures Inv(frames, Start(frames))
  {
  }

  lemma ServerBegins(frames: seq<seq<u8>>, s: System)
    requires AllCarried(frames) && Inv(frames, s) && Enabled(frames, s, SGetCmd)
    ensures Inv(frames, Apply(frames, s, SGetCmd))
  {
    assert SW.Sofar(frames, s.server.f, 0) == SW.Concat(frames[..s.server.f]);
  }

  lemma ServerSends(frames: seq<seq<u8>>, s: System, junk: bool)
    requires AllCarried(frames) && Inv(frames, s) && Enabled(frames, s, SSend(junk))
    ensures Inv(frames, Apply(frames, s, SSend(junk)))
  {
    StopsShortAt(frames[s.server.f], s.server.i);
  }

  lemma ServerIsAnswered(frames: seq<seq<u8>>, s: System)
    requires AllCarried(frames) && Inv(frames, s) && Enabled(frames, s, SAck)
    ensures Inv(frames, Apply(frames, s, SAck))
  {
  }

  lemma ServerEnds(frames: seq<seq<u8>>, s: System)
    requires AllCarried(frames) && Inv(frames, s) && Enabled(frames, s, SEnd)
    ensures Inv(frames, Apply(frames, s, SEnd))
  {
    SW.WholeFrame(frames, s.server.f);
    assert frames[..|frames|] == frames;
  }

  lemma ServerStepKeepsInv(frames: seq<seq<u8>>, s: System, e: Event)
    requires AllCarried(frames) && Inv(frames, s) && Enabled(frames, s, e)
    requires e.SGetCmd? || e.SSend? || e.SAck? || e.SEnd?
    ensures Inv(frames, Apply(frames, s, e))
  {
    match e {
      case SGetCmd => ServerBegins(frames, s);
      case SSend(junk) => ServerSends(frames, s, junk);
      case SAck => ServerIsAnswered(frames, s);
      case SEnd => ServerEnds(frames, s);
    }
  }

  lemma ClientStepKeepsInv(frames: seq<seq<u8>>, s: System, e: Event)
    requires AllCarried(frames) && Inv(frames, s) && Enabled(frames, s, e)
    requires e.CTake? || e.CWrite? || e.CEnd? || e.CAsk?
    ensures Inv(frames, Apply(frames, s, e))
  {
    match s.server {
      case Waiting(f) => ClientBetween(frames, s, f, e);
      case Done => ClientBetween(frames, s, |frames|, e);
      case Sending(f, i) => ClientWritesBefore(frames, s, f, i);
      case AwaitAck(f, i) =>
        if e == CTake {
          EndLookalike(frames[f], i);
          ClientTakes(frames, s, f, i);
        } else if s.data == [] {
          ClientWrites(frames, s, f, i);
        } else {
          ClientWritesBefore(frames, s, f, i);
        }
      case Ending(f) => ClientWrites(frames, s, f, LastChunk(frames[f]));
    }
  }

  lemma ClientTakes(frames: seq<seq<u8>>, s: System, f: nat, i: nat)
    requires f < |frames| && |frames[f]| < MAX_FRAME && i <= LastChunk(frames[f])
    requires !LooksLikeEnd(Chunk(frames[f], i))
    requires s.client.WaitData? && s.data == [Chunk(frames[f], i)] && Ready(frames, s, f, i)
    requires InFrames(frames, s)
    ensures var s' := Apply(frames, s, CTake);
            && Took(frames, s', f, i)
            && s' == s.(data := [], client := Writing(Chunk(frames[f], i)), received := s'.received,
                        toServer := s.toServer + [AckMsg(AckFor(f + 1, Chunk(frames[f], i)))])
  {
    SW.NextChunk(frames, f, i);
    ChunkNumber(frames[f], i);
  }

  lemma ClientWrites(frames: seq<seq<u8>>, s: System, f: nat, i: nat)
    requires f < |frames| && i <= LastChunk(frames[f])
    requires s.client.Writing? && Took(frames, s, f, i) && InFrames(frames, s)
    ensures var s' := Apply(frames, s, CWrite);
            Took(frames, s', f, i) && s' == s.(client := s'.client, received := s'.received)
  {
  }

  lemma ClientWritesBefore(frames: seq<seq<u8>>, s: System, f: nat, i: nat)
    requires f < |frames| && i <= LastChunk(frames[f])
    requires s.client.Writing? && Ready(frames, s, f, i) && InFrames(frames, s)
    ensures var s' := Apply(frames, s, CWrite);
            Ready(frames, s', f, i) && s' == s.(client := s'.client, received := s'.received)
  {
  }

  lemma ClientBetween(frames: seq<seq<u8>>, s: System, f: nat, e: Event)
    requires f <= |frames| && Between(frames, s, f) && Enabled(frames, s, e)
    requires e.CTake? || e.CWrite? || e.CEnd? || e.CAsk?
    ensures Between(frames, Apply(frames, s, e), f)
  {
  }

  lemma StepKeepsInv(frames: seq<seq<u8>>, s: System, e: Event)
    requires AllCarried(frames) && Inv(frames, s) && Enabled(frames, s, e)
    ensures Inv(frames, Apply(frames, s, e))
  {
    if e.SGetCmd? || e.SSend? || e.SAck? || e.SEnd? {
      ServerStepKeepsInv(frames, s, e);
    } else {
      ClientStepKeepsInv(frames, s, e);
    }
  }

  lemma {:induction false} RunKeepsInv(frames: seq<seq<u8>>, s: System, events: seq<Event>, s': System)
    requires AllCarried(frames) && Inv(frames, s) && Run(frames, s, events, s')
    ensures Inv(frames, s')
    decreases |events|
  {
    if events != [] {
      StepKeepsInv(frames, s, events[0]);
      RunKeepsInv(frames, Apply(frames, s, events[0]), events[1..], s');
    }
  }

  /** Somebody can move until the server is through. */
  lemma Progress(frames: seq<seq<u8>>, s: System) returns (e: Event)
    requires Inv(frames, s) && s.server != Done
    ensures Enabled(frames, s, e)
  {
    if s.client.Writing? {
      e := CWrite;
    } else if s.client.AskNext? {
      e := CAsk;
    } else {
      match s.server {
        case Waiting(_) => e := if s.toServer != [] then SGetCmd else CEnd;
        case Sending(_, _) => e := SSend(false);
        case AwaitAck(_, _) => e := if s.data != [] then CTake else SAck;
        case Ending(_) => e := SEnd;
      }
    }
  }

  /* ---------------------------------------------------------------- every run ends */

  /** Chunks and frame ends still to go through, from frame f on. */
  function Remaining(frames: seq<seq<u8>>, f: nat): nat
    decreases |frames| - f
  {
    if f >= |frames| then 0 else LastChunk(frames[f]) + 2 + Remaining(frames, f + 1)
  }

  function ServerRank(frames: seq<seq<u8>>, server: Server): int {
    match server
    case Waiting(f) => 10 * Remaining(frames, f) + 6
    case Sending(f, i) => 10 * (Remaining(frames, f) - i) + 5
    case AwaitAck(f, i) => 10 * (Remaining(frames, f) - i)
    case Ending(f) => 10 * (Remaining(frames, f + 1) + 1)
    case Done => 0
  }

  function ClientRank(client: Client): nat {
    match client
    case Writing(_) => 1
    case AskNext => 2
    case _ => 0
  }

  function Rank(frames: seq<seq<u8>>, s: System): int {
    ServerRank(frames, s.server) + 4 * |s.data| + |s.toServer| + 3 * |s.toClient| + ClientRank(s.client)
  }

  lemma ClientRankFalls(frames: seq<seq<u8>>, s: System, e: Event)
    requires AllCarried(frames) && Inv(frames, s) && Enabled(frames, s, e)
    requires e.CTake? || e.CWrite? || e.CEnd? || e.CAsk?
    ensures Rank(frames, Apply(frames, s, e)) < Rank(frames, s)
  {
  }

  lemma SendRankFalls(frames: seq<seq<u8>>, s: System, junk: bool)
    requires AllCarried(frames) && Inv(frames, s) && Enabled(frames, s, SSend(junk))
    ensures Rank(frames, Apply(frames, s, SSend(junk))) < Rank(frames, s)
  {
    StopsShortAt(frames[s.server.f], s.server.i);
  }

  lemma ServerRankFalls(frames: seq<seq<u8>>, s: System, e: Event)
    requires AllCarried(frames) && Inv(frames, s) && Enabled(frames, s, e)
    requires e.SGetCmd? || e.SAck? || e.SEnd?
    ensures Rank(frames, Apply(frames, s, e)) < Rank(frames, s)
  {
    if e.SAck? {
      var f := s.server.f;
      assert Remaining(frames, f) == LastChunk(frames[f]) + 2 + Remaining(frames, f + 1);
    }
  }

  lemma RankFalls(frames: seq<seq<u8>>, s: System, e: Event)
    requires AllCarried(frames) && Inv(frames, s) && Enabled(frames, s, e)
    ensures 0 <= Rank(frames, Apply(frames, s, e)) < Rank(frames, s)
  {
    StepKeepsInv(frames, s, e);
    RankNonNegative(frames, Apply(frames, s, e));
    match e
    case SSend(junk) => SendRankFalls(frames, s, junk);
    case SGetCmd => ServerRankFalls(frames, s, e);
    case SAck => ServerRankFalls(frames, s, e);
    case SEnd => ServerRankFalls(frames, s, e);
    case _ => ClientRankFalls(frames, s, e);
  }

  lemma RankNonNegative(frames: seq<seq<u8>>, s: System)
    requires InFrames(frames, s)
    ensures 0 <= Rank(frames, s)
  {
  }

  lemma {:induction false} RunsAreBounded(frames: seq<seq<u8>>, s: System, events: seq<Event>, s': System)
    requires AllCarried(frames) && Inv(frames, s) && Run(frames, s, events, s')
    ensures |events| <= Rank(frames, s)
    decreases |events|
  {
    if events == [] {
      RankNonNegative(frames, s);
    } else {
      RankFalls(frames, s, events[0]);
      StepKeepsInv(frames, s, events[0]);
      RunsAreBounded(frames, Apply(frames, s, events[0]), events[1..], s');
    }
  }

  /* ---------------------------------------------------------------- what happens to the other frames */

  ghost predicate Reaches(frames: seq<seq<u8>>, s: System, t: System) {
    exists events :: Run(frames, s, events, t)
  }

  lemma {:induction false} RunJoin(frames: seq<seq<u8>>, s: System, e1: seq<Event>, t: System,
                                   e2: seq<Event>, u: System)
    requires Run(frames, s, e1, t) && Run(frames, t, e2, u)
    ensures Run(frames, s, e1 + e2, u)
    decreases |e1|
  {
    if e1 == [] {
      assert e1 + e2 == e2;
    } else {
      RunJoin(frames, Apply(frames, s, e1[0]), e1[1..], t, e2, u);
      assert (e1 + e2)[1..] == e1[1..] + e2;
    }
  }

  lemma ReachesJoin(frames: seq<seq<u8>>, s: System, t: System, u: System)
    requires Reaches(frames, s, t) && Reaches(frames, t, u)
    ensures Reaches(frames, s, u)
  {
    var e1 :| Run(frames, s, e1, t);
    var e2 :| Run(frames, t, e2, u);
    RunJoin(frames, s, e1, t, e2, u);
  }

  lemma ReachesStep(frames: seq<seq<u8>>, s: System, t: System, e: Event)
    requires Reaches(frames, s, t) && Enabled(frames, t, e)
    ensures Reaches(frames, s, Apply(frames, t, e))
  {
    var u := Apply(frames, t, e);
    assert Run(frames, u, [], u);
    assert [e][1..] == [];
    assert Run(frames, t, [e], u);
    ReachesJoin(frames, s, t, u);
  }

  lemma ReachesSelf(frames: seq<seq<u8>>, s: System)
    ensures Reaches(frames, s, s)
  {
    assert Run(frames, s, [], s);
  }

  /** The server is about to send chunk i of frame f and the client is ready for it. */
  function AtChunk(frames: seq<seq<u8>>, f: nat, i: nat): System
    requires f < |frames|
  {
    System(Sending(f, i), [], [], [], WaitData, Received(SW.Sofar(frames, f, i), if i == 0 then f else f + 1))
  }

  /** An ordinary chunk goes through as far as the client's writing it. */
  function AfterWrite(frames: seq<seq<u8>>, f: nat, i: nat): System
    requires f < |frames| && i <= LastChunk(frames[f])
  {
    System(AwaitAck(f, i), [], [AckMsg(AckFor(f + 1, Chunk(frames[f], i)))], [],
           if i == LastChunk(frames[f]) then WaitEnd else WaitData,
           Received(SW.Sofar(frames, f, i + 1), f + 1))
  }

  lemma ChunkGoes(frames: seq<seq<u8>>, f: nat, i: nat)
    requires SmallFrames(frames) && f < |frames| && i <= LastChunk(frames[f])
    requires !StopsShort(frames[f], i) && !LooksLikeEnd(Chunk(frames[f], i))
    ensures Reaches(frames, AtChunk(frames, f, i), AfterWrite(frames, f, i))
  {
    var s := AtChunk(frames, f, i);
    ReachesSelf(frames, s);
    ReachesStep(frames, s, s, SSend(false));
    var s1 := Apply(frames, s, SSend(false));
    ReachesStep(frames, s, s1, CTake);
    ClientTakes(frames, s1, f, i);
    var s2 := Apply(frames, s1, CTake);
    ReachesStep(frames, s, s2, CWrite);
    SW.NextChunk(frames, f, i);
    assert Apply(frames, s2, CWrite) == AfterWrite(frames, f, i);
  }

  lemma ChunkThenNext(frames: seq<seq<u8>>, f: nat, i: nat)
    requires SmallFrames(frames) && f < |frames| && i < LastChunk(frames[f])
    requires !StopsShort(frames[f], i) && !LooksLikeEnd(Chunk(frames[f], i))
    ensures Reaches(frames, AtChunk(frames, f, i), AtChunk(frames, f, i + 1))
  {
    ChunkGoes(frames, f, i);
    ReachesStep(frames, AtChunk(frames, f, i), AfterWrite(frames, f, i), SAck);
    assert Apply(frames, AfterWrite(frames, f, i), SAck) == AtChunk(frames, f, i + 1);
  }

  lemma LastThenNext(frames: seq<seq<u8>>, f: nat)
    requires SmallFrames(frames) && f + 1 < |frames|
    requires var i := LastChunk(frames[f]); !StopsShort(frames[f], i) && !LooksLikeEnd(Chunk(frames[f], i))
    ensures Reaches(frames, AtChunk(frames, f, LastChunk(frames[f])), Boundary(frames, f + 1))
  {
    var s := AtChunk(frames, f, LastChunk(frames[f]));
    ChunkGoes(frames, f, LastChunk(frames[f]));
    var s1 := AfterWrite(frames, f, LastChunk(frames[f]));
    ReachesStep(frames, s, s1, SAck);
    var s2 := Apply(frames, s1, SAck);
    ReachesStep(frames, s, s2, SEnd);
    var s3 := Apply(frames, s2, SEnd);
    ReachesStep(frames, s, s3, CEnd);
    var s4 := Apply(frames, s3, CEnd);
    ReachesStep(frames, s, s4, CAsk);
    SW.WholeFrame(frames, f);
    assert Apply(frames, s4, CAsk) == Boundary(frames, f + 1);
  }

  /** The first n chunks of a frame go through when none of them hits a gap of the protocol. */
  lemma {:induction false} ChunksGo(frames: seq<seq<u8>>, f: nat, n: nat)
    requires SmallFrames(frames) && f < |frames| && n <= LastChunk(frames[f])
    requires forall i :: 0 <= i < n ==> !StopsShort(frames[f], i) && !LooksLikeEnd(Chunk(frames[f], i))
    ensures Reaches(frames, Boundary(frames, f), AtChunk(frames, f, n))
  {
    var b := Boundary(frames, f);
    if n == 0 {
      ReachesSelf(frames, b);
      ReachesStep(frames, b, b, SGetCmd);
      assert SW.Sofar(frames, f, 0) == SW.Concat(frames[..f]);
      assert Apply(frames, b, SGetCmd) == AtChunk(frames, f, 0);
    } else {
      ChunksGo(frames, f, n - 1);
      ChunkThenNext(frames, f, n - 1);
      ReachesJoin(frames, b, AtChunk(frames, f, n - 1), AtChunk(frames, f, n));
    }
  }

  lemma CarriedFrameGoes(frames: seq<seq<u8>>, f: nat)
    requires SmallFrames(frames) && f + 1 < |frames| && Carried(frames[f])
    ensures Reaches(frames, Boundary(frames, f), Boundary(frames, f + 1))
  {
    var last := LastChunk(frames[f]);
    forall i | 0 <= i <= last
      ensures !StopsShort(frames[f], i) && !LooksLikeEnd(Chunk(frames[f], i))
    {
      StopsShortAt(frames[f], i);
      EndLookalike(frames[f], i);
    }
    ChunksGo(frames, f, last);
    LastThenNext(frames, f);
    ReachesJoin(frames, Boundary(frames, f), AtChunk(frames, f, last), Boundary(frames, f + 1));
  }

  lemma {:induction false} BoundaryReached(frames: seq<seq<u8>>, f: nat)
    requires SmallFrames(frames) && f < |frames| && forall g :: 0 <= g < f ==> Carried(frames[g])
    ensures Reaches(frames, Start(frames), Boundary(frames, f))
  {
    if f == 0 {
      ReachesSelf(frames, Start(frames));
    } else {
      BoundaryReached(frames, f - 1);
      CarriedFrameGoes(frames, f - 1);
      ReachesJoin(frames, Start(frames), Boundary(frames, f - 1), Boundary(frames, f));
    }
  }

  /** A second and last chunk that starts with 0xff stops the client, and the server waits for ever. */
  lemma LookalikeHalts(frames: seq<seq<u8>>, f: nat) returns (s: System)
    requires SmallFrames(frames) && f < |frames|
    requires MAX_BUF_SIZE < |frames[f]| < 2 * MAX_BUF_SIZE && frames[f][MAX_BUF_SIZE] == 0xff
    ensures Reaches(frames, Boundary(frames, f), s) && HaltedShort(frames, s)
  {
    EndLookalike(frames[f], 0);
    EndLookalike(frames[f], 1);
    ChunksGo(frames, f, 1);
    var b, s0 := Boundary(frames, f), AtChunk(frames, f, 1);
    ReachesStep(frames, b, s0, SSend(false));
    var s1 := Apply(frames, s0, SSend(false));
    ReachesStep(frames, b, s1, CTake);
    s := Apply(frames, s1, CTake);
  }

  /** Of a positive multiple of 1024 bytes the last 1024 are never sent. */
  lemma MultipleHalts(frames: seq<seq<u8>>, f: nat) returns (s: System)
    requires SmallFrames(frames) && f < |frames|
    requires |frames[f]| > 0 && |frames[f]| % MAX_BUF_SIZE == 0
    ensures Reaches(frames, Boundary(frames, f), s) && HaltedShort(frames, s)
  {
    var n := LastChunk(frames[f]) - 1;
    forall i | 0 <= i <= n
      ensures StopsShort(frames[f], i) <==> i == n
      ensures !LooksLikeEnd(Chunk(frames[f], i))
    {
      StopsShortAt(frames[f], i);
      EndLookalike(frames[f], i);
    }
    ChunksGo(frames, f, n);
    var b, s0 := Boundary(frames, f), AtChunk(frames, f, n);
    ReachesStep(frames, b, s0, SSend(false));
    s := Apply(frames, s0, SSend(false));
    if n > 0 {
      ReachesStep(frames, b, s, SEnd);
      s := Apply(frames, s, SEnd);
    }
    FileTooShort(frames, f, n);
  }

  lemma FileTooShort(frames: seq<seq<u8>>, f: nat, n: nat)
    requires f < |frames| && n * MAX_BUF_SIZE < |frames[f]|
    ensures SW.Sofar(frames, f, n) != SW.Concat(frames)
  {
    SW.ConcatPrefix(frames, f + 1);
    assert frames[..f + 1][..f] == frames[..f];
    assert |SW.Concat(frames[..f + 1])| == |SW.Concat(frames[..f])| + |frames[f]|;
  }

  /** While all frames are carried: at most one message is under way on each channel, every
      acknowledgement bears the server's own frame count, and the file is a prefix of the frames. */
  lemma LockStepHolds(frames: seq<seq<u8>>, s: System)
    requires AllCarried(frames) && Reachable(frames, s)
    ensures |s.data| <= 1 && |s.toServer| <= 1 && |s.toClient| <= 1
    ensures s.server.AwaitAck? && s.toServer != [] ==>
              s.toServer[0].AckMsg? && s.toServer[0].ack.frameNum == s.server.f + 1 == s.received.frameNum
    ensures s.client != Stopped && s.received.file <= SW.Concat(frames)
  {
    var events :| Run(frames, Start(frames), events, s);
    StartInv(frames);
    RunKeepsInv(frames, Start(frames), events, s);
    InHandIsPrefix(frames, s);
    assert s.received.file <= InHand(s);
  }

  lemma InHandIsPrefix(frames: seq<seq<u8>>, s: System)
    requires Inv(frames, s)
    ensures InHand(s) <= SW.Concat(frames)
  {
    match s.server {
      case Waiting(f) => SW.ConcatPrefix(frames, f);
      case Sending(f, i) => SW.SofarPrefix(frames, f, i);
      case AwaitAck(f, i) =>
        SW.SofarPrefix(frames, f, i);
        SW.SofarPrefix(frames, f, i + 1);
      case Ending(f) => SW.SofarPrefix(frames, f, LastChunk(frames[f]) + 1);
      case Done => SW.ConcatPrefix(frames, |frames|);
    }
  }

  lemma NoHaltWhenCarried(frames: seq<seq<u8>>, s: System)
    requires AllCarried(frames) && Reachable(frames, s)
    ensures !HaltedShort(frames, s)
  {
    var events :| Run(frames, Start(frames), events, s);
    StartInv(frames);
    RunKeepsInv(frames, Start(frames), events, s);
    if s.server != Done {
      var e := Progress(frames, s);
    } else {
      assert frames[..|frames|] == frames;
      assert s.client.Writing? ==> Enabled(frames, s, CWrite);
    }
  }

  /** The pair delivers a stream of frames completely, in every run, exactly when the protocol carries
      each frame: no frame is a positive multiple of 1024 long, and none has two chunks the second of
      which starts with 0xff.  Otherwise some run halts short. */
  lemma DeliveredExactlyWhenCarried(frames: seq<seq<u8>>)
    requires SmallFrames(frames)
    ensures AllCarried(frames) <==> forall s :: Reachable(frames, s) ==> !HaltedShort(frames, s)
  {
    if AllCarried(frames) {
      forall s | Reachable(frames, s)
        ensures !HaltedShort(frames, s)
      {
        NoHaltWhenCarried(frames, s);
      }
    } else {
      var f := FirstUncarried(frames);
      BoundaryReached(frames, f);
      var s;
      if |frames[f]| > 0 && |frames[f]| % MAX_BUF_SIZE == 0 {
        s := MultipleHalts(frames, f);
      } else {
        s := LookalikeHalts(frames, f);
      }
      ReachesJoin(frames, Start(frames), Boundary(frames, f), s);
      assert Reachable(frames, s);
    }
  }

  lemma FirstUncarried(frames: seq<seq<u8>>) returns (f: nat)
    requires SmallFrames(frames) && !AllCarried(frames)
    ensures f < |frames| && !Carried(frames[f]) && forall g :: 0 <= g < f ==> Carried(frames[g])
  {
    f := 0;
    while Carried(frames[f])
      invariant f < |frames| && forall g :: 0 <= g < f ==> Carried(frames[g])
      decreases |frames| - f
    {
      f := f + 1;
    }
  }
}
