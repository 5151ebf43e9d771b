/** The file-transfer pair when nothing is lost: there is always a way through, and at its end the file is complete. */
module StopAndWaitDelivery {
  import opened Frames
  import opened StopAndWait

  predicate Loses(e: Event) {
    e.LoseData? || e.LoseReply?
  }

  ghost predicate LosslessRun(frames: seq<seq<u8>>, s: System, events: seq<Event>, t: System) {
    Run(frames, s, events, t) && forall k :: 0 <= k < |events| ==> !Loses(events[k])
  }

  /** Without losing anything, s leads to t. */
  ghost predicate Leads(frames: seq<seq<u8>>, s: System, t: System) {
    exists events :: LosslessRun(frames, s, events, t)
  }

  lemma LeadsSelf(frames: seq<seq<u8>>, s: System)
    ensures Leads(frames, s, s)
  {
    assert LosslessRun(frames, s, [], s);
  }

  lemma LeadsAfter(frames: seq<seq<u8>>, s: System, e: Event, t: System, u: System)
    requires !Loses(e) && Step(frames, s, e, t) && Leads(frames, t, u)
    ensures Leads(frames, s, u)
  {
    var events :| LosslessRun(frames, t, events, u);
    var all := [e] + events;
    assert all[1..] == events;
    assert LosslessRun(frames, s, all, u);
  }

  /** The sender is about to send chunk i of frame f, and the receiver has everything before it. */
  function AtChunk(frames: seq<seq<u8>>, f: nat, i: nat): System
    requires f < |frames|
  {
    System(Sending(f, i), [], [], Idle, Received(Sofar(frames, f, i), if i == 0 then f else f + 1))
  }

  /** The sender is about to begin frame f. */
  function AtFrame(frames: seq<seq<u8>>, f: nat): System
    requires f <= |frames|
  {
    System(BeginFrame(frames, f), [], [], Idle, Received(Concat(frames[..f]), f))
  }

  lemma FrameIsChunk(frames: seq<seq<u8>>, f: nat)
    requires f < |frames|
    ensures AtFrame(frames, f) == AtChunk(frames, f, 0)
  {
    assert FirstChunks(frames[f], 0) == [];
  }

  /** A chunk goes out, is taken and acknowledged, and is written. */
  ghost function Written(frames: seq<seq<u8>>, f: nat, i: nat): System
    requires f < |frames| && i <= LastChunk(frames[f])
  {
    System(AwaitAck(f, i), [], [AckOf(frames, f, i)], if i == LastChunk(frames[f]) then Asking else Idle,
           Received(Sofar(frames, f, i + 1), f + 1))
  }

  lemma ChunkWritten(frames: seq<seq<u8>>, f: nat, i: nat, u: System)
    requires SmallFrames(frames) && f < |frames| && i <= LastChunk(frames[f])
    requires Leads(frames, Written(frames, f, i), u)
    ensures Leads(frames, AtChunk(frames, f, i), u)
  {
    var m := Chunk(frames[f], i);
    ChunkNumber(frames[f], i);
    NextChunk(frames, f, i);
    var s := AtChunk(frames, f, i);
    var s1 := s.(sender := AwaitAck(f, i), data := [m]);
    var s2 := s1.(data := [], phase := Writing(m), received := s.received.(frameNum := f + 1),
                  back := [AckOf(frames, f, i)]);
    assert Step(frames, s, Send, s1);
    assert Step(frames, s1, Take, s2);
    assert Step(frames, s2, Write, Written(frames, f, i));
    LeadsAfter(frames, s2, Write, Written(frames, f, i), u);
    LeadsAfter(frames, s1, Take, s2, u);
    LeadsAfter(frames, s, Send, s1, u);
  }

  /** A chunk that is not the last is followed by the next one. */
  lemma NextChunkSent(frames: seq<seq<u8>>, f: nat, i: nat, u: System)
    requires SmallFrames(frames) && f < |frames| && i < LastChunk(frames[f])
    requires Leads(frames, AtChunk(frames, f, i + 1), u)
    ensures Leads(frames, AtChunk(frames, f, i), u)
  {
    var s := Written(frames, f, i);
    assert ReadsAs(s.back[0], AckFor(f + 1, Chunk(frames[f], i)));
    assert Step(frames, s, TakeReply, AtChunk(frames, f, i + 1));
    LeadsAfter(frames, s, TakeReply, AtChunk(frames, f, i + 1), u);
    ChunkWritten(frames, f, i, u);
  }

  /** The last chunk is followed by the next frame. */
  lemma NextFrameSent(frames: seq<seq<u8>>, f: nat, u: System)
    requires SmallFrames(frames) && f < |frames| && Leads(frames, AtFrame(frames, f + 1), u)
    ensures Leads(frames, AtChunk(frames, f, LastChunk(frames[f])), u)
  {
    var i := LastChunk(frames[f]);
    var s := Written(frames, f, i);
    var s1 := s.(sender := AwaitNext(f, true), back := []);
    var s2 := s1.(phase := Idle, back := [NextCmd]);
    WholeFrame(frames, f);
    assert ReadsAs(s.back[0], AckFor(f + 1, Chunk(frames[f], i)));
    assert Step(frames, s, TakeReply, s1);
    assert Step(frames, s1, Ask, s2);
    assert ReadsAs(s2.back[0], Ack(NEXT_FRAME_CMD, 0, 0));
    assert Step(frames, s2, TakeReply, AtFrame(frames, f + 1));
    LeadsAfter(frames, s2, TakeReply, AtFrame(frames, f + 1), u);
    LeadsAfter(frames, s1, Ask, s2, u);
    LeadsAfter(frames, s, TakeReply, s1, u);
    ChunkWritten(frames, f, i, u);
  }

  lemma {:induction false} RestOfFrame(frames: seq<seq<u8>>, f: nat, i: nat, left: nat, u: System)
    requires SmallFrames(frames) && f < |frames| && i + left == LastChunk(frames[f])
    requires Leads(frames, AtFrame(frames, f + 1), u)
    ensures Leads(frames, AtChunk(frames, f, i), u)
    decreases left
  {
    if left > 0 {
      RestOfFrame(frames, f, i + 1, left - 1, u);
      NextChunkSent(frames, f, i, u);
    } else {
      NextFrameSent(frames, f, u);
    }
  }

  lemma {:induction false} RestOfFrames(frames: seq<seq<u8>>, f: nat)
    requires SmallFrames(frames) && f <= |frames|
    ensures Leads(frames, AtFrame(frames, f), AtFrame(frames, |frames|))
    decreases |frames| - f
  {
    if f < |frames| {
      RestOfFrames(frames, f + 1);
      FrameIsChunk(frames, f);
      RestOfFrame(frames, f, 0, LastChunk(frames[f]), AtFrame(frames, |frames|));
    } else {
      LeadsSelf(frames, AtFrame(frames, f));
    }
  }

  /** Some run that loses nothing brings the sender through all frames and the receiver the whole file. */
  lemma DeliversEverything(frames: seq<seq<u8>>) returns (events: seq<Event>, s: System)
    requires SmallFrames(frames)
    ensures Run(frames, Start(frames), events, s)
    ensures forall k :: 0 <= k < |events| ==> !events[k].LoseData? && !events[k].LoseReply?
    ensures s.sender == Finished && s.data == [] && s.back == [] && s.received.file == Concat(frames)
  {
    RestOfFrames(frames, 0);
    s := AtFrame(frames, |frames|);
    assert frames[..0] == [] && frames[..|frames|] == frames;
    assert Start(frames) == AtFrame(frames, 0);
    events :| LosslessRun(frames, Start(frames), events, s);
  }
}
