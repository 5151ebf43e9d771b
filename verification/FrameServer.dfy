/** The sending loop of the second file-transfer server: it stops short of a last chunk of exactly 1024 bytes,
    and tells the client about the end of a frame over the command channel. */
module FrameServer {
  import opened Frames
  import LockStep

  datatype Outcome = Finished(ended: bool) | Refused | Waits

  /** A positive multiple of 1024: the loop will come to the point where exactly 1024 bytes are left. */
  predicate WholeChunks(frame: seq<u8>) {
    |frame| > 0 && |frame| % MAX_BUF_SIZE == 0
  }

  /** The number of datagrams that go out when every one of them is acknowledged. */
  function Reach(frame: seq<u8>): nat {
    if WholeChunks(frame) then LastChunk(frame) - 1 else LastChunk(frame) + 1
  }

  lemma StopsAtReach(frame: seq<u8>, i: nat)
    requires i <= LastChunk(frame)
    ensures LockStep.StopsShort(frame, i) <==> WholeChunks(frame) && i == Reach(frame)
  {
  }

  /** Sends a frame; `replies` are the acknowledgements that arrive, `junk` is whether the result variable,
      which nothing has set yet, happens to be positive.  `ended` says that the end command was written. */
  method UdpSend(frame: seq<u8>, frameCount: nat, replies: seq<Ack>, junk: bool)
    returns (outcome: Outcome, sent: seq<Datagram>)
    requires |frame| < MAX_FRAME
    ensures |sent| <= Reach(frame) <= LastChunk(frame) + 1 && sent == FirstDatagrams(frame, |sent|)
    ensures match outcome
            case Finished(ended) =>
              && |sent| == Reach(frame) && Acked(frame, frameCount, replies, |sent|)
              && ended == (sent != [] || junk)
            case Refused => 0 < |sent| <= |replies| && Acked(frame, frameCount, replies, |sent| - 1)
                            && replies[|sent| - 1] != AckFor(frameCount, sent[|sent| - 1])
            case Waits => |replies| < |sent| && Acked(frame, frameCount, replies, |sent| - 1)
  {
    sent := [];
    var i, left, done, positive := 0, |frame|, false, junk;
    while !done
      invariant i == |sent| <= Reach(frame) <= LastChunk(frame) + 1
      invariant done ==> i == Reach(frame)
      invariant !done ==> i <= LastChunk(frame) && left == |frame| - i * MAX_BUF_SIZE
      invariant positive == (sent != [] || junk)
      invariant sent == FirstDatagrams(frame, i) && Acked(frame, frameCount, replies, i)
      decreases LastChunk(frame) + 1 - i, !done
    {
      StopsAtReach(frame, i);
      if left == MAX_BUF_SIZE {
        break;
      }
      var buffer;
      buffer, done, left := FillBuffer(frame, i, left);
      ChunkNumber(frame, i);
      sent := sent + [buffer];
      assert sent == FirstDatagrams(frame, i + 1) && sent[i] == buffer && i < Reach(frame);
      if |replies| <= i {
        return Waits, sent;
      }
      positive := true;
      if replies[i].frameNum != frameCount || replies[i].sendNum != i || replies[i].sendSize != |buffer| {
        return Refused, sent;
      }
      i := i + 1;
    }
    return Finished(positive), sent;
  }

  /** The whole frame has gone out exactly when the loop does not stop short. */
  lemma ReachIsEverything(frame: seq<u8>)
    ensures Payloads(FirstDatagrams(frame, Reach(frame))) == frame <==> !WholeChunks(frame)
  {
    ReassemblyOf(frame, Reach(frame));
    if !WholeChunks(frame) {
      ChunkExtends(frame, LastChunk(frame));
    }
  }
}
