/** Cutting a frame into numbered datagrams and putting it together again: the sending and receiving
    loops of the file-transfer programs, with the datagrams as bytes. */
module Frames {
  import opened Wrappers

  type u8 = x: int | 0 <= x < 256
  type Datagram = m: seq<u8> | 3 <= |m| witness [0, 0, 0]

  const MAX_BUF_SIZE: nat := 1024
  const MAX_FRAME: nat := 0x400_0000   // 65536 chunks: chunk numbers are 16 bits wide
  const NEXT_FRAME_CMD: nat := 0xff55_ff55

  datatype Ack = Ack(frameNum: nat, sendNum: nat, sendSize: nat)

  /** The header: chunk number, low byte first, and 0xff in the last datagram of a frame. */
  function Encode(num: nat, last: bool, payload: seq<u8>): (m: Datagram)
    ensures |m| == |payload| + 3
  {
    [num % 256, num / 256 % 256, if last then 0xff else 0] + payload
  }

  function NumOf(m: Datagram): nat {
    m[0] as int + 256 * m[1] as int
  }

  predicate LastOf(m: Datagram) {
    m[2] == 0xff
  }

  function PayloadOf(m: Datagram): seq<u8> {
    m[3..]
  }

  lemma DecodeEncode(num: nat, last: bool, payload: seq<u8>)
    ensures NumOf(Encode(num, last, payload)) == num % 65536
    ensures LastOf(Encode(num, last, payload)) == last
    ensures PayloadOf(Encode(num, last, payload)) == payload
  {
  }

  /** The index of the last chunk.  A frame that is a multiple of 1024 long ends in an empty chunk. */
  function LastChunk(frame: seq<u8>): nat {
    |frame| / MAX_BUF_SIZE
  }

  /** The part of a frame that its first i chunks carry. */
  function FirstChunks(frame: seq<u8>, i: nat): seq<u8> {
    frame[..Min(i * MAX_BUF_SIZE, |frame|)]
  }

  /** Chunk i of a frame. */
  function Chunk(frame: seq<u8>, i: nat): Datagram
    requires i <= LastChunk(frame)
  {
    Encode(i, i == LastChunk(frame), frame[i * MAX_BUF_SIZE..Min((i + 1) * MAX_BUF_SIZE, |frame|)])
  }

  /** The acknowledgement that lets the sender go on. */
  function AckFor(frameCount: nat, m: Datagram): Ack {
    Ack(frameCount, NumOf(m), |m|)
  }

  lemma ChunkExtends(frame: seq<u8>, i: nat)
    requires i <= LastChunk(frame)
    ensures FirstChunks(frame, i + 1) == FirstChunks(frame, i) + PayloadOf(Chunk(frame, i))
    ensures LastOf(Chunk(frame, i)) <==> i == LastChunk(frame)
    ensures NumOf(Chunk(frame, i)) == i % 65536
    ensures i == LastChunk(frame) ==> FirstChunks(frame, i + 1) == frame
  {
  }

  /** The first n datagrams of a frame. */
  function FirstDatagrams(frame: seq<u8>, n: nat): (ms: seq<Datagram>)
    requires n <= LastChunk(frame) + 1
    ensures |ms| == n
  {
    if n == 0 then [] else FirstDatagrams(frame, n - 1) + [Chunk(frame, n - 1)]
  }

  /** All datagrams of a frame. */
  function Chunks(frame: seq<u8>): seq<Datagram> {
    FirstDatagrams(frame, LastChunk(frame) + 1)
  }

  /** The payloads of some datagrams, one after the other. */
  function Payloads(ms: seq<Datagram>): seq<u8> {
    if ms == [] then [] else Payloads(ms[..|ms| - 1]) + PayloadOf(ms[|ms| - 1])
  }

  lemma {:induction false} FirstDatagramsAt(frame: seq<u8>, n: nat, i: nat)
    requires i < n <= LastChunk(frame) + 1
    ensures FirstDatagrams(frame, n)[i] == Chunk(frame, i)
  {
    if i < n - 1 {
      FirstDatagramsAt(frame, n - 1, i);
    }
  }

  /** Reassembly undoes fragmentation, and only the last datagram is marked as such. */
  lemma Reassembly(frame: seq<u8>)
    ensures Payloads(Chunks(frame)) == frame
    ensures forall i :: 0 <= i < |Chunks(frame)| ==> (LastOf(Chunks(frame)[i]) <==> i == |Chunks(frame)| - 1)
  {
    var n := |Chunks(frame)|;
    ReassemblyOf(frame, n);
    ChunkExtends(frame, n - 1);
    forall i | 0 <= i < n
      ensures LastOf(Chunks(frame)[i]) <==> i == n - 1
    {
      FirstDatagramsAt(frame, n, i);
      ChunkExtends(frame, i);
    }
  }

  lemma {:induction false} ReassemblyOf(frame: seq<u8>, n: nat)
    requires n <= LastChunk(frame) + 1
    ensures Payloads(FirstDatagrams(frame, n)) == FirstChunks(frame, n)
  {
    if n > 0 {
      ReassemblyOf(frame, n - 1);
      ChunkExtends(frame, n - 1);
      var ms := FirstDatagrams(frame, n);
      assert ms[..n - 1] == FirstDatagrams(frame, n - 1);
    }
  }

  /* ---------------------------------------------------------------- the sending loop */

  datatype SendResult = Sent | Rejected | Blocked

  /** The first n chunks got exactly the acknowledgements they wait for. */
  ghost predicate Acked(frame: seq<u8>, frameCount: nat, replies: seq<Ack>, n: nat)
    requires n <= LastChunk(frame) + 1
  {
    n == 0 ||
    (Acked(frame, frameCount, replies, n - 1) &&
     n <= |replies| && replies[n - 1] == AckFor(frameCount, Chunk(frame, n - 1)))
  }

  /** Fills the send buffer with chunk i; `left` is the part of the frame not yet sent. */
  method FillBuffer(frame: seq<u8>, i: nat, left: nat) returns (buffer: Datagram, done: bool, left': nat)
    requires i <= LastChunk(frame) && left == |frame| - i * MAX_BUF_SIZE
    ensures buffer == Chunk(frame, i)
    ensures done <==> i == LastChunk(frame)
    ensures !done ==> left' == |frame| - (i + 1) * MAX_BUF_SIZE
  {
    done, left' := false, left;
    var length := MAX_BUF_SIZE;
    if left < MAX_BUF_SIZE {
      done := true;
      length := left % MAX_BUF_SIZE;
    } else {
      left' := left - MAX_BUF_SIZE;
    }
    buffer := Encode(i, done, frame[i * MAX_BUF_SIZE..i * MAX_BUF_SIZE + length]);
  }

  /** Sends a frame chunk by chunk and waits for the matching acknowledgement after each.  `replies` are
      the acknowledgements that arrive; when they run out the sender waits for ever. */
  method UdpSend(frame: seq<u8>, frameCount: nat, replies: seq<Ack>) returns (result: SendResult, sent: seq<Datagram>)
    requires |frame| < MAX_FRAME
    ensures 0 < |sent| <= LastChunk(frame) + 1 && sent == FirstDatagrams(frame, |sent|)
    ensures Acked(frame, frameCount, replies, |sent| - 1)
    ensures match result
            case Sent => sent == Chunks(frame) && Acked(frame, frameCount, replies, |sent|)
            case Rejected => |sent| <= |replies| && replies[|sent| - 1] != AckFor(frameCount, sent[|sent| - 1])
            case Blocked => |replies| < |sent|
  {
    sent := [];
    var i := 0;
    var left := |frame|;
    var done := false;
    while !done
      invariant i == |sent| <= LastChunk(frame) + 1 && done == (i == LastChunk(frame) + 1)
      invariant !done ==> left == |frame| - i * MAX_BUF_SIZE
      invariant sent == FirstDatagrams(frame, i) && Acked(frame, frameCount, replies, i)
      decreases LastChunk(frame) + 1 - i
    {
      var buffer;
      buffer, done, left := FillBuffer(frame, i, left);
      ChunkNumber(frame, i);
      sent := sent + [buffer];
      if |replies| <= i {
        return Blocked, sent;
      }
      if replies[i].frameNum != frameCount || replies[i].sendNum != i || replies[i].sendSize != |buffer| {
        return Rejected, sent;
      }
      i := i + 1;
    }
    return Sent, sent;
  }

  lemma ChunkNumber(frame: seq<u8>, i: nat)
    requires |frame| < MAX_FRAME && i <= LastChunk(frame)
    ensures NumOf(Chunk(frame, i)) == i
  {
  }

  /* ---------------------------------------------------------------- the receiver */

  /** The receiver's side as a value: the file so far and the number of frames begun. */
  datatype Received = Received(file: seq<u8>, frameNum: nat)

  /** Frames are counted by their first chunk. */
  function Counted(r: Received, m: Datagram): nat {
    if NumOf(m) == 0 then r.frameNum + 1 else r.frameNum
  }

  class Receiver {
    var frameNum: nat
    var file: seq<u8>
    var prevFrameSize: nat

    constructor ()
      ensures frameNum == 0 && file == [] && prevFrameSize == 0
    {
      frameNum, file, prevFrameSize := 0, [], 0;
    }

    function State(): Received
      reads this
    {
      Received(file, frameNum)
    }

    /** Counts and acknowledges a datagram; newFrame says that the next frame is to be asked for. */
    method OnDatagram(msg: Datagram) returns (ack: Ack, newFrame: bool)
      modifies this`frameNum, this`prevFrameSize
      ensures frameNum == Counted(old(State()), msg)
      ensures ack == AckFor(frameNum, msg)
      ensures ack.frameNum == frameNum && ack.sendNum == msg[0] as int + 256 * msg[1] as int && ack.sendSize == |msg|
      ensures newFrame == LastOf(msg) == (msg[2] == 0xff)
      ensures prevFrameSize == if newFrame then 0 else old(prevFrameSize) + |PayloadOf(msg)|
    {
      newFrame := false;
      prevFrameSize := prevFrameSize + |msg| - 3;
      if msg[0] as int + 256 * msg[1] as int == 0 {
        frameNum := frameNum + 1;
      }
      if msg[2] == 0xff {
        prevFrameSize := 0;
        newFrame := true;
      }
      ack := Ack(frameNum, msg[0] as int + 256 * msg[1] as int, |msg|);
    }

    /** Appends the payload of an acknowledged datagram. */
    method WriteFile(msg: Datagram)
      modifies this`file
      ensures file == old(file) + PayloadOf(msg)
    {
      file := file + msg[3..];
    }
  }
}
