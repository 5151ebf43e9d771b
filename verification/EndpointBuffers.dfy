/** Receiving a data frame into the pool: the endpoint's work handler takes an empty buffer, lets the
    DMA engine fill it, queues it for the reader, and acknowledges through a shared flag word. */
module EndpointBuffers {
  import opened BufferPool
  import opened Wrappers
  import opened PoolProtocol

  const DATA_ACK: bv32 := 0x04
  const DATA_ACK_ERR: bv32 := 0x14

  /** The buffer that held `was`, with the channel byte at its start and the frame behind the 4-byte header; the other
      bytes of the header, and what lies behind the frame, stay as they were. */
  function FrameData(was: Data, channel: int, bytes: seq<int>): Data {
    [channel % 256] + (if |was| >= 4 then was[1..4] else [0, 0, 0]) + bytes
    + (if |was| > 4 + |bytes| then was[4 + |bytes|..] else [])
  }

  /** What the reader makes of a message: the channel is its first byte, and the frame all but the first four. */
  function ChannelOf(m: Message): int
    requires m.data != []
  {
    m.data[0]
  }

  function FrameOf(m: Message): seq<int>
    requires 4 <= m.size <= |m.data|
  {
    m.data[4..m.size]
  }

  /** The reader finds channel and frame in the message a whole transfer makes. */
  lemma ReaderFindsFrame(was: Data, channel: int, bytes: seq<int>)
    ensures var m := Message(FrameData(was, channel, bytes), |bytes| + 4);
            && 4 <= m.size <= |m.data|
            && ChannelOf(m) == channel % 256 && FrameOf(m) == bytes
  {
  }

  /** What a call needs of the pool: the first empty id is found by its address and has room in either
      queue.  Every reachable state of the protocol is like that. */
  ghost predicate Ready(s: System) {
    && |s.memory| == |s.pool.virt| == |s.pool.size|
    && (s.pool.empty != [] ==>
          var id := s.pool.empty[0];
          && id < |s.pool.virt| && Lookup(s.pool.virt, s.pool.virt[id]) == Some(id)
          && |s.pool.full| < s.pool.capacity && |s.pool.empty| <= s.pool.capacity)
  }

  lemma InvReady(s: System)
    requires Inv(s)
    ensures Ready(s)
  {
    if s.pool.empty != [] {
      QueuedAlone(s, s.pool.empty[0]);
      LookupInverts(s.pool.virt, s.pool.empty[0]);
      AllIdsSize(|s.pool.virt|);
      assert |Whereabouts(s)| == |s.pool.empty| + |s.pool.full| + |s.producer| + |s.consumer.Keys|;
    }
  }

  /** The pool after one call.  A transfer that moved a different number of bytes than announced gives
      the buffer back to the empty queue. */
  ghost function AfterPutData(s: System, bufSize: int, channel: int, moved: int, bytes: seq<int>): System
    requires Ready(s)
  {
    if s.pool.empty == [] then s
    else
      var id := s.pool.empty[0];
      var data := FrameData(s.memory[id], channel, bytes);
      var t := s.(memory := s.memory[id := data]);
      if moved != bufSize then t.(pool := s.pool.(empty := s.pool.empty[1..] + [id]))
      else t.(pool := s.pool.(empty := s.pool.empty[1..],
                              full := s.pool.full + [id],
                              size := s.pool.size[id := bufSize + 4]),
              sent := s.sent + [Message(data, bufSize + 4)])
  }

  /** In the middle of a call: the buffer has been taken and filled. */
  ghost function Loaded(s: System, channel: int, bytes: seq<int>): System
    requires Ready(s) && s.pool.empty != []
  {
    var id := s.pool.empty[0];
    s.(pool := s.pool.(empty := s.pool.empty[1..]), memory := s.memory[id := FrameData(s.memory[id], channel, bytes)])
  }

  /** The last protocol step of a call that got a buffer. */
  ghost function LastEvent(s: System, bufSize: int, moved: int): Event
    requires Ready(s) && s.pool.empty != []
  {
    var address := s.pool.virt[s.pool.empty[0]];
    if moved != bufSize then GiveBack(address) else PutFull(address, bufSize + 4)
  }

  /** The protocol steps one call makes. */
  ghost function PutDataEvents(s: System, bufSize: int, channel: int, moved: int, bytes: seq<int>): seq<Event>
    requires Ready(s)
  {
    if s.pool.empty == [] then [TakeEmpty]
    else
      var id := s.pool.empty[0];
      [TakeEmpty, Write(id, FrameData(s.memory[id], channel, bytes)), LastEvent(s, bufSize, moved)]
  }

  /** The acknowledgement bits a call raises. */
  function AckBits(noBuffer: bool, bufSize: int, moved: int): bv32 {
    if !noBuffer && moved != bufSize then DATA_ACK_ERR else DATA_ACK
  }

  lemma RunThree(s: System, e0: Event, e1: Event, e2: Event, s1: System, s2: System, s3: System)
    requires Inv(s) && Allowed(s, e0) && s1 == Step(s, e0)
    requires Inv(s1) && Allowed(s1, e1) && s2 == Step(s1, e1)
    requires Inv(s2) && Allowed(s2, e2) && s3 == Step(s2, e2)
    ensures Run(s, [e0, e1, e2], s3)
  {
    assert [e0, e1, e2][1..] == [e1, e2];
    assert [e1, e2][1..] == [e2];
    assert Run(s3, [], s3);
    assert [e2][1..] == [];
    assert Run(s2, [e2], s3);
    assert Run(s1, [e1, e2], s3);
  }

  /** The producer's last step on the buffer it just took and filled. */
  lemma LastStep(s: System, id: nat, bufSize: int, moved: int)
    requires Inv(s) && id in s.producer && id < |s.pool.virt|
    ensures var address := s.pool.virt[id];
            var e := if moved != bufSize then GiveBack(address) else PutFull(address, bufSize + 4);
            && Allowed(s, e)
            && Step(s, e) == if moved != bufSize
                             then s.(pool := s.pool.(empty := s.pool.empty + [id]), producer := s.producer - {id})
                             else AfterPutFull(s, id, bufSize + 4)
  {
    HeldPutsSucceed(s, id, bufSize + 4);
    LookupInverts(s.pool.virt, id);
  }

  /** The producer holding a buffer it just took and filled. */
  ghost function Filled(s: System, data: Data): System
    requires Ready(s) && s.pool.empty != []
  {
    var id := s.pool.empty[0];
    s.(pool := s.pool.(empty := s.pool.empty[1..]),
       producer := s.producer + {id},
       memory := s.memory[id := data])
  }

  lemma FirstSteps(s: System, data: Data)
    requires Inv(s) && Ready(s) && s.pool.empty != []
    ensures var id := s.pool.empty[0];
            var s1 := Step(s, TakeEmpty);
            && id !in s.producer
            && Inv(s1) && Allowed(s1, Write(id, data))
            && Step(s1, Write(id, data)) == Filled(s, data)
            && Inv(Filled(s, data))
  {
    var id := s.pool.empty[0];
    QueuedAlone(s, id);
    TakeEmptyKeepsInv(s);
    WriteKeepsInv(Step(s, TakeEmpty), id, data);
  }

  lemma FilledThenLast(s: System, bufSize: int, channel: int, moved: int, bytes: seq<int>)
    requires Inv(s) && Ready(s) && s.pool.empty != [] && s.pool.empty[0] !in s.producer
    requires Inv(Filled(s, FrameData(s.memory[s.pool.empty[0]], channel, bytes)))
    ensures var f, e := Filled(s, FrameData(s.memory[s.pool.empty[0]], channel, bytes)), LastEvent(s, bufSize, moved);
            && Allowed(f, e) && Step(f, e) == AfterPutData(s, bufSize, channel, moved, bytes) && Inv(Step(f, e))
  {
    var id := s.pool.empty[0];
    var f := Filled(s, FrameData(s.memory[id], channel, bytes));
    LastStep(f, id, bufSize, moved);
    StepKeepsInv(f, LastEvent(s, bufSize, moved));
    assert f.producer - {id} == s.producer;
  }

  /** A call is a run of protocol steps by the producer, who ends up holding nothing more than before;
      so the pool's invariant, and the order and integrity of messages, carry over to every reader. */
  lemma PutDataIsRun(s: System, bufSize: int, channel: int, moved: int, bytes: seq<int>)
    requires Inv(s)
    ensures Ready(s)
    ensures Run(s, PutDataEvents(s, bufSize, channel, moved, bytes), AfterPutData(s, bufSize, channel, moved, bytes))
    ensures Inv(AfterPutData(s, bufSize, channel, moved, bytes))
  {
    InvReady(s);
    if s.pool.empty != [] {
      var id := s.pool.empty[0];
      var data := FrameData(s.memory[id], channel, bytes);
      FirstSteps(s, data);
      FilledThenLast(s, bufSize, channel, moved, bytes);
      RunThree(s, TakeEmpty, Write(id, data), LastEvent(s, bufSize, moved),
               Step(s, TakeEmpty), Filled(s, data), AfterPutData(s, bufSize, channel, moved, bytes));
    } else {
      assert Run(s, [], s);
      assert [TakeEmpty][1..] == [];
    }
  }

  /** No call leaks a buffer.  It either moves exactly one id from the empty to the full queue, with the
      frame as its message, or leaves the set of empty ids and the full queue unchanged; and it always
      raises the data-acknowledge bit. */
  lemma PutDataNeverLeaks(s: System, bufSize: int, channel: int, moved: int, bytes: seq<int>)
    requires Ready(s)
    ensures var t := AfterPutData(s, bufSize, channel, moved, bytes);
            && t.producer == s.producer && t.consumer == s.consumer && t.got == s.got
            && (if s.pool.empty != [] && moved == bufSize then
                  && multiset(t.pool.empty) + multiset{s.pool.empty[0]} == multiset(s.pool.empty)
                  && t.pool.full == s.pool.full + [s.pool.empty[0]]
                  && t.sent == s.sent + [Message(FrameData(s.memory[s.pool.empty[0]], channel, bytes), bufSize + 4)]
                else
                  && multiset(t.pool.empty) == multiset(s.pool.empty)
                  && t.pool.full == s.pool.full && t.sent == s.sent)
    ensures AckBits(s.pool.empty == [], bufSize, moved) & DATA_ACK == DATA_ACK
  {
    if s.pool.empty != [] {
      FirstOf(s.pool.empty);
    }
  }

  /** The flag word after some bits of it have been raised. */
  function Raised(flag: bv32, bits: bv32): bv32 {
    flag | bits
  }

  /** Bits that are up stay up, the new ones come up, and no other does. */
  lemma RaisedStays(flag: bv32, bits: bv32)
    ensures Raised(flag, bits) & flag == flag
  {
  }

  lemma RaisedComesUp(flag: bv32, bits: bv32)
    ensures Raised(flag, bits) & bits == bits
  {
  }

  lemma RaisedAlone(flag: bv32, bits: bv32)
    ensures Raised(flag, bits) & !(flag | bits) == 0
  {
  }

  /** What the root complex reads from the flag word: the error bit is raised exactly by a call that had a buffer and
      did not queue the frame, and the acknowledge bit by every call. */
  lemma AckMeaning(s: System, bufSize: int, channel: int, moved: int, bytes: seq<int>)
    requires Ready(s)
    ensures var ack := AckBits(s.pool.empty == [], bufSize, moved);
            && (ack & 0x14 == 0x14 <==>
                  s.pool.empty != [] && AfterPutData(s, bufSize, channel, moved, bytes).sent == s.sent)
            && ack & 0x04 == 0x04
            && ack & !0x14 == 0
  {
  }

  /** A whole transfer into a pool with an empty buffer is acknowledged without error, and the message it adds reads as
      the channel and the frame. */
  lemma GoodFrameIsDelivered(s: System, bufSize: int, channel: int, bytes: seq<int>)
    requires Ready(s) && s.pool.empty != [] && |bytes| == bufSize
    ensures var t := AfterPutData(s, bufSize, channel, bufSize, bytes);
            && |t.sent| == |s.sent| + 1 && t.sent[..|s.sent|] == s.sent
            && var m := t.sent[|s.sent|];
               4 <= m.size <= |m.data| && ChannelOf(m) == channel % 256 && FrameOf(m) == bytes
    ensures AckBits(s.pool.empty == [], bufSize, bufSize) & 0x10 == 0
  {
    ReaderFindsFrame(s.memory[s.pool.empty[0]], channel, bytes);
  }

  class Endpoint {
    const pool: BufPool
    const memory: array<Data>
    var ackFlag: bv32

    constructor (pool: BufPool)
      ensures this.pool == pool && memory.Length == pool.virt.Length && fresh(memory) && ackFlag == 0
    {
      this.pool := pool;
      memory := new Data[pool.virt.Length](_ => []);
      ackFlag := 0;
    }

    /** The arrays and queues hold the pool and memory of s. */
    ghost predicate Represents(s: System)
      reads this, memory, pool, pool.virt, pool.size, pool.emptyQue, pool.fullQue
    {
      && pool.Valid() && pool.Abs() == s.pool && memory[..] == s.memory
    }

    method SendAck(cmd: bv32)
      modifies this`ackFlag
      ensures ackFlag == Raised(old(ackFlag), cmd)
    {
      ackFlag := ackFlag | cmd;
    }

    /** The channel byte, and what the DMA engine writes behind the header. */
    method FillBuffer(id: nat, channel: int, bytes: seq<int>)
      requires id < memory.Length
      modifies memory
      ensures memory[..] == old(memory[..])[id := FrameData(old(memory[id]), channel, bytes)]
    {
      memory[id] := FrameData(memory[id], channel, bytes);
    }

    /** Takes an empty buffer and has the frame put into it. */
    method LoadFrame(channel: int, bytes: seq<int>, ghost s: System) returns (bufPut: int)
      requires Represents(s) && Ready(s) && s.pool.empty != []
      modifies memory, pool.emptyQue
      ensures Represents(Loaded(s, channel, bytes)) && bufPut == s.pool.virt[s.pool.empty[0]]
    {
      var id := pool.GetEmptyBuf();
      bufPut := pool.virt[id.value];
      FillBuffer(id.value, channel, bytes);
    }

    /** Queues the buffer, or gives it back when the transfer was not whole. */
    method QueueFrame(bufPut: int, bufSize: int, channel: int, moved: int, bytes: seq<int>, ghost s: System)
      returns (ret: int)
      requires Ready(s) && s.pool.empty != [] && Represents(Loaded(s, channel, bytes))
      requires bufPut == s.pool.virt[s.pool.empty[0]]
      modifies this`ackFlag, pool.size, pool.emptyQue, pool.fullQue
      ensures Represents(AfterPutData(s, bufSize, channel, moved, bytes))
      ensures ret == if moved != bufSize then -1 else 0
      ensures ackFlag == Raised(old(ackFlag), if moved != bufSize then DATA_ACK_ERR else DATA_ACK)
    {
      if moved != bufSize {
        var status := pool.SetEmptyBuf(bufPut);
        SendAck(DATA_ACK_ERR);
        return -1;
      }
      var status := pool.SetFullBuf(bufPut, bufSize + 4);
      assert status == Done;  // so the error exit after a failed put is never taken
      SendAck(DATA_ACK);
      return 0;
    }

    /** The call when there is an empty buffer. */
    method PutFrame(bufSize: int, channel: int, moved: int, bytes: seq<int>, ghost s: System) returns (ret: int)
      requires Represents(s) && Ready(s) && s.pool.empty != []
      modifies this`ackFlag, memory, pool.size, pool.emptyQue, pool.fullQue
      ensures Represents(AfterPutData(s, bufSize, channel, moved, bytes))
      ensures ret == if moved != bufSize then -1 else 0
      ensures ackFlag == Raised(old(ackFlag), if moved != bufSize then DATA_ACK_ERR else DATA_ACK)
    {
      var bufPut := LoadFrame(channel, bytes, s);
      ret := QueueFrame(bufPut, bufSize, channel, moved, bytes, s);
    }

    /** `moved` is the byte count reported by the DMA engine and `bytes` what it wrote. */
    method PutDataBuf(bufSize: int, channel: int, moved: int, bytes: seq<int>, ghost s: System) returns (ret: int)
      requires Represents(s) && Ready(s)
      modifies this`ackFlag, memory, pool.size, pool.emptyQue, pool.fullQue
      ensures Represents(AfterPutData(s, bufSize, channel, moved, bytes))
      ensures ackFlag == Raised(old(ackFlag), AckBits(s.pool.empty == [], bufSize, moved))
      ensures ret == if s.pool.empty != [] && moved != bufSize then -1 else 0
      ensures ackFlag == Raised(old(ackFlag), if ret == -1 then 0x14 else 0x04)
    {
      if pool.emptyQue.bytes == [] {
        SendAck(DATA_ACK);
        ret := 0;
      } else {
        ret := PutFrame(bufSize, channel, moved, bytes, s);
      }
    }
  }
}
