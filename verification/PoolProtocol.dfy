/** Producer and consumer sharing a buffer pool, step by step.

    Each side owns the buffers it has taken and not handed back.  The pool refines a plain queue of
    messages: what the consumer is given is what the producer put in, in that order, although only
    buffer ids move. */
module PoolProtocol {
  import opened BufferPool
  import opened Wrappers

  type Data(!new, ==, 0) = seq<int>

  datatype Message = Message(data: Data, size: int)

  datatype System = System(
    pool: Pool,
    memory: seq<Data>,            // what is stored in each buffer
    producer: set<nat>,           // ids the producer holds
    consumer: map<nat, Message>,  // ids the consumer holds, and the message it got with each
    sent: seq<Message>,           // messages put in and not discarded by a reset
    got: seq<Message>             // messages taken out
  )

  datatype Event =
    | TakeEmpty
    | Write(id: nat, data: Data)
    | PutFull(address: int, size: int)
    | GiveBack(address: int)
    | TakeFull
    | PutEmpty(address: int)
    | ResetPool

  /** Clients touch and hand back only buffers they hold, and reset only a pool nobody holds buffers of. */
  ghost predicate Allowed(s: System, e: Event) {
    match e
    case TakeEmpty => true
    case Write(id, _) => id in s.producer && id < |s.memory|
    case PutFull(address, _) => exists id :: id in s.producer && id < |s.pool.virt| && s.pool.virt[id] == address
    case GiveBack(address) => exists id :: id in s.producer && id < |s.pool.virt| && s.pool.virt[id] == address
    case TakeFull => true
    case PutEmpty(address) => exists id :: id in s.consumer && id < |s.pool.virt| && s.pool.virt[id] == address
    case ResetPool => s.producer == {} && s.consumer == map[]
  }

  /** The effect of a step.  A call that waits or fails leaves the holder holding. */
  ghost function Step(s: System, e: Event): System
    requires Inv(s) && Allowed(s, e)
  {
    match e
    case TakeEmpty =>
      var (p, id) := GetEmpty(s.pool);
      if id.None? then s.(pool := p) else s.(pool := p, producer := s.producer + {id.value})
    case Write(id, data) =>
      s.(memory := s.memory[id := data])
    case PutFull(address, size) =>
      var (p, status) := SetFull(s.pool, address, size);
      var id := Lookup(s.pool.virt, address).value;
      if status == Done then
        s.(pool := p, producer := s.producer - {id}, sent := s.sent + [Message(s.memory[id], size)])
      else s.(pool := p)
    case GiveBack(address) =>
      var (p, status) := SetEmpty(s.pool, address);
      if status == Done then s.(pool := p, producer := s.producer - {Lookup(s.pool.virt, address).value})
      else s.(pool := p)
    case TakeFull =>
      var (p, id) := GetFull(s.pool);
      if id.None? then s.(pool := p)
      else
        var m := Message(s.memory[id.value], s.pool.size[id.value]);
        s.(pool := p, consumer := s.consumer[id.value := m], got := s.got + [m])
    case PutEmpty(address) =>
      var (p, status) := SetEmpty(s.pool, address);
      if status == Done then s.(pool := p, consumer := s.consumer - {Lookup(s.pool.virt, address).value})
      else s.(pool := p)
    case ResetPool =>
      s.(pool := Reset(s.pool), sent := s.got)
  }

  /** The messages waiting in the full queue, read through memory and size table. */
  ghost function Waiting(memory: seq<Data>, size: seq<int>, full: seq<nat>): seq<Message>
    requires |memory| == |size| && forall i :: 0 <= i < |full| ==> full[i] < |size|
  {
    seq(|full|, i requires 0 <= i < |full| => Message(memory[full[i]], size[full[i]]))
  }

  function AllIds(n: nat): (ids: set<nat>)
    ensures forall i: nat :: i in ids <==> i < n
  {
    if n == 0 then {} else AllIds(n - 1) + {n - 1}
  }

  /** Where every id is, with multiplicity. */
  ghost function Whereabouts(s: System): multiset<nat> {
    multiset(s.pool.empty) + multiset(s.pool.full) + multiset(s.producer) + multiset(s.consumer.Keys)
  }

  ghost predicate Inv(s: System) {
    && WellFormed(s.pool)
    && |s.memory| == |s.pool.virt|
    && Distinct(s.pool.virt)
    && Whereabouts(s) == multiset(AllIds(|s.pool.virt|))
    && s.sent == s.got + Waiting(s.memory, s.pool.size, s.pool.full)
    && (forall id :: id in s.consumer ==>
          id < |s.pool.virt| && s.consumer[id] == Message(s.memory[id], s.pool.size[id]))
  }

  function Start(virt: seq<int>, memory: seq<Data>, capacity: nat): System {
    System(Fresh(virt, capacity), memory, {}, map[], [], [])
  }

  lemma {:induction false} IdsAreAll(n: nat)
    ensures multiset(Ids(n)) == multiset(AllIds(n))
  {
    if n > 0 {
      IdsAreAll(n - 1);
      assert Ids(n) == Ids(n - 1) + [n - 1];
    }
  }

  lemma StartInv(virt: seq<int>, memory: seq<Data>, capacity: nat)
    requires |virt| == |memory| <= BUF_NUM_MAX && |virt| <= capacity && Distinct(virt)
    ensures Inv(Start(virt, memory, capacity))
  {
    IdsAreAll(|virt|);
  }

  /** Every id is in exactly one place. */
  lemma ExactlyOnePlace(s: System, id: nat)
    requires Inv(s) && id < |s.pool.virt|
    ensures multiset(s.pool.empty)[id] + multiset(s.pool.full)[id]
            + (if id in s.producer then 1 else 0) + (if id in s.consumer then 1 else 0) == 1
  {
    assert id in AllIds(|s.pool.virt|);
    assert Whereabouts(s)[id] == multiset(AllIds(|s.pool.virt|))[id] == 1;
  }

  lemma NoOtherIds(s: System, id: nat)
    requires Inv(s) && id >= |s.pool.virt|
    ensures id !in s.pool.empty && id !in s.pool.full && id !in s.producer && id !in s.consumer
  {
    assert Whereabouts(s)[id] == 0;
  }

  /** A held buffer leaves room for itself in either queue. */
  lemma RoomForHeld(s: System, id: nat)
    requires Inv(s) && (id in s.producer || id in s.consumer)
    ensures |s.pool.full| < s.pool.capacity && |s.pool.empty| < s.pool.capacity
  {
    var n := |s.pool.virt|;
    AllIdsSize(n);
    assert |Whereabouts(s)| == |s.pool.empty| + |s.pool.full| + |s.producer| + |s.consumer.Keys|;
    assert |multiset(AllIds(n))| == n;
    if id in s.producer {
      assert |s.producer| > 0;
    } else {
      assert |s.consumer.Keys| > 0;
    }
  }

  lemma {:induction false} AllIdsSize(n: nat)
    ensures |AllIds(n)| == n
  {
    if n > 0 {
      AllIdsSize(n - 1);
    }
  }

  /** Putting back a held buffer never waits and never fails. */
  lemma HeldPutsSucceed(s: System, id: nat, size: int)
    requires Inv(s) && (id in s.producer || id in s.consumer)
    ensures id < |s.pool.virt|
    ensures SetFull(s.pool, s.pool.virt[id], size).1 == Done
    ensures SetEmpty(s.pool, s.pool.virt[id]).1 == Done
  {
    if id >= |s.pool.virt| {
      NoOtherIds(s, id);
    }
    RoomForHeld(s, id);
    LookupInverts(s.pool.virt, id);
  }

  /* ---------------------------------------------------------------- the steps keep the invariant */

  /** A held id is in neither queue and not held by the other side. */
  lemma HeldAlone(s: System, id: nat)
    requires Inv(s) && (id in s.producer || id in s.consumer)
    ensures id !in s.pool.empty && id !in s.pool.full && id < |s.pool.virt|
    ensures id in s.producer ==> id !in s.consumer
  {
    if id >= |s.pool.virt| {
      NoOtherIds(s, id);
    } else {
      ExactlyOnePlace(s, id);
      assert multiset(s.pool.empty)[id] == 0 && multiset(s.pool.full)[id] == 0;
    }
  }

  lemma QueuedAlone(s: System, id: nat)
    requires Inv(s) && (id in s.pool.empty || id in s.pool.full)
    ensures id < |s.pool.virt| && id !in s.producer && id !in s.consumer
  {
    if id >= |s.pool.virt| {
      NoOtherIds(s, id);
    } else {
      ExactlyOnePlace(s, id);
      assert multiset(s.pool.empty)[id] + multiset(s.pool.full)[id] > 0;
    }
  }

  lemma FirstOf(ids: seq<nat>)
    requires ids != []
    ensures multiset(ids) == multiset{ids[0]} + multiset(ids[1..])
  {
    assert ids == [ids[0]] + ids[1..];
  }

  lemma AddHolder(holders: set<nat>, id: nat)
    requires id !in holders
    ensures multiset(holders + {id}) == multiset(holders) + multiset{id}
  {
  }

  lemma DropHolder(holders: set<nat>, id: nat)
    requires id in holders
    ensures multiset(holders) == multiset(holders - {id}) + multiset{id}
  {
  }

  lemma WaitingSame(memory: seq<Data>, size: seq<int>, full: seq<nat>, id: nat, data: Data, sz: int)
    requires |memory| == |size| && id < |size| && id !in full
    requires forall i :: 0 <= i < |full| ==> full[i] < |size|
    ensures Waiting(memory[id := data], size[id := sz], full) == Waiting(memory, size, full)
  {
  }

  lemma TakeEmptyKeepsInv(s: System)
    requires Inv(s)
    ensures Inv(Step(s, TakeEmpty))
  {
    if s.pool.empty != [] {
      QueuedAlone(s, s.pool.empty[0]);
      AfterTakeEmptyInv(s, s.pool.empty[0]);
    }
  }

  lemma AfterTakeEmptyInv(s: System, id: nat)
    requires Inv(s) && s.pool.empty != [] && id == s.pool.empty[0] && id !in s.producer
    ensures Inv(s.(pool := s.pool.(empty := s.pool.empty[1..]), producer := s.producer + {id}))
  {
    FirstOf(s.pool.empty);
    AddHolder(s.producer, id);
  }

  lemma WriteKeepsInv(s: System, id: nat, data: Data)
    requires Inv(s) && Allowed(s, Write(id, data))
    ensures Inv(Step(s, Write(id, data)))
  {
    HeldAlone(s, id);
    WaitingSame(s.memory, s.pool.size, s.pool.full, id, data, s.pool.size[id]);
    assert s.pool.size[id := s.pool.size[id]] == s.pool.size;
  }

  /** The id behind an address handed back by its holder. */
  lemma HolderId(s: System, holders: set<nat>, address: int) returns (id: nat)
    requires Distinct(s.pool.virt)
    requires exists h :: h in holders && h < |s.pool.virt| && s.pool.virt[h] == address
    ensures id in holders && id < |s.pool.virt| && s.pool.virt[id] == address
    ensures Lookup(s.pool.virt, address) == Some(id)
  {
    id :| id in holders && id < |s.pool.virt| && s.pool.virt[id] == address;
    LookupInverts(s.pool.virt, id);
  }

  /** The state after a filled buffer was queued. */
  ghost function AfterPutFull(s: System, id: nat, size: int): System
    requires id < |s.memory| && id < |s.pool.size|
  {
    s.(pool := s.pool.(size := s.pool.size[id := size], full := s.pool.full + [id]),
       producer := s.producer - {id},
       sent := s.sent + [Message(s.memory[id], size)])
  }

  lemma PutFullEffect(s: System, address: int, size: int) returns (id: nat)
    requires Inv(s) && Allowed(s, PutFull(address, size))
    ensures id in s.producer && id < |s.pool.virt| && Lookup(s.pool.virt, address) == Some(id)
    ensures Step(s, PutFull(address, size)) == AfterPutFull(s, id, size)
  {
    id := HolderId(s, s.producer, address);
    HeldPutsSucceed(s, id, size);
  }

  lemma PutFullKeepsInv(s: System, address: int, size: int)
    requires Inv(s) && Allowed(s, PutFull(address, size))
    ensures Inv(Step(s, PutFull(address, size)))
  {
    var id := PutFullEffect(s, address, size);
    AfterPutFullInv(s, id, size);
  }

  lemma AfterPutFullPlaces(s: System, id: nat, size: int)
    requires Inv(s) && id in s.producer && id < |s.pool.virt|
    ensures Whereabouts(AfterPutFull(s, id, size)) == Whereabouts(s)
  {
    DropHolder(s.producer, id);
  }

  lemma AfterPutFullInv(s: System, id: nat, size: int)
    requires Inv(s) && id in s.producer && id < |s.pool.virt|
    ensures Inv(AfterPutFull(s, id, size))
  {
    HeldAlone(s, id);
    AfterPutFullPlaces(s, id, size);
    WaitingAppend(s.memory, s.pool.size, s.pool.full, id, size);
  }

  lemma WaitingAppend(memory: seq<Data>, size: seq<int>, full: seq<nat>, id: nat, sz: int)
    requires |memory| == |size| && id < |size| && id !in full
    requires forall i :: 0 <= i < |full| ==> full[i] < |size|
    ensures Waiting(memory, size[id := sz], full + [id]) == Waiting(memory, size, full) + [Message(memory[id], sz)]
  {
  }

  lemma AfterGiveBackInv(s: System, id: nat)
    requires Inv(s) && id in s.producer && id < |s.pool.virt|
    ensures Inv(s.(pool := s.pool.(empty := s.pool.empty + [id]), producer := s.producer - {id}))
  {
    DropHolder(s.producer, id);
  }

  lemma GiveBackKeepsInv(s: System, address: int)
    requires Inv(s) && Allowed(s, GiveBack(address))
    ensures Inv(Step(s, GiveBack(address)))
  {
    var id := HolderId(s, s.producer, address);
    HeldPutsSucceed(s, id, 0);
    AfterGiveBackInv(s, id);
  }

  lemma TakeFullKeepsInv(s: System)
    requires Inv(s)
    ensures Inv(Step(s, TakeFull))
  {
    if s.pool.full != [] {
      var id := s.pool.full[0];
      QueuedAlone(s, id);
      var m := Message(s.memory[id], s.pool.size[id]);
      AfterTakeFullInv(s, id, m);
    }
  }

  lemma AfterTakeFullInv(s: System, id: nat, m: Message)
    requires Inv(s) && s.pool.full != [] && id == s.pool.full[0] && id < |s.pool.virt| && id !in s.consumer
    requires m == Message(s.memory[id], s.pool.size[id])
    ensures Inv(s.(pool := s.pool.(full := s.pool.full[1..]), consumer := s.consumer[id := m], got := s.got + [m]))
  {
    FirstOf(s.pool.full);
    AddConsumer(s.consumer, id, m);
    WaitingFirst(s.memory, s.pool.size, s.pool.full);
    AppendAssociates(s.got, [m], Waiting(s.memory, s.pool.size, s.pool.full[1..]));
  }

  lemma AddConsumer(consumer: map<nat, Message>, id: nat, m: Message)
    requires id !in consumer
    ensures multiset(consumer[id := m].Keys) == multiset(consumer.Keys) + multiset{id}
  {
  }

  lemma WaitingFirst(memory: seq<Data>, size: seq<int>, full: seq<nat>)
    requires |memory| == |size| && full != []
    requires forall i :: 0 <= i < |full| ==> full[i] < |size|
    ensures Waiting(memory, size, full) == [Message(memory[full[0]], size[full[0]])] + Waiting(memory, size, full[1..])
  {
  }

  lemma PutEmptyKeepsInv(s: System, address: int)
    requires Inv(s) && Allowed(s, PutEmpty(address))
    ensures Inv(Step(s, PutEmpty(address)))
  {
    assert exists h :: h in s.consumer.Keys && h < |s.pool.virt| && s.pool.virt[h] == address;
    var id := HolderId(s, s.consumer.Keys, address);
    HeldPutsSucceed(s, id, 0);
    AfterPutEmptyInv(s, id);
  }

  lemma AfterPutEmptyInv(s: System, id: nat)
    requires Inv(s) && id in s.consumer && id < |s.pool.virt|
    ensures Inv(s.(pool := s.pool.(empty := s.pool.empty + [id]), consumer := s.consumer - {id}))
  {
    assert (s.consumer - {id}).Keys == s.consumer.Keys - {id};
    DropHolder(s.consumer.Keys, id);
  }

  lemma ResetKeepsInv(s: System)
    requires Inv(s) && Allowed(s, ResetPool)
    ensures Inv(Step(s, ResetPool))
  {
    IdsAreAll(|s.pool.virt|);
  }

  lemma StepKeepsInv(s: System, e: Event)
    requires Inv(s) && Allowed(s, e)
    ensures Inv(Step(s, e))
  {
    match e
    case TakeEmpty => TakeEmptyKeepsInv(s);
    case Write(id, data) => WriteKeepsInv(s, id, data);
    case PutFull(address, size) => PutFullKeepsInv(s, address, size);
    case GiveBack(address) => GiveBackKeepsInv(s, address);
    case TakeFull => TakeFullKeepsInv(s);
    case PutEmpty(address) => PutEmptyKeepsInv(s, address);
    case ResetPool => ResetKeepsInv(s);
  }

  /* ---------------------------------------------------------------- every interleaving */

  /** s' is reached from s by these steps of the two clients, in this order. */
  ghost predicate Run(s: System, events: seq<Event>, s': System)
    decreases |events|
  {
    if events == [] then s == s'
    else Inv(s) && Allowed(s, events[0]) && Run(Step(s, events[0]), events[1..], s')
  }

  lemma {:induction false} RunKeepsInv(s: System, events: seq<Event>, s': System)
    requires Inv(s) && Run(s, events, s')
    ensures Inv(s')
    decreases |events|
  {
    if events != [] {
      StepKeepsInv(s, events[0]);
      RunKeepsInv(Step(s, events[0]), events[1..], s');
    }
  }

  /** The pool refines a first-in first-out queue of messages, for every interleaving: what was got is a
      prefix of what was sent, the difference is what waits in the full queue, a message stays intact
      while its buffer is held, and every id is in exactly one of the four places. */
  lemma PoolRefinesFifo(virt: seq<int>, memory: seq<Data>, capacity: nat, events: seq<Event>, s: System)
    requires |virt| == |memory| <= BUF_NUM_MAX && |virt| <= capacity && Distinct(virt)
    requires Run(Start(virt, memory, capacity), events, s)
    ensures WellFormed(s.pool) && |s.memory| == |s.pool.virt|
    ensures s.got <= s.sent
    ensures s.sent[|s.got|..] == Waiting(s.memory, s.pool.size, s.pool.full)
    ensures forall id :: id in s.consumer ==>
              id < |s.memory| && s.consumer[id] == Message(s.memory[id], s.pool.size[id])
    ensures forall id: nat :: id < |s.pool.virt| ==>
              multiset(s.pool.empty)[id] + multiset(s.pool.full)[id]
              + (if id in s.producer then 1 else 0) + (if id in s.consumer then 1 else 0) == 1
  {
    StartInv(virt, memory, capacity);
    RunKeepsInv(Start(virt, memory, capacity), events, s);
    forall id: nat | id < |s.pool.virt|
      ensures multiset(s.pool.empty)[id] + multiset(s.pool.full)[id]
              + (if id in s.producer then 1 else 0) + (if id in s.consumer then 1 else 0) == 1
    {
      ExactlyOnePlace(s, id);
    }
  }

  /** The message a step puts into the pool, if it is a put. */
  ghost function Put(s: System, e: Event): seq<Message>
    requires Inv(s)
  {
    if e.PutFull? && Lookup(s.pool.virt, e.address).Some?
    then [Message(s.memory[Lookup(s.pool.virt, e.address).value], e.size)] else []
  }

  /** The messages put in by the calls of a run. */
  ghost function PutLog(s: System, events: seq<Event>): seq<Message>
    requires Inv(s)
    decreases |events|
  {
    if events == [] || !Allowed(s, events[0]) then []
    else
      StepKeepsInv(s, events[0]);
      Put(s, events[0]) + PutLog(Step(s, events[0]), events[1..])
  }

  lemma StepSends(s: System, e: Event)
    requires Inv(s) && Allowed(s, e) && !e.ResetPool?
    ensures Step(s, e).sent == s.sent + Put(s, e)
  {
    if e.PutFull? {
      var id := PutFullEffect(s, e.address, e.size);
    }
  }

  lemma AppendAssociates(a: seq<Message>, b: seq<Message>, c: seq<Message>)
    ensures a + (b + c) == a + b + c
  {
  }

  /** Without resets nothing is lost: everything ever put full is got or still waiting. */
  lemma {:induction false} NothingLost(s: System, events: seq<Event>, s': System)
    requires Inv(s) && Run(s, events, s')
    requires ResetPool !in events
    ensures s'.sent == s.sent + PutLog(s, events)
    decreases |events|
  {
    if events != [] {
      var e, t := events[0], Step(s, events[0]);
      StepKeepsInv(s, e);
      StepSends(s, e);
      NothingLost(t, events[1..], s');
      AppendAssociates(s.sent, Put(s, e), PutLog(t, events[1..]));
    }
  }

  /* ---------------------------------------------------------------- nobody waits without a reason */

  /** A client that asks gets the oldest buffer there is, the consumer with the message that was put into it; it waits
      only when there is none. */
  lemma TakesSucceed(s: System)
    requires Inv(s)
    ensures if s.pool.empty == [] then Step(s, TakeEmpty) == s
            else Step(s, TakeEmpty).producer == s.producer + {s.pool.empty[0]}
                 && Step(s, TakeEmpty).pool.empty == s.pool.empty[1..]
    ensures if s.pool.full == [] then Step(s, TakeFull) == s
            else Step(s, TakeFull).pool.full == s.pool.full[1..] && s.pool.full[0] in Step(s, TakeFull).consumer
                 && |s.sent| > |s.got| && Step(s, TakeFull).got == s.got + [s.sent[|s.got|]]
    ensures Step(s, TakeEmpty).sent == Step(s, TakeFull).sent == s.sent
  {
    if s.pool.full != [] {
      var waiting := Waiting(s.memory, s.pool.size, s.pool.full);
      assert s.sent[|s.got|] == waiting[0];
    }
  }

  /** Handing back by an address that is not in the pool fails and changes nothing. */
  lemma StrangersFail(p: Pool, address: int, size: int)
    requires |p.size| == |p.virt| && address !in p.virt
    ensures SetFull(p, address, size) == (p, Failed) && SetEmpty(p, address) == (p, Failed)
  {
  }

  /** A reset puts every buffer into the empty queue, by number, and forgets what was waiting. */
  lemma ResetRefills(s: System)
    requires Inv(s) && Allowed(s, ResetPool)
    ensures var p := Step(s, ResetPool).pool;
            && p.full == [] && |p.empty| == |s.pool.virt| && forall i :: 0 <= i < |p.empty| ==> p.empty[i] == i
  {
  }

  function Takes(n: nat): (events: seq<Event>)
    ensures |events| == n && forall i :: 0 <= i < n ==> events[i] == TakeFull
  {
    seq(n, _ => TakeFull)
  }

  lemma OneTake(s: System) returns (t: System)
    requires Inv(s) && s.pool.full != []
    ensures Inv(t) && |t.pool.full| == |s.pool.full| - 1 && t.sent == s.sent
    ensures forall events, s' :: events != [] && events[0] == TakeFull && Run(t, events[1..], s') ==> Run(s, events, s')
  {
    t := Step(s, TakeFull);
    TakesSucceed(s);
    StepKeepsInv(s, TakeFull);
  }

  /** Everything that has been sent comes out: as many takes as there are full buffers bring the consumer all of it. */
  lemma {:induction false} Drains(s: System, n: nat) returns (s': System)
    requires Inv(s) && n == |s.pool.full|
    ensures Run(s, Takes(n), s') && s'.got == s.sent
    decreases n
  {
    if n == 0 {
      s' := s;
    } else {
      var t := OneTake(s);
      s' := Drains(t, n - 1);
      assert Takes(n)[1..] == Takes(n - 1);
      assert Run(s, Takes(n), s');
    }
  }
}
