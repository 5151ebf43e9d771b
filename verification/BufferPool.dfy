/** The zero-copy buffer pool: buffer ids circulate between an empty queue and a full queue, and
    clients hand buffers back by address.  The first half says what each call does to the pool as a
    value; the second half is the code on queues and arrays, tied to those operations. */
module BufferPool {
  import opened Wrappers

  /** Waits: the caller sleeps until the queue changes; nothing has happened yet. */
  datatype Status = Done | Failed | Waits

  const BUF_NUM_MAX: nat := 64

  /** A pool as a value.  Buffer id i lies at address virt[i] and currently holds size[i] bytes. */
  datatype Pool = Pool(virt: seq<int>, size: seq<int>, empty: seq<nat>, full: seq<nat>, capacity: nat)

  ghost predicate WellFormed(p: Pool) {
    && |p.size| == |p.virt| <= BUF_NUM_MAX
    && |p.virt| <= p.capacity
    && (forall i :: 0 <= i < |p.empty| ==> p.empty[i] < |p.virt|)
    && (forall i :: 0 <= i < |p.full| ==> p.full[i] < |p.virt|)
  }

  /** The ids 0..n-1 in order. */
  function Ids(n: nat): (ids: seq<nat>)
    ensures |ids| == n && forall i :: 0 <= i < n ==> ids[i] == i
  {
    seq(n, i => i)
  }

  /** The first id whose buffer lies at the address; None when there is none. */
  function Lookup(virt: seq<int>, address: int): (id: Option<nat>)
    ensures id.Some? ==> id.value < |virt| && virt[id.value] == address
    ensures id.Some? ==> forall i :: 0 <= i < id.value ==> virt[i] != address
    ensures id.None? ==> address !in virt
  {
    if virt == [] then None
    else
      var front := virt[..|virt| - 1];
      var found := Lookup(front, address);
      if found.Some? then found else if virt[|virt| - 1] == address then Some(|virt| - 1) else None
  }

  function Fresh(virt: seq<int>, capacity: nat): Pool {
    Pool(virt, seq(|virt|, _ => 0), Ids(|virt|), [], capacity)
  }

  function Reset(p: Pool): Pool {
    p.(empty := Ids(|p.virt|), full := [])
  }

  /** The oldest empty buffer; None while there is none. */
  function GetEmpty(p: Pool): (Pool, Option<nat>) {
    if p.empty == [] then (p, None) else (p.(empty := p.empty[1..]), Some(p.empty[0]))
  }

  function GetFull(p: Pool): (Pool, Option<nat>) {
    if p.full == [] then (p, None) else (p.(full := p.full[1..]), Some(p.full[0]))
  }

  /** Handing back a filled buffer: its size is recorded before the id is queued. */
  function SetFull(p: Pool, address: int, size: int): (Pool, Status)
    requires |p.size| == |p.virt|
  {
    match Lookup(p.virt, address)
    case None => (p, Failed)
    case Some(id) =>
      var q := p.(size := p.size[id := size]);
      if |p.full| < p.capacity then (q.(full := p.full + [id]), Done) else (q, Waits)
  }

  function SetEmpty(p: Pool, address: int): (Pool, Status) {
    match Lookup(p.virt, address)
    case None => (p, Failed)
    case Some(id) =>
      if |p.empty| < p.capacity then (p.(empty := p.empty + [id]), Done) else (p, Waits)
  }

  predicate Distinct(s: seq<int>) {
    forall i, j :: 0 <= i < j < |s| ==> s[i] != s[j]
  }

  /** With distinct addresses the scan inverts the id-to-address table. */
  lemma LookupInverts(virt: seq<int>, id: nat)
    requires Distinct(virt) && id < |virt|
    ensures Lookup(virt, virt[id]) == Some(id)
  {
  }

  /* ---------------------------------------------------------------- the code */

  /** The kernel's byte fifo. */
  class Kfifo {
    const capacity: nat
    var bytes: seq<nat>

    constructor (capacity: nat)
      ensures this.capacity == capacity && bytes == []
    {
      this.capacity := capacity;
      bytes := [];
    }

    /** One pass of the retry loop: the value is queued as a byte, unless the fifo is full. */
    method QuePut(value: nat, forever: bool) returns (status: Status)
      modifies this
      ensures if |old(bytes)| >= capacity then bytes == old(bytes) && status == (if forever then Waits else Failed)
              else bytes == old(bytes) + [value % 256] && status == Done
    {
      if |bytes| >= capacity {
        if !forever {
          return Failed;
        }
        status := Waits;
      } else {
        bytes := bytes + [value % 256];
        status := Done;
      }
    }

    method QueGet(forever: bool) returns (status: Status, value: nat)
      modifies this
      ensures if old(bytes) == [] then bytes == old(bytes) && status == (if forever then Waits else Failed)
              else status == Done && [value] + bytes == old(bytes)
    {
      value := 0;
      if bytes == [] {
        if !forever {
          return Failed, value;
        }
        status := Waits;
      } else {
        value := bytes[0];
        bytes := bytes[1..];
        status := Done;
      }
    }

    method QueReset()
      modifies this
      ensures bytes == []
    {
      bytes := [];
    }
  }

  class BufPool {
    const virt: array<int>
    const size: array<int>
    const emptyQue: Kfifo
    const fullQue: Kfifo

    /** The pool as a value. */
    ghost function Abs(): Pool
      reads this, virt, size, emptyQue, fullQue
    {
      Pool(virt[..], size[..], emptyQue.bytes, fullQue.bytes, emptyQue.capacity)
    }

    ghost predicate Valid()
      reads this, virt, size, emptyQue, fullQue
    {
      && virt != size && emptyQue != fullQue && emptyQue.capacity == fullQue.capacity
      && virt.Length == size.Length
      && WellFormed(Abs())
    }

    constructor (addresses: seq<int>, capacity: nat)
      requires |addresses| <= BUF_NUM_MAX && |addresses| <= capacity
      ensures virt.Length == size.Length == |addresses| && virt[..] == addresses
      ensures forall i :: 0 <= i < size.Length ==> size[i] == 0
      ensures emptyQue.bytes == fullQue.bytes == []
      ensures emptyQue.capacity == fullQue.capacity == capacity
      ensures virt != size && emptyQue != fullQue && fresh(virt) && fresh(size) && fresh(emptyQue) && fresh(fullQue)
    {
      virt := new int[|addresses|](i requires 0 <= i < |addresses| => addresses[i]);
      size := new int[|addresses|](_ => 0);
      emptyQue := new Kfifo(capacity);
      fullQue := new Kfifo(capacity);
    }

    /** Creation fails only for more than 64 buffers; otherwise every buffer starts out empty. */
    static method Create(addresses: seq<int>, capacity: nat) returns (r: Option<BufPool>)
      requires |addresses| <= capacity
      ensures r.None? <==> |addresses| > BUF_NUM_MAX
      ensures r.Some? ==> fresh(r.value) && r.value.Valid() && r.value.Abs() == Fresh(addresses, capacity)
    {
      if |addresses| > BUF_NUM_MAX {
        return None;
      }
      var pool := new BufPool(addresses, capacity);
      pool.FillEmpty();
      return Some(pool);
    }

    /** Queues every id on the empty queue, in order. */
    method FillEmpty()
      requires emptyQue.bytes == [] && emptyQue != fullQue
      requires virt.Length <= BUF_NUM_MAX && virt.Length <= emptyQue.capacity
      modifies emptyQue
      ensures emptyQue.bytes == Ids(virt.Length)
    {
      for i := 0 to virt.Length
        invariant emptyQue.bytes == Ids(i)
      {
        var status := emptyQue.QuePut(i, true);
      }
    }

    method BufReset()
      requires Valid()
      modifies emptyQue, fullQue
      ensures Valid() && Abs() == Reset(old(Abs()))
    {
      emptyQue.QueReset();
      fullQue.QueReset();
      FillEmpty();
    }

    /** The linear scan that turns an address back into an id; virt.Length when it is not in the pool. */
    method Find(address: int) returns (i: nat)
      ensures i <= virt.Length
      ensures Lookup(virt[..], address) == if i < virt.Length then Some(i) else None
    {
      i := 0;
      while i < virt.Length
        invariant i <= virt.Length
        invariant Lookup(virt[..i], address) == None
      {
        assert virt[..i + 1][..i] == virt[..i];
        if address == virt[i] {
          LookupPrefix(virt[..], address, i);
          return;
        }
        i := i + 1;
      }
      assert virt[..i] == virt[..];
    }

    method GetEmptyBuf() returns (id: Option<nat>)
      requires Valid()
      modifies emptyQue
      ensures Valid() && (Abs(), id) == GetEmpty(old(Abs()))
    {
      ghost var before := emptyQue.bytes;
      var status, value := emptyQue.QueGet(true);
      id := if status == Done then Some(value) else None;
      assert status == Done ==> emptyQue.bytes == before[1..];
    }

    method GetFullBuf() returns (id: Option<nat>)
      requires Valid()
      modifies fullQue
      ensures Valid() && (Abs(), id) == GetFull(old(Abs()))
    {
      ghost var before := fullQue.bytes;
      var status, value := fullQue.QueGet(true);
      id := if status == Done then Some(value) else None;
      assert status == Done ==> fullQue.bytes == before[1..];
    }

    method SetFullBuf(address: int, bufSize: int) returns (status: Status)
      requires Valid()
      modifies size, fullQue
      ensures Valid() && (Abs(), status) == SetFull(old(Abs()), address, bufSize)
    {
      var i := Find(address);
      if i == virt.Length {
        return Failed;
      }
      size[i] := bufSize;
      status := fullQue.QuePut(i, true);
    }

    method SetEmptyBuf(address: int) returns (status: Status)
      requires Valid()
      modifies emptyQue
      ensures Valid() && (Abs(), status) == SetEmpty(old(Abs()), address)
    {
      var i := Find(address);
      if i == virt.Length {
        return Failed;
      }
      status := emptyQue.QuePut(i, true);
    }
  }

  lemma {:induction false} LookupPrefix(virt: seq<int>, address: int, i: nat)
    requires i < |virt| && virt[i] == address && Lookup(virt[..i], address) == None
    ensures Lookup(virt, address) == Some(i)
  {
  }
}
