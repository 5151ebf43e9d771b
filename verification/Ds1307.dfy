/** Reading and writing a block of clock-chip registers one byte at a time, on a bus where the chip keeps
    changing the registers.  Repeating the sweep until two sweeps agree yields a snapshot. */
module Ds1307 {

  type u8 = x: int | 0 <= x < 256

  const BLOCK_DATA_MAX_TRIES: nat := 10
  const I2C_SMBUS_BLOCK_MAX: nat := 32
  const EIO: int := 5

  /** Everything outside the driver: what each register holds at each time, when the k-th bus access
      takes place, and which accesses fail (a negative code) rather than succeed (0). */
  datatype World = World(register: (nat, u8) -> u8, time: nat -> nat, error: nat -> int)

  /** Accesses happen one after the other. */
  ghost predicate Ordered(w: World) {
    forall j: nat, k: nat :: j < k ==> w.time(j) < w.time(k)
  }

  /** The register address of the i-th byte of a block; addresses are bytes. */
  function Address(command: u8, i: nat): u8 {
    (command + i) % 256
  }

  /** What the k-th access would read from the i-th register of the block. */
  function Reading(w: World, command: u8, k: nat, i: nat): u8 {
    w.register(w.time(k), Address(command, i))
  }

  /** The sweep whose first access is number k read these values. */
  ghost predicate SweepRead(w: World, command: u8, k: nat, values: seq<u8>) {
    forall i :: 0 <= i < |values| ==> values[i] == Reading(w, command, k + i, i)
  }

  /** What a sweep without errors reads when its first access is number k. */
  ghost function SweepValues(w: World, command: u8, length: nat, k: nat): seq<u8> {
    seq<u8>(length, i requires 0 <= i => Reading(w, command, k + i, i))
  }

  /** Two sweeps of the same block, by their first accesses, read different values. */
  ghost predicate Differ(w: World, command: u8, length: nat, j: nat, k: nat) {
    SweepValues(w, command, length, j) != SweepValues(w, command, length, k)
  }

  /** Of the sweeps that follow one another from access `start` on, each of the first n differs from the next. */
  ghost predicate Disagreed(w: World, command: u8, length: nat, start: nat, n: nat) {
    n == 0 || (Disagreed(w, command, length, start, n - 1)
               && Differ(w, command, length, start + Swept(n - 1, length), start + Swept(n, length)))
  }

  /** The number of bus accesses in n sweeps: n times the length of one. */
  function Swept(n: nat, length: nat): nat {
    if n == 0 then 0 else Swept(n - 1, length) + length
  }

  lemma {:induction false} SweptIsProduct(n: nat, length: nat)
    ensures Swept(n, length) == n * length
  {
    if n > 0 {
      SweptIsProduct(n - 1, length);
    }
  }

  lemma DifferentReadings(w: World, command: u8, j: nat, k: nat, a: seq<u8>, b: seq<u8>)
    requires |a| == |b| && a != b && SweepRead(w, command, j, a) && SweepRead(w, command, k, b)
    ensures Differ(w, command, |a|, j, k)
  {
    assert a == SweepValues(w, command, |a|, j) && b == SweepValues(w, command, |a|, k);
  }

  lemma OneSweep(length: nat)
    ensures Swept(1, length) == length
  {
  }

  /** How a block read that took the bus from access start to access end may come out: the first two sweeps in a row
      that agree, the error of the very last access, or eleven sweeps, each of which differs from the next. */
  ghost predicate ReadOutcome(w: World, command: u8, length: nat, start: nat, end: nat, ret: int, sweeps: nat,
                              last: nat, values: seq<u8>)
  {
    && 1 <= sweeps <= BLOCK_DATA_MAX_TRIES + 1 && end <= start + Swept(sweeps, length)
    && (ret < 0 ==> (start < end && w.error(end - 1) == ret)
                    || (ret == -EIO && sweeps == BLOCK_DATA_MAX_TRIES + 1 && end == start + Swept(sweeps, length)
                        && Disagreed(w, command, length, start, sweeps - 1)))
    && (ret >= 0 ==> ret == length && sweeps >= 2 && start + length <= last && end == last + length)
    && (ret >= 0 ==> Disagreed(w, command, length, start, sweeps - 2) && Agreement(w, command, length, last, values))
  }

  /** The sweep that began with access `last` and the one right before it read the same values. */
  ghost predicate Agreement(w: World, command: u8, length: nat, last: nat, values: seq<u8>) {
    length <= last && SweepRead(w, command, last - length, values) && SweepRead(w, command, last, values)
  }

  /* ---------------------------------------------------------------- what is written */

  /** One byte written: with which bus access, to which register, and what. */
  datatype Written = Written(access: nat, address: u8, value: u8)

  /** One pass over the block, from this access on. */
  function Pass(command: u8, values: seq<u8>, access: nat): (log: seq<Written>)
    ensures |log| == |values|
  {
    seq(|values|, i requires 0 <= i < |values| => Written(access + i, Address(command, i), values[i]))
  }

  lemma PassAt(command: u8, values: seq<u8>, access: nat, i: nat)
    requires i < |values|
    ensures Pass(command, values, access)[i] == Written(access + i, Address(command, i), values[i])
    ensures Entry(Pass(command, values, access)[i], access + i, command + i, values[i])
  {
  }

  /** Whole passes, from these accesses on. */
  function Passes(command: u8, values: seq<u8>, starts: seq<nat>): seq<Written>
    decreases |starts|
  {
    if starts == [] then []
    else Passes(command, values, starts[..|starts| - 1]) + Pass(command, values, starts[|starts| - 1])
  }

  lemma PassesNext(was: seq<Written>, command: u8, values: seq<u8>, starts: seq<nat>, start: nat)
    ensures was + Passes(command, values, starts + [start])
         == was + Passes(command, values, starts) + Pass(command, values, start)
  {
    assert (starts + [start])[..|starts|] == starts;
  }

  lemma AppendOne(base: seq<Written>, pass: seq<Written>, part: nat)
    requires part < |pass|
    ensures base + pass[..part] + [pass[part]] == base + pass[..part + 1]
  {
  }

  lemma WholePass(base: seq<Written>, pass: seq<Written>)
    ensures base + pass[..|pass|] == base + pass && base + pass[..0] == base
  {
  }

  /** The last entries of the log are the block, register by register, from this access on. */
  ghost predicate EndsWithBlock(log: seq<Written>, command: u8, values: seq<u8>, access: int) {
    && |values| <= |log|
    && forall i :: 0 <= i < |values| ==> Entry(log[|log| - |values| + i], access + i, command + i, values[i])
  }

  /** This access wrote this value to the register, addresses being bytes. */
  predicate Entry(w: Written, access: int, register: int, value: u8) {
    w.access == access && w.address == register % 256 && w.value == value
  }

  /** The bus has just written the block and read it back, in the accesses before this one. */
  ghost predicate Confirmed(w: World, log: seq<Written>, command: u8, values: seq<u8>, end: nat) {
    && 2 * |values| <= end
    && SweepRead(w, command, end - |values|, values) && EndsWithBlock(log, command, values, end - 2 * |values|)
  }

  lemma TailAt(base: seq<Written>, pass: seq<Written>, i: nat)
    requires i < |pass|
    ensures (base + pass)[|base + pass| - |pass| + i] == pass[i]
  {
  }

  lemma ConfirmedNow(w: World, log: seq<Written>, base: seq<Written>, command: u8, values: seq<u8>, from: nat, end: nat)
    requires end == from + 2 * |values| && SweepRead(w, command, from + |values|, values)
    requires log == base + Pass(command, values, from)
    ensures Confirmed(w, log, command, values, end)
  {
    PassEnds(base, command, values, from);
  }

  lemma PassEnds(base: seq<Written>, command: u8, values: seq<u8>, access: nat)
    ensures EndsWithBlock(base + Pass(command, values, access), command, values, access)
  {
    var pass := Pass(command, values, access);
    var log := base + pass;
    forall i | 0 <= i < |values|
      ensures Entry(log[|log| - |values| + i], access + i, command + i, values[i])
    {
      TailAt(base, pass, i);
      PassAt(command, values, access, i);
    }
  }

  /** What has been written: whole passes from the accesses in `starts`, and part of one more from `from`. */
  datatype Progress = Progress(starts: seq<nat>, from: nat, part: nat)

  ghost predicate Grown(log: seq<Written>, was: seq<Written>, command: u8, values: seq<u8>, p: Progress) {
    && p.part <= |values|
    && log == was + Passes(command, values, p.starts) + Pass(command, values, p.from)[..p.part]
  }

  lemma GrownWhole(log: seq<Written>, was: seq<Written>, command: u8, values: seq<u8>, starts: seq<nat>, from: nat)
    ensures Grown(log, was, command, values, Progress(starts, from, 0))
            <==> log == was + Passes(command, values, starts)
  {
  }

  /** One attempt's writes on top of whole passes. */
  lemma GrownOn(log: seq<Written>, was: seq<Written>, command: u8, values: seq<u8>, p: Progress, from: nat, part: nat,
                log': seq<Written>)
    requires Grown(log, was, command, values, p) && p.part == 0 && part <= |values|
    requires log' == log + Pass(command, values, from)[..part]
    ensures Grown(log', was, command, values, Progress(p.starts, from, part))
    ensures part == |values| ==> Grown(log', was, command, values, Progress(p.starts + [from], from, 0))
    ensures part == |values| ==> log' == log + Pass(command, values, from)
  {
    GrownWhole(log, was, command, values, p.starts, p.from);
    WholePass(log, Pass(command, values, from));
    PassesNext(was, command, values, p.starts, from);
    GrownWhole(log', was, command, values, p.starts + [from], from);
  }

  class Client {
    const world: World
    var accesses: nat
    ghost var log: seq<Written>

    constructor (world: World)
      ensures this.world == world && accesses == 0 && log == []
    {
      this.world := world;
      accesses := 0;
      log := [];
    }

    /** One byte read: the register's value, or a negative error code. */
    method ReadByteData(address: u8) returns (data: int)
      modifies this`accesses
      ensures accesses == old(accesses) + 1
      ensures data == if world.error(old(accesses)) < 0 then world.error(old(accesses))
                      else world.register(world.time(old(accesses)), address)
    {
      data := if world.error(accesses) < 0 then world.error(accesses)
              else world.register(world.time(accesses), address);
      accesses := accesses + 1;
    }

    /** One byte written; the chip's reaction is part of the world. */
    method WriteByteData(address: u8, value: u8) returns (ret: int)
      modifies this
      ensures accesses == old(accesses) + 1 && log == old(log) + [Written(old(accesses), address, value)]
      ensures ret == if world.error(old(accesses)) < 0 then world.error(old(accesses)) else 0
    {
      ret := if world.error(accesses) < 0 then world.error(accesses) else 0;
      log := log + [Written(accesses, address, value)];
      accesses := accesses + 1;
    }

    /** One sweep over the block. */
    method ReadBlockDataOnce(command: u8, length: nat, values: array<u8>) returns (ret: int)
      requires length <= values.Length
      modifies this`accesses, values
      ensures ret == length || ret < 0
      ensures ret < 0 ==> old(accesses) < accesses && world.error(accesses - 1) == ret
      ensures ret >= 0 ==> accesses == old(accesses) + length
      ensures ret >= 0 ==> SweepRead(world, command, old(accesses), values[..length])
      ensures ret >= 0 ==> forall i :: 0 <= i < length ==>
                values[i] == world.register(world.time(old(accesses) + i), (command + i) % 256)
      ensures accesses <= old(accesses) + length
    {
      var i := 0;
      while i < length
        invariant i <= length && accesses == old(accesses) + i
        invariant SweepRead(world, command, old(accesses), values[..i])
      {
        var data := ReadByteData(Address(command, i));
        if data < 0 {
          return data;
        }
        values[i] := data;
        assert values[..i + 1] == values[..i] + [data];
        i := i + 1;
      }
      return i;
    }

    /** Keeps a copy of the last sweep, which began with access `before`, sweeps again and compares the two. */
    method SweepAgain(command: u8, length: nat, values: array<u8>, oldvalues: array<u8>, ghost before: nat)
      returns (ret: int, differ: bool)
      requires length <= values.Length && length <= oldvalues.Length && values != oldvalues
      requires accesses == before + length && SweepRead(world, command, before, values[..length])
      modifies this`accesses, values, oldvalues
      ensures ret == length || ret < 0
      ensures accesses <= old(accesses) + length
      ensures ret < 0 ==> old(accesses) < accesses && world.error(accesses - 1) == ret
      ensures ret >= 0 ==> accesses == old(accesses) + length
      ensures ret >= 0 ==> SweepRead(world, command, old(accesses), values[..length])
      ensures ret >= 0 && !differ ==> Agreement(world, command, length, old(accesses), values[..length])
      ensures ret >= 0 && differ ==> Differ(world, command, length, before, old(accesses))
    {
      forall i | 0 <= i < length {
        oldvalues[i] := values[i];
      }
      assert oldvalues[..length] == old(values[..length]);
      ret := ReadBlockDataOnce(command, length, values);
      differ := oldvalues[..length] != values[..length];
      if ret >= 0 && differ {
        DifferentReadings(world, command, before, old(accesses), oldvalues[..length], values[..length]);
      }
    }

    /** After a first sweep, sweeps until two in a row agree; `last` is the number of the bus access that began
        the last sweep, start that of the first. */
    method SweepUntilAgreed(command: u8, length: nat, values: array<u8>, ghost start: nat)
      returns (ret: int, ghost sweeps: nat, ghost last: nat)
      requires length <= I2C_SMBUS_BLOCK_MAX && length <= values.Length
      requires accesses == start + length && SweepRead(world, command, start, values[..length])
      modifies this`accesses, values
      ensures ReadOutcome(world, command, length, start, accesses, ret, sweeps, last, values[..length])
    {
      var oldvalues := new u8[I2C_SMBUS_BLOCK_MAX];
      var tries := 0;
      sweeps, last := 1, start;
      OneSweep(length);
      while true
        invariant sweeps == tries + 1 && tries <= BLOCK_DATA_MAX_TRIES
        invariant start <= last && accesses == last + length == start + Swept(sweeps, length)
        invariant SweepRead(world, command, last, values[..length])
        invariant last == start + Swept(tries, length) && Disagreed(world, command, length, start, tries)
        invariant fresh(oldvalues)
        decreases BLOCK_DATA_MAX_TRIES - tries
      {
        tries := tries + 1;
        if tries > BLOCK_DATA_MAX_TRIES {
          ret := -EIO;
          return;
        }
        ghost var before := last;
        sweeps, last := sweeps + 1, accesses;
        var differ;
        ret, differ := SweepAgain(command, length, values, oldvalues, before);
        if ret < 0 {
          return;
        }
        if !differ {
          ret := length;
          return;
        }
      }
    }

    /** A block read: one sweep, and then more until two in a row agree. */
    method ReadBlockData(command: u8, length: nat, values: array<u8>)
      returns (ret: int, ghost sweeps: nat, ghost last: nat)
      requires length <= I2C_SMBUS_BLOCK_MAX && length <= values.Length
      modifies this`accesses, values
      ensures ReadOutcome(world, command, length, old(accesses), accesses, ret, sweeps, last, values[..length])
    {
      sweeps, last := 1, accesses;
      OneSweep(length);
      ret := ReadBlockDataOnce(command, length, values);
      if ret >= 0 {
        ret, sweeps, last := SweepUntilAgreed(command, length, values, old(accesses));
      }
    }

    /** One attempt's writes; part of them, when an access fails. */
    method WritePass(command: u8, length: nat, values: array<u8>, ghost block: seq<u8>)
      returns (ret: int, ghost part: nat)
      requires length <= values.Length && block == values[..length]
      modifies this
      ensures part <= length && accesses == old(accesses) + part
      ensures log == old(log) + Pass(command, block, old(accesses))[..part]
      ensures if ret < 0 then 0 < part && world.error(accesses - 1) == ret else part == length
    {
      ret, part := 0, 0;
      ghost var was, pass := log, Pass(command, block, accesses);
      WholePass(was, pass);
      var i := 0;
      while i < length
        invariant i <= length && part == i && ret == 0 && accesses == old(accesses) + i
        invariant log == was + pass[..i]
      {
        AppendOne(was, pass, i);
        PassAt(command, block, old(accesses), i);
        ret := WriteByteData(Address(command, i), values[i]);
        part := part + 1;
        if ret < 0 {
          return;
        }
        ret := 0;
        i := i + 1;
      }
    }

    /** Reads the block back and compares it with what was to be written. */
    method ReadBack(command: u8, length: nat, values: array<u8>, currvalues: array<u8>)
      returns (ret: int, agreed: bool)
      requires length <= values.Length && length <= currvalues.Length && values != currvalues
      modifies this`accesses, currvalues
      ensures old(accesses) <= accesses <= old(accesses) + length
      ensures ret < 0 ==> old(accesses) < accesses && world.error(accesses - 1) == ret
      ensures ret >= 0 ==> accesses == old(accesses) + length
      ensures ret >= 0 && agreed ==> SweepRead(world, command, old(accesses), values[..length])
    {
      ret := ReadBlockDataOnce(command, length, currvalues);
      agreed := currvalues[..length] == values[..length];
    }

    /** One attempt: the writes, and a sweep that reads the block back.  When it gets that far it has written the whole
        block, in order. */
    method Attempt(command: u8, length: nat, values: array<u8>, currvalues: array<u8>, ghost block: seq<u8>)
      returns (ret: int, agreed: bool, ghost part: nat)
      requires length <= values.Length && length <= currvalues.Length && values != currvalues
      requires block == values[..length]
      modifies this, currvalues
      ensures part <= length && log == old(log) + Pass(command, block, old(accesses))[..part]
      ensures old(accesses) <= accesses <= old(accesses) + 2 * length
      ensures ret < 0 ==> old(accesses) < accesses && world.error(accesses - 1) == ret
      ensures ret >= 0 ==> part == length && accesses == old(accesses) + 2 * length
      ensures ret >= 0 && agreed ==> SweepRead(world, command, old(accesses) + length, block)
    {
      agreed := false;
      ret, part := WritePass(command, length, values, block);
      if ret >= 0 {
        ret, agreed := ReadBack(command, length, values, currvalues);
      }
    }

    /** One more attempt, on top of whole passes. */
    method NextAttempt(command: u8, length: nat, values: array<u8>, currvalues: array<u8>, ghost block: seq<u8>,
                       ghost was: seq<Written>, ghost p: Progress)
      returns (ret: int, agreed: bool, ghost q: Progress)
      requires length <= values.Length && length <= currvalues.Length && values != currvalues
      requires block == values[..length] && Grown(log, was, command, block, p) && p.part == 0
      modifies this, currvalues
      ensures Grown(log, was, command, block, q)
      ensures old(accesses) <= accesses <= old(accesses) + 2 * length
      ensures ret < 0 ==> old(accesses) < accesses && world.error(accesses - 1) == ret && q.starts == p.starts
      ensures ret >= 0 ==> |q.starts| == |p.starts| + 1 && q.part == 0 && accesses == old(accesses) + 2 * length
      ensures ret >= 0 && agreed ==> Confirmed(world, log, command, block, accesses)
    {
      ghost var base, from := log, accesses;
      ghost var part;
      ret, agreed, part := Attempt(command, length, values, currvalues, block);
      GrownOn(base, was, command, block, p, from, part, log);
      q := if ret < 0 then Progress(p.starts, from, part) else Progress(p.starts + [from], from, 0);
      if ret >= 0 && agreed {
        ConfirmedNow(world, log, base, command, block, from, accesses);
      }
    }

    /** Attempts, at most ten, until what is read back agrees. */
    method WriteAttempts(command: u8, length: nat, values: array<u8>, ghost block: seq<u8>)
      returns (ret: int, ghost attempts: nat, ghost done: Progress)
      requires length <= I2C_SMBUS_BLOCK_MAX && length <= values.Length && block == values[..length]
      modifies this
      ensures attempts <= BLOCK_DATA_MAX_TRIES && accesses <= old(accesses) + Swept(attempts, 2 * length)
      ensures |done.starts| <= attempts && Grown(log, old(log), command, block, done)
      ensures ret < 0 ==> (old(accesses) < accesses && world.error(accesses - 1) == ret)
                          || (ret == -EIO && |done.starts| == attempts == BLOCK_DATA_MAX_TRIES && done.part == 0)
      ensures ret >= 0 ==> ret == length && accesses >= old(accesses) + 2 * length
      ensures ret >= 0 ==> Confirmed(world, log, command, block, accesses)
    {
      var currvalues := new u8[I2C_SMBUS_BLOCK_MAX];
      var tries := 0;
      ghost var was := log;
      attempts, done := 0, Progress([], accesses, 0);
      GrownWhole(log, log, command, block, [], accesses);
      while true
        invariant attempts == |done.starts| == tries <= BLOCK_DATA_MAX_TRIES && done.part == 0
        invariant old(accesses) <= accesses <= old(accesses) + Swept(attempts, 2 * length)
        invariant Grown(log, was, command, block, done)
        invariant fresh(currvalues) && values[..length] == block
        decreases BLOCK_DATA_MAX_TRIES - tries
      {
        tries := tries + 1;
        if tries > BLOCK_DATA_MAX_TRIES {
          ret := -EIO;
          return;
        }
        attempts := attempts + 1;
        var agreed;
        ret, agreed, done := NextAttempt(command, length, values, currvalues, block, was, done);
        if ret < 0 {
          return;
        }
        if agreed {
          ret := length;
          return;
        }
      }
    }

    /** Writes the block and reads it back until the two agree; gives up after ten attempts.  Nothing but the block is
        written, in order, by whole passes and perhaps part of one more; success means that the sweep that read the
        values followed right on a pass that wrote them. */
    method WriteBlockData(command: u8, length: nat, values: array<u8>)
      returns (ret: int, ghost attempts: nat, ghost done: Progress)
      requires length <= I2C_SMBUS_BLOCK_MAX && length <= values.Length
      modifies this
      ensures ret == length || ret < 0
      ensures attempts <= BLOCK_DATA_MAX_TRIES && accesses <= old(accesses) + Swept(attempts, 2 * length)
      ensures |done.starts| <= attempts && Grown(log, old(log), command, values[..length], done)
      ensures ret < 0 ==> (old(accesses) < accesses && world.error(accesses - 1) == ret)
                          || (ret == -EIO && |done.starts| == attempts == BLOCK_DATA_MAX_TRIES && done.part == 0)
      ensures ret >= 0 ==> accesses >= old(accesses) + 2 * length
      ensures ret >= 0 ==> Confirmed(world, log, command, values[..length], accesses)
    {
      ghost var block := values[..length];
      ret, attempts, done := WriteAttempts(command, length, values, block);
      assert values[..length] == block;
    }
  }

  /** During these times a register that has changed never returns to an earlier value. */
  ghost predicate NeverReturns(w: World, address: u8, from: nat, to: nat) {
    forall a: nat, b: nat, c: nat :: from <= a <= b <= c <= to && w.register(a, address) == w.register(c, address)
      ==> w.register(b, address) == w.register(a, address)
  }

  /** So do all the registers of the block. */
  ghost predicate Steady(w: World, command: u8, length: nat, from: nat, to: nat) {
    forall i: nat :: i < length ==> NeverReturns(w, Address(command, i), from, to)
  }

  /** Two sweeps that read the same values, one right after the other, are a snapshot: at every instant
      from the last access of the first sweep to the first access of the second, all the registers held
      exactly these values at once. */
  lemma DoubleCollectIsSnapshot(w: World, command: u8, length: nat, last: nat, values: seq<u8>, t: nat)
    requires Ordered(w) && 0 < length == |values| && Agreement(w, command, length, last, values)
    requires Steady(w, command, length, w.time(last - length), w.time(last + length - 1))
    requires w.time(last - 1) <= t <= w.time(last)
    ensures forall i :: 0 <= i < length ==> w.register(t, Address(command, i)) == values[i]
  {
  }

  /** A block read that succeeds returns values that all the registers held at once, at every instant from the
      end of the last sweep but one to the beginning of the last. */
  lemma SuccessfulReadIsSnapshot(w: World, command: u8, length: nat, start: nat, end: nat, ret: int, sweeps: nat,
                                 last: nat, values: seq<u8>, t: nat)
    requires Ordered(w) && 0 < length == |values| && ret >= 0
    requires ReadOutcome(w, command, length, start, end, ret, sweeps, last, values)
    requires Steady(w, command, length, w.time(last - length), w.time(last + length - 1))
    requires w.time(last - 1) <= t <= w.time(last)
    ensures forall i :: 0 <= i < length ==> w.register(t, Address(command, i)) == values[i]
  {
  }
}
