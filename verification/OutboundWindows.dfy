/** The outbound translation windows of the endpoint driver, as values.

    Thirty-two windows lie side by side in the CPU's PCIe aperture.  Windows 0..30 are handed out to
    mappings; window 31 is kept for message-signalled interrupts.  This module says what each request
    does to the set of free windows, the list of live mappings and the window registers, and proves
    what a whole session keeps.  The driver itself is in module OutboundDriver. */
module OutboundWindows {
  import opened Arithmetic

  const MB: nat := 0x10_0000
  const TWO32: nat := 0x1_0000_0000
  const TWO64: nat := 0x1_0000_0000_0000_0000
  const WINDOWS: nat := 32
  const MSI_WINDOW: nat := 31

  const OK: nat := 0
  const NMEM: nat := 1
  const INOB: nat := 2

  type u32 = x: int | 0 <= x < 0x1_0000_0000

  /** Values of the OB_SIZE register: windows of 1, 2, 4 and 8 MB. */
  type ObSize = n: nat | n <= 3

  datatype Request = Request(hi: u32, idx: u32, size: u32)

  datatype Mapping = Mapping(hi: u32, idx: u32, start: nat, regions: nat, size: u32)

  datatype Windows = Windows(free: set<nat>, live: seq<Mapping>, index: seq<u32>, high: seq<u32>, obSize: ObSize)

  datatype Outcome = Outcome(state: Windows, code: nat)

  function WindowSize(ob: ObSize): (size: nat)
    ensures size > 0
  {
    if ob == 0 then MB else if ob == 1 then 2 * MB else if ob == 2 then 4 * MB else 8 * MB
  }

  /** One megabyte, doubled by each step of the register. */
  lemma SizesDouble(ob: ObSize)
    ensures WindowSize(0) == 1048576
    ensures ob > 0 ==> WindowSize(ob) == 2 * WindowSize(ob - 1)
  {
  }

  /** How many windows a mapping of the given size occupies. */
  function Needed(size: nat, window: nat): nat
    requires window > 0
  {
    if size % window != 0 then size / window + 1 else size / window
  }

  /** Needed is the least number of windows that holds the size. */
  lemma NeededIsLeast(size: nat, window: nat, n: nat)
    requires window > 0
    ensures n * window >= size <==> n >= Needed(size, window)
  {
    var least := Needed(size, window);
    assert size == size / window * window + size % window;
    if n >= least {
      MulAtLeast(n, least, window);
    } else {
      MulAtLeast(least - 1, n, window);
    }
  }

  /* ---------------------------------------------------------------- free runs */

  predicate FreeRun(free: set<nat>, start: nat, n: nat) {
    forall k :: start <= k < start + n ==> k in free
  }

  predicate Fits(free: set<nat>, start: nat, n: nat) {
    start + n <= MSI_WINDOW && FreeRun(free, start, n)
  }

  /** The lowest start, not below `from`, of a free run of n windows; 31 when there is none. */
  function FirstFitFrom(free: set<nat>, n: nat, from: nat): (start: nat)
    ensures start <= MSI_WINDOW
    ensures start < MSI_WINDOW ==> from <= start && Fits(free, start, n)
    ensures forall t :: from <= t < start && t < MSI_WINDOW ==> !Fits(free, t, n)
    decreases MSI_WINDOW - from
  {
    if from >= MSI_WINDOW then MSI_WINDOW
    else if Fits(free, from, n) then from
    else FirstFitFrom(free, n, from + 1)
  }

  /** A request for no windows at all is never served. */
  function FirstFit(free: set<nat>, n: nat): nat {
    if n == 0 then MSI_WINDOW else FirstFitFrom(free, n, 0)
  }

  /* ---------------------------------------------------------------- the operations */

  function Interval(start: nat, n: nat): (s: set<nat>)
    ensures forall k: nat :: k in s <==> start <= k < start + n
  {
    if n == 0 then {} else Interval(start, n - 1) + {start + n - 1}
  }

  function SumRegions(live: seq<Mapping>): nat {
    if live == [] then 0 else SumRegions(live[..|live| - 1]) + live[|live| - 1].regions
  }

  /** Windows the live mappings would occupy if every window had the given size. */
  function TotalNeeded(live: seq<Mapping>, window: nat): nat
    requires window > 0
  {
    if live == [] then 0 else TotalNeeded(live[..|live| - 1], window) + Needed(live[|live| - 1].size, window)
  }

  /** Bus address that the i-th window of a mapping must translate to, modulo 2^64. */
  function Target(hi: u32, idx: u32, i: nat, window: nat): nat {
    (hi * TWO32 + idx + i * window) % TWO64
  }

  /** The C expression  x | 0x1: bit 0 of an index register enables the window. */
  function Enabled(x: u32): u32 {
    if x % 2 == 0 then x + 1 else x
  }

  predicate Covers(m: Mapping, w: nat) {
    m.start <= w < m.start + m.regions
  }

  function IndexOf(m: Mapping, w: nat, window: nat): u32
    requires Covers(m, w)
  {
    Enabled(Target(m.hi, m.idx, w - m.start, window) % TWO32)
  }

  function HighOf(m: Mapping, w: nat, window: nat): u32
    requires Covers(m, w)
  {
    Target(m.hi, m.idx, w - m.start, window) / TWO32
  }

  function ProgramIndex(index: seq<u32>, m: Mapping, window: nat): seq<u32> {
    seq(|index|, w requires 0 <= w < |index| => if Covers(m, w) then IndexOf(m, w, window) else index[w])
  }

  function ProgramHigh(high: seq<u32>, m: Mapping, window: nat): seq<u32> {
    seq(|high|, w requires 0 <= w < |high| => if Covers(m, w) then HighOf(m, w, window) else high[w])
  }

  /** The answer to a request that cannot be placed: could a larger window size still serve everything? */
  function RefusalCode(s: Windows, r: Request): nat {
    if s.obSize < 3 && TotalNeeded(s.live, 8 * MB) + Needed(r.size, 8 * MB) <= MSI_WINDOW then INOB else NMEM
  }

  /** A new mapping takes its windows, joins the list and programs its registers. */
  function Place(s: Windows, m: Mapping, window: nat): Windows {
    s.(free := s.free - Interval(m.start, m.regions),
       live := s.live + [m],
       index := ProgramIndex(s.index, m, window),
       high := ProgramHigh(s.high, m, window))
  }

  function SetOut(s: Windows, r: Request): Outcome {
    var window := WindowSize(s.obSize);
    var n := Needed(r.size, window);
    var start := FirstFit(s.free, n);
    if start < MSI_WINDOW then Outcome(Place(s, Mapping(r.hi, r.idx, start, n, r.size), window), OK)
    else Outcome(s, RefusalCode(s, r))
  }

  predicate HasKey(m: Mapping, hi: u32, idx: u32) {
    m.hi == hi && m.idx == idx
  }

  function Without(live: seq<Mapping>, hi: u32, idx: u32): seq<Mapping> {
    if live == [] then []
    else
      var front, m := live[..|live| - 1], live[|live| - 1];
      Without(front, hi, idx) + if HasKey(m, hi, idx) then [] else [m]
  }

  /** Window w belongs to a mapping made under this key. */
  predicate Keyed(live: seq<Mapping>, hi: u32, idx: u32, w: nat) {
    exists i :: 0 <= i < |live| && HasKey(live[i], hi, idx) && Covers(live[i], w)
  }

  function Blank(regs: seq<u32>, live: seq<Mapping>, hi: u32, idx: u32): seq<u32> {
    seq(|regs|, w requires 0 <= w < |regs| => if Keyed(live, hi, idx, w) then 0 else regs[w])
  }

  function KeyedWindows(live: seq<Mapping>, hi: u32, idx: u32): (s: set<nat>)
    ensures forall k: nat :: k in s <==> k < WINDOWS && Keyed(live, hi, idx, k)
  {
    set k: nat | k < WINDOWS && Keyed(live, hi, idx, k)
  }

  /** Clearing removes every mapping made under the key. */
  function ClearOut(s: Windows, hi: u32, idx: u32): Windows {
    s.(free := s.free + KeyedWindows(s.live, hi, idx),
       live := Without(s.live, hi, idx),
       index := Blank(s.index, s.live, hi, idx),
       high := Blank(s.high, s.live, hi, idx))
  }

  /** The MSI window is aimed at the window-aligned part of the message address. */
  function AimMsi(s: Windows, lo: u32, hi: u32): Windows
    requires |s.index| == |s.high| == WINDOWS
  {
    s.(index := s.index[MSI_WINDOW := Enabled(lo - lo % WindowSize(s.obSize))],
       high := s.high[MSI_WINDOW := hi])
  }

  /** Opening the device makes windows 0..30 free. */
  function Open(s: Windows): Windows {
    s.(free := Interval(0, MSI_WINDOW))
  }

  /** Closing it forgets the mappings; the registers and the free word are left as they are. */
  function Close(s: Windows): Windows {
    s.(live := [])
  }

  /* ---------------------------------------------------------------- the invariant */

  ghost predicate Taken(live: seq<Mapping>, k: nat) {
    exists i :: 0 <= i < |live| && Covers(live[i], k)
  }

  ghost predicate Placed(m: Mapping) {
    1 <= m.regions && m.start + m.regions <= MSI_WINDOW && 0 < m.size
  }

  ghost predicate Apart(a: Mapping, b: Mapping) {
    a.start + a.regions <= b.start || b.start + b.regions <= a.start
  }

  ghost predicate AllApart(live: seq<Mapping>) {
    forall i, j :: 0 <= i < j < |live| ==> Apart(live[i], live[j])
  }

  /** Bitmap, list and register file agree: live mappings are disjoint, non-empty and inside 0..30,
      and the free windows are exactly the rest of 0..30. */
  ghost predicate Agree(s: Windows) {
    && |s.index| == |s.high| == WINDOWS
    && (forall i :: 0 <= i < |s.live| ==> Placed(s.live[i]))
    && AllApart(s.live)
    && (forall k: nat :: k in s.free <==> k < MSI_WINDOW && !Taken(s.live, k))
  }

  lemma OpenAgrees(s: Windows)
    requires |s.index| == |s.high| == WINDOWS && s.live == []
    ensures Agree(Open(s))
  {
  }

  lemma ApartAppend(front: seq<Mapping>, m: Mapping)
    requires AllApart(front)
    requires forall i :: 0 <= i < |front| ==> Apart(front[i], m)
    ensures AllApart(front + [m])
  {
  }

  lemma TakenAppend(front: seq<Mapping>, m: Mapping, k: nat)
    ensures Taken(front + [m], k) <==> Taken(front, k) || Covers(m, k)
  {
    var all := front + [m];
    assert all[|front|] == m;
    if Taken(front, k) {
      var i :| 0 <= i < |front| && Covers(front[i], k);
      assert Covers(all[i], k);
    }
  }

  lemma PlaceKeepsAgree(s: Windows, m: Mapping, window: nat)
    requires Agree(s) && 0 < m.regions && 0 < m.size && Fits(s.free, m.start, m.regions)
    ensures Agree(Place(s, m, window))
  {
    PlacedInFree(s, m);
    ApartAppend(s.live, m);
    forall k: nat
      ensures Taken(s.live + [m], k) <==> Taken(s.live, k) || Covers(m, k)
    {
      TakenAppend(s.live, m, k);
    }
  }

  lemma NothingNeeded(window: nat)
    requires window > 0
    ensures Needed(0, window) == 0
  {
  }

  /** A served request got a place, and asked for at least one byte. */
  lemma ServedFits(free: set<nat>, size: nat, window: nat)
    requires window > 0 && FirstFit(free, Needed(size, window)) < MSI_WINDOW
    ensures 0 < size && 0 < Needed(size, window)
    ensures Fits(free, FirstFit(free, Needed(size, window)), Needed(size, window))
  {
    NothingNeeded(window);
  }

  lemma SetOutKeepsAgree(s: Windows, r: Request)
    requires Agree(s)
    ensures Agree(SetOut(s, r).state)
  {
    var n := Needed(r.size, WindowSize(s.obSize));
    var start := FirstFit(s.free, n);
    if start < MSI_WINDOW {
      ServedFits(s.free, r.size, WindowSize(s.obSize));
      PlaceKeepsAgree(s, Mapping(r.hi, r.idx, start, n, r.size), WindowSize(s.obSize));
    }
  }

  lemma PlacedInFree(s: Windows, m: Mapping)
    requires Agree(s) && m.regions > 0 && Fits(s.free, m.start, m.regions)
    ensures forall i :: 0 <= i < |s.live| ==> Apart(s.live[i], m)
  {
    forall i | 0 <= i < |s.live|
      ensures Apart(s.live[i], m)
    {
      var k: nat := if m.start < s.live[i].start then s.live[i].start else m.start;
      assert Covers(m, k) ==> k in s.free;
      assert Covers(s.live[i], k) ==> Taken(s.live, k);
    }
  }

  lemma {:induction false} WithoutMembers(live: seq<Mapping>, hi: u32, idx: u32)
    ensures forall m :: m in Without(live, hi, idx) <==> m in live && !HasKey(m, hi, idx)
  {
    if live != [] {
      var front, m := live[..|live| - 1], live[|live| - 1];
      WithoutMembers(front, hi, idx);
      assert live == front + [m];
    }
  }

  lemma {:induction false} WithoutApart(live: seq<Mapping>, hi: u32, idx: u32)
    requires AllApart(live)
    ensures AllApart(Without(live, hi, idx))
  {
    if live != [] {
      var front, m := live[..|live| - 1], live[|live| - 1];
      WithoutApart(front, hi, idx);
      WithoutMembers(front, hi, idx);
      var rest := Without(front, hi, idx);
      forall i | 0 <= i < |rest|
        ensures Apart(rest[i], m)
      {
        assert rest[i] in front;
        var j :| 0 <= j < |front| && front[j] == rest[i];
        assert Apart(live[j], live[|live| - 1]);
      }
      ApartAppend(rest, m);
      assert rest + [] == rest;
    }
  }

  lemma TakenByMember(live: seq<Mapping>, k: nat)
    ensures Taken(live, k) <==> exists m :: m in live && Covers(m, k)
  {
  }

  lemma ClearOutKeepsAgree(s: Windows, hi: u32, idx: u32)
    requires Agree(s)
    ensures Agree(ClearOut(s, hi, idx))
  {
    var rest := Without(s.live, hi, idx);
    WithoutApart(s.live, hi, idx);
    WithoutMembers(s.live, hi, idx);
    forall i | 0 <= i < |rest|
      ensures Placed(rest[i])
    {
      assert rest[i] in s.live;
    }
    forall k: nat | k < MSI_WINDOW
      ensures k in ClearOut(s, hi, idx).free <==> !Taken(rest, k)
    {
      TakenByMember(rest, k);
      if Keyed(s.live, hi, idx, k) {
        var i :| 0 <= i < |s.live| && HasKey(s.live[i], hi, idx) && Covers(s.live[i], k);
        forall m | m in rest
          ensures !Covers(m, k)
        {
          var j :| 0 <= j < |s.live| && s.live[j] == m;
          assert i < j ==> Apart(s.live[i], s.live[j]);
          assert j < i ==> Apart(s.live[j], s.live[i]);
        }
      } else if Taken(s.live, k) {
        var i :| 0 <= i < |s.live| && Covers(s.live[i], k);
        assert s.live[i] in rest;
      } else {
        TakenByMember(s.live, k);
      }
    }
  }

  /* ---------------------------------------------------------------- whole sessions */

  datatype Ioctl =
    | SetSize(ob: ObSize)
    | SetOutbound(request: Request)
    | ClearOutbound(hi: u32, idx: u32)
    | SendMsi(lo: u32, up: u32)

  ghost function Step(s: Windows, op: Ioctl): Windows
    requires Agree(s)
  {
    match op
    case SetSize(ob) => s.(obSize := ob)
    case SetOutbound(r) => SetOut(s, r).state
    case ClearOutbound(hi, idx) => ClearOut(s, hi, idx)
    case SendMsi(lo, up) => AimMsi(s, lo, up)
  }

  lemma StepKeepsAgree(s: Windows, op: Ioctl)
    requires Agree(s)
    ensures Agree(Step(s, op))
  {
    match op
    case SetSize(_) =>
    case SetOutbound(r) => SetOutKeepsAgree(s, r);
    case ClearOutbound(hi, idx) => ClearOutKeepsAgree(s, hi, idx);
    case SendMsi(_, _) =>
  }

  /** s' is reached from s by the given calls. */
  ghost predicate Session(s: Windows, ops: seq<Ioctl>, s': Windows)
    decreases |ops|
  {
    if ops == [] then s == s'
    else Agree(s) && Session(Step(s, ops[0]), ops[1..], s')
  }

  /** Every state that any session of an opened device reaches satisfies the invariant, and the device is as
      usable after a close as it was before the open. */
  lemma {:induction false} SessionKeepsAgree(s: Windows, ops: seq<Ioctl>, s': Windows)
    requires Agree(s) && Session(s, ops, s')
    ensures Agree(s')
    ensures Agree(Open(Close(s')))
    decreases |ops|
  {
    if ops != [] {
      StepKeepsAgree(s, ops[0]);
      SessionKeepsAgree(Step(s, ops[0]), ops[1..], s');
    }
    OpenAgrees(Close(s'));
  }

  /** Every sequence of calls is a session: no call can get stuck. */
  lemma {:induction false} SessionExists(s: Windows, ops: seq<Ioctl>) returns (s': Windows)
    requires Agree(s)
    ensures Session(s, ops, s')
    decreases |ops|
  {
    if ops == [] {
      s' := s;
    } else {
      StepKeepsAgree(s, ops[0]);
      s' := SessionExists(Step(s, ops[0]), ops[1..]);
    }
  }

  /* ---------------------------------------------------------------- counting windows */

  lemma {:induction false} IntervalSize(start: nat, n: nat)
    ensures |Interval(start, n)| == n
  {
    if n > 0 {
      IntervalSize(start, n - 1);
      AddOne(Interval(start, n - 1), start + n - 1);
    }
  }

  lemma AddOne(s: set<nat>, x: nat)
    requires x !in s
    ensures |s + {x}| == |s| + 1
  {
  }

  ghost function TakenSet(live: seq<Mapping>): (s: set<nat>)
    ensures forall k: nat :: k in s <==> k < MSI_WINDOW && Taken(live, k)
  {
    set k: nat | k < MSI_WINDOW && Taken(live, k)
  }

  lemma TakenSplit(front: seq<Mapping>, m: Mapping)
    requires Placed(m)
    requires forall i :: 0 <= i < |front| ==> Apart(front[i], m)
    ensures |TakenSet(front + [m])| == |TakenSet(front)| + m.regions
  {
    var mine := Interval(m.start, m.regions);
    IntervalSize(m.start, m.regions);
    forall k: nat
      ensures Taken(front + [m], k) <==> Taken(front, k) || k in mine
    {
      TakenAppend(front, m, k);
    }
    assert TakenSet(front + [m]) == TakenSet(front) + mine;
    assert TakenSet(front) !! mine;
  }

  lemma {:induction false} TakenCount(live: seq<Mapping>)
    requires forall i :: 0 <= i < |live| ==> Placed(live[i])
    requires AllApart(live)
    ensures |TakenSet(live)| == SumRegions(live)
  {
    if live == [] {
      assert TakenSet(live) == {};
    } else {
      var front, m := live[..|live| - 1], live[|live| - 1];
      TakenCount(front);
      TakenSplit(front, m);
      assert live == front + [m];
    }
  }

  lemma PartsSize(a: set<nat>, b: set<nat>, all: set<nat>)
    requires a !! b && a + b == all
    ensures |a| + |b| == |all|
  {
  }

  lemma FreeIsComplement(s: Windows)
    requires Agree(s)
    ensures s.free !! TakenSet(s.live) && s.free + TakenSet(s.live) == Interval(0, MSI_WINDOW)
  {
  }

  /** Free windows and windows in use make thirty-one. */
  lemma FreeAndUsedMakeAll(s: Windows)
    requires Agree(s)
    ensures |s.free| + SumRegions(s.live) == MSI_WINDOW
  {
    TakenCount(s.live);
    FreeIsComplement(s);
    PartsSize(s.free, TakenSet(s.live), Interval(0, MSI_WINDOW));
    IntervalSize(0, MSI_WINDOW);
  }

  lemma SubsetSize(a: set<nat>, b: set<nat>)
    requires a <= b
    ensures |a| <= |b|
  {
    assert b == a + (b - a);
  }

  /** The early test on the number of regions in use never refuses a request that fits. */
  lemma EarlyTestIsSafe(s: Windows, n: nat, start: nat)
    requires Agree(s) && n > 0 && Fits(s.free, start, n)
    ensures SumRegions(s.live) + n <= MSI_WINDOW && s.free != {}
  {
    FreeAndUsedMakeAll(s);
    IntervalSize(start, n);
    SubsetSize(Interval(start, n), s.free);
  }

  /** Allocation is complete and first-fit: a request is served exactly when some run of free windows
      is long enough, and then it takes the lowest one, in front of every other. */
  lemma AllocationIsFirstFit(s: Windows, r: Request)
    requires Agree(s) && r.size > 0
    ensures var n := Needed(r.size, WindowSize(s.obSize));
            var o := SetOut(s, r);
            && (o.code == OK <==> exists t: nat :: Fits(s.free, t, n))
            && (o.code == OK ==>
                  var m := o.state.live[|s.live|];
                  && o.state.live == s.live + [m] && m.regions == n
                  && o.state.free == s.free - Interval(m.start, n)
                  && Fits(s.free, m.start, n)
                  && forall t: nat :: t < m.start ==> !Fits(s.free, t, n))
  {
  }

  /** A request for nothing is refused and changes nothing. */
  lemma NothingIsRefused(s: Windows, r: Request)
    requires r.size == 0
    ensures SetOut(s, r).code != OK && SetOut(s, r).state == s
  {
    NothingNeeded(WindowSize(s.obSize));
  }

  /** Making a mapping under an unused key and clearing it again restores free windows and list. */
  lemma SetThenClear(s: Windows, r: Request)
    requires Agree(s)
    requires forall m :: m in s.live ==> !HasKey(m, r.hi, r.idx)
    ensures var s' := ClearOut(SetOut(s, r).state, r.hi, r.idx);
            s'.free == s.free && s'.live == s.live
  {
    var n := Needed(r.size, WindowSize(s.obSize));
    var start := FirstFit(s.free, n);
    if start < MSI_WINDOW {
      ServedFits(s.free, r.size, WindowSize(s.obSize));
      PlaceThenClear(s, Mapping(r.hi, r.idx, start, n, r.size), WindowSize(s.obSize));
    } else {
      ClearUnused(s, r.hi, r.idx);
    }
  }

  lemma PlaceThenClear(s: Windows, m: Mapping, window: nat)
    requires Fits(s.free, m.start, m.regions)
    requires forall f :: f in s.live ==> !HasKey(f, m.hi, m.idx)
    ensures ClearOut(Place(s, m, window), m.hi, m.idx).free == s.free
    ensures ClearOut(Place(s, m, window), m.hi, m.idx).live == s.live
  {
    WithoutFresh(s.live, m.hi, m.idx);
    WithoutLast(s.live, m, m.hi, m.idx);
    PutBack(s.free, s.live, m);
  }

  lemma ClearUnused(s: Windows, hi: u32, idx: u32)
    requires forall f :: f in s.live ==> !HasKey(f, hi, idx)
    ensures ClearOut(s, hi, idx).free == s.free && ClearOut(s, hi, idx).live == s.live
  {
    WithoutFresh(s.live, hi, idx);
    assert forall i :: 0 <= i < |s.live| ==> s.live[i] in s.live;
    assert KeyedWindows(s.live, hi, idx) == {};
  }

  lemma PutBack(free: set<nat>, live: seq<Mapping>, m: Mapping)
    requires Fits(free, m.start, m.regions)
    requires forall f :: f in live ==> !HasKey(f, m.hi, m.idx)
    ensures free - Interval(m.start, m.regions) + KeyedWindows(live + [m], m.hi, m.idx) == free
  {
    KeyedLast(live, m, m.hi, m.idx);
    var mine := Interval(m.start, m.regions);
    assert KeyedWindows(live + [m], m.hi, m.idx) == mine;
    assert mine <= free;
  }

  lemma KeyedLast(live: seq<Mapping>, m: Mapping, hi: u32, idx: u32)
    requires HasKey(m, hi, idx)
    requires forall f :: f in live ==> !HasKey(f, hi, idx)
    ensures forall k: nat :: Keyed(live + [m], hi, idx, k) <==> Covers(m, k)
  {
    var all := live + [m];
    assert all[|live|] == m;
    forall i | 0 <= i < |live|
      ensures !HasKey(all[i], hi, idx)
    {
      assert all[i] in live;
    }
  }

  lemma WithoutLast(live: seq<Mapping>, m: Mapping, hi: u32, idx: u32)
    requires HasKey(m, hi, idx)
    ensures Without(live + [m], hi, idx) == Without(live, hi, idx)
  {
  }

  lemma {:induction false} WithoutFresh(live: seq<Mapping>, hi: u32, idx: u32)
    requires forall i :: 0 <= i < |live| ==> !HasKey(live[i], hi, idx)
    ensures Without(live, hi, idx) == live
  {
    if live != [] {
      WithoutFresh(live[..|live| - 1], hi, idx);
      assert live == live[..|live| - 1] + [live[|live| - 1]];
    }
  }
}
