/** The endpoint driver's outbound-window code: a bitmap word, a list and a register file, changed in
    place.  Every method is tied to the operation on values that it implements (OutboundWindows). */
module OutboundDriver {
  import opened StatusWord
  import opened OutboundWindows

  const APERTURE: nat := 0x2000_0000

  /** The windows whose bit is set. */
  function FreeSet(word: nat): (free: set<nat>)
    ensures forall k: nat :: k in free <==> k < WINDOWS && IsSet(word, k)
  {
    set k: nat | k < WINDOWS && IsSet(word, k)
  }

  /** The word with bits 0..30 set: every window but the MSI window. */
  const ALL_FREE: nat := 0x7fff_ffff

  lemma AllFreeIsOnes()
    ensures Ones(31) == ALL_FREE
  {
    assert Ones(8) == 0xff;
    assert Ones(16) == 0xffff;
    assert Ones(24) == 0xff_ffff;
  }

  lemma FreshWord()
    ensures FreeSet(ALL_FREE) == Interval(0, MSI_WINDOW)
  {
    AllFreeIsOnes();
    forall k: nat
      ensures IsSet(ALL_FREE, k) <==> k < 31
    {
      OnesMeaning(31, k);
    }
  }

  lemma TakeBit(word: nat, k: nat)
    requires k < 31 && word <= ALL_FREE
    ensures FreeSet(ClearBit(word, k)) == FreeSet(word) - {k}
    ensures ClearBit(word, k) <= ALL_FREE
  {
    AllFreeIsOnes();
    BitOpsFit(word, k, 31);
    forall j: nat
      ensures IsSet(ClearBit(word, k), j) <==> IsSet(word, j) && j != k
    {
      ClearBitMeaning(word, k, j);
    }
  }

  lemma ReturnBit(word: nat, k: nat)
    requires k < 31 && word <= ALL_FREE
    ensures FreeSet(RaiseBit(word, k)) == FreeSet(word) + {k}
    ensures RaiseBit(word, k) <= ALL_FREE
  {
    AllFreeIsOnes();
    BitOpsFit(word, k, 31);
    forall j: nat
      ensures IsSet(RaiseBit(word, k), j) <==> IsSet(word, j) || j == k
    {
      RaiseBitMeaning(word, k, j);
    }
  }

  /** The hand-written carry is 32-bit overflow: the pair of words steps to the next window's target. */
  lemma CarryIsOverflow(hi: u32, lo: u32, i: nat, window: nat, up: u32, low: u32)
    requires 0 < window < TWO32
    requires up * TWO32 + low == Target(hi, lo, i, window)
    ensures var carry := if 0xFFFF_FFFF - window < low then 1 else 0;
            (up + carry) % TWO32 * TWO32 + (low + window) % TWO32 == Target(hi, lo, i + 1, window)
  {
    var x := hi * TWO32 + lo + i * window;
    assert hi * TWO32 + lo + (i + 1) * window == x + window;
    NextTarget(x, window, up, low);
  }

  lemma WordsOfTarget(up: u32, low: u32)
    ensures (up * TWO32 + low) / TWO32 == up && (up * TWO32 + low) % TWO32 == low
  {
  }

  lemma NextTarget(x: nat, window: nat, up: u32, low: u32)
    requires 0 < window < TWO32
    requires up * TWO32 + low == x % TWO64
    ensures var carry := if 0xFFFF_FFFF - window < low then 1 else 0;
            (up + carry) % TWO32 * TWO32 + (low + window) % TWO32 == (x + window) % TWO64
  {
  }

  class Driver {
    var statusOut: nat
    var outbReq: seq<Mapping>
    var obSize: ObSize
    const index: array<u32>
    const high: array<u32>

    ghost predicate WellFormed()
      reads this
    {
      index.Length == WINDOWS && high.Length == WINDOWS && index != high && statusOut <= ALL_FREE
    }

    /** The driver's state as a value. */
    ghost function Abs(): Windows
      reads this, index, high
    {
      Windows(FreeSet(statusOut), outbReq, index[..], high[..], obSize)
    }

    ghost predicate Valid()
      reads this, index, high
    {
      WellFormed() && Agree(Abs())
    }

    constructor ()
      ensures WellFormed() && fresh(index) && fresh(high)
      ensures outbReq == []
    {
      statusOut := 0;
      outbReq := [];
      obSize := 0;
      index := new u32[WINDOWS](_ => 0);
      high := new u32[WINDOWS](_ => 0);
    }

    method OpenDevice()
      requires WellFormed() && outbReq == []
      modifies this`statusOut
      ensures Abs() == Open(old(Abs())) && Valid()
    {
      statusOut := ALL_FREE;
      FreshWord();
      OpenAgrees(old(Abs()));
    }

    method CloseDevice()
      requires WellFormed()
      modifies this`outbReq
      ensures WellFormed() && Abs() == Close(old(Abs()))
    {
      while outbReq != []
        invariant WellFormed()
        decreases |outbReq|
      {
        outbReq := outbReq[1..];
      }
    }

    method SetOutboundSize(ob: ObSize)
      requires Valid()
      modifies this`obSize
      ensures Valid() && Abs() == Step(old(Abs()), SetSize(ob))
    {
      obSize := ob;
    }

    /** The lowest start of a free run, by counting consecutive set bits from every set bit. */
    method CheckRegions(regions: nat) returns (start: nat)
      requires statusOut <= ALL_FREE
      ensures start == FirstFit(FreeSet(statusOut), regions)
    {
      ghost var free := FreeSet(statusOut);
      TopBitClear(statusOut);
      for i := 0 to 32
        invariant NoneBelow(free, regions, i)
      {
        var count := 0;
        if IsSet(statusOut, i) {
          count := count + 1;
          if count == regions {
            FirstFitIs(free, regions, i);
            return i;
          }
          for j := i + 1 to 32
            invariant count == j - i && FreeRun(free, i, count)
            invariant regions > 0 ==> count < regions
          {
            if IsSet(statusOut, j) {
              count := count + 1;
              if count == regions {
                FirstFitIs(free, regions, i);
                return i;
              }
            } else {
              assert j !in free;
              break;
            }
          }
          assert regions > 0 ==> !Fits(free, i, regions);
        } else {
          assert i !in free;
        }
      }
      FirstFitIs(free, regions, 31);
      return 31;
    }

    /** Would every live mapping and this request fit if windows were 8 MB? */
    method CheckReqStatus(out: Request, ob: ObSize) returns (code: nat)
      requires ob == obSize
      ensures code == RefusalCode(Abs(), out)
    {
      if ob < 3 {
        var regCurrent := 0;
        for k := 0 to |outbReq|
          invariant regCurrent == TotalNeeded(outbReq[..k], 8 * MB)
        {
          assert outbReq[..k + 1][..k] == outbReq[..k];
          if outbReq[k].size % (8 * MB) != 0 {
            regCurrent := regCurrent + outbReq[k].size / (8 * MB) + 1;
          } else {
            regCurrent := regCurrent + outbReq[k].size / (8 * MB);
          }
        }
        assert outbReq[..|outbReq|] == outbReq;
        var regReq := if out.size % (8 * MB) != 0 then out.size / (8 * MB) + 1 else out.size / (8 * MB);
        return if regReq + regCurrent <= 31 then INOB else NMEM;
      } else {
        return NMEM;
      }
    }

    method RegionsInUse() returns (inUse: nat)
      ensures inUse == SumRegions(outbReq)
    {
      inUse := 0;
      for k := 0 to |outbReq|
        invariant inUse == SumRegions(outbReq[..k])
      {
        assert outbReq[..k + 1][..k] == outbReq[..k];
        inUse := inUse + outbReq[k].regions;
      }
      assert outbReq[..|outbReq|] == outbReq;
    }

    /** One window gets its registers and is no longer free. */
    method WriteWindow(w: nat, startIdx: u32, hiIdxAdd: u32)
      requires WellFormed() && w < MSI_WINDOW
      modifies this`statusOut, index, high
      ensures WellFormed() && FreeSet(statusOut) == FreeSet(old(statusOut)) - {w}
      ensures index[..] == old(index[..])[w := Enabled(startIdx)] && high[..] == old(high[..])[w := hiIdxAdd]
    {
      index[w] := Enabled(startIdx);
      high[w] := hiIdxAdd;
      TakeBit(statusOut, w);
      statusOut := ClearBit(statusOut, w);
    }

    /** Writes the registers of a mapping's windows, stepping a 64-bit address held in two words. */
    method ProgramWindows(m: Mapping, trSize: nat)
      requires WellFormed() && Placed(m) && 0 < trSize < TWO32
      modifies this`statusOut, index, high
      ensures WellFormed()
      ensures FreeSet(statusOut) == FreeSet(old(statusOut)) - Interval(m.start, m.regions)
      ensures index[..] == ProgramIndex(old(index[..]), m, trSize)
      ensures high[..] == ProgramHigh(old(high[..]), m, trSize)
    {
      var startIdx: u32 := m.idx;
      var hiIdxAdd: u32 := m.hi;
      var i := 0;
      while i < m.regions
        invariant i <= m.regions
        invariant WellFormed()
        invariant hiIdxAdd * TWO32 + startIdx == Target(m.hi, m.idx, i, trSize)
        invariant FreeSet(statusOut) == FreeSet(old(statusOut)) - Interval(m.start, i)
        invariant index[..] == ProgramIndex(old(index[..]), m.(regions := i), trSize)
        invariant high[..] == ProgramHigh(old(high[..]), m.(regions := i), trSize)
      {
        ProgramNext(old(index[..]), old(high[..]), m, i, trSize, startIdx, hiIdxAdd);
        WriteWindow(m.start + i, startIdx, hiIdxAdd);
        CarryIsOverflow(m.hi, m.idx, i, trSize, hiIdxAdd, startIdx);
        var carry := 0;
        if 0xFFFF_FFFF - trSize < startIdx {
          carry := 1;
        }
        startIdx := (startIdx + trSize) % TWO32;
        hiIdxAdd := (hiIdxAdd + carry) % TWO32;
        i := i + 1;
      }
    }

    /** Records a mapping and programs its windows. */
    method AddMapping(info: Mapping, regionSize: nat)
      requires WellFormed() && Placed(info) && 0 < regionSize < TWO32
      modifies this`statusOut, this`outbReq, index, high
      ensures WellFormed()
      ensures Abs() == Place(old(Abs()), info, regionSize)
    {
      outbReq := outbReq + [info];
      ProgramWindows(info, regionSize);
    }

    /** Where the windows for a request would go; the early test says so without a search. */
    method FindPlace(regions: nat) returns (start: nat)
      requires Valid()
      ensures start == FirstFit(Abs().free, regions)
    {
      var regionInUse := RegionsInUse();
      if statusOut == 0 || regionInUse + regions > 31 {
        EarlyRefusal(regions);
        return 31;
      }
      start := CheckRegions(regions);
    }

    method SetOutRegion(out: Request) returns (code: nat)
      requires Valid()
      modifies this`statusOut, this`outbReq, index, high
      ensures Valid()
      ensures Outcome(Abs(), code) == SetOut(old(Abs()), out)
    {
      var regionSize := WindowSize(obSize);
      var regions := if out.size % regionSize != 0 then out.size / regionSize + 1 else out.size / regionSize;
      var startRegion := FindPlace(regions);
      if startRegion < 31 {
        var info := Mapping(out.hi, out.idx, startRegion, regions, out.size);
        Served(Abs(), out, info, regionSize);
        AddMapping(info, regionSize);
        code := OK;
      } else {
        Refused(Abs(), out);
        code := CheckReqStatus(out, obSize);
      }
    }

    /** The early test refuses only requests that have no place. */
    lemma EarlyRefusal(regions: nat)
      requires Valid()
      requires statusOut == 0 || SumRegions(outbReq) + regions > 31
      ensures FirstFit(FreeSet(statusOut), regions) == 31
    {
      var free := FreeSet(statusOut);
      var start := FirstFit(free, regions);
      if start < 31 {
        EarlyTestIsSafe(Abs(), regions, start);
        var k :| k in free;
        if statusOut == 0 {
          NoBitInZero(k);
        }
      }
    }

    method ClrOutbMap(hi: u32, idx: u32)
      requires Valid()
      modifies this`statusOut, this`outbReq, index, high
      ensures Valid()
      ensures Abs() == ClearOut(old(Abs()), hi, idx)
    {
      ClearOutKeepsAgree(Abs(), hi, idx);
      RemoveMatching(hi, idx);
    }

    /** The walk over the list that deletes every matching entry. */
    method RemoveMatching(hi: u32, idx: u32)
      requires WellFormed() && forall i :: 0 <= i < |outbReq| ==> Placed(outbReq[i])
      modifies this`statusOut, this`outbReq, index, high
      ensures WellFormed()
      ensures Abs() == ClearOut(old(Abs()), hi, idx)
    {
      ghost var live, was := outbReq, Abs();
      var pos: nat, k: nat := 0, 0;
      while pos < |outbReq|
        invariant WellFormed()
        invariant Walked(live, k, hi, idx, outbReq, pos)
        invariant Files(FreeSet(statusOut), index[..], high[..]) == Visited(was, live[..k], hi, idx)
        decreases |live| - k
      {
        pos := VisitEntry(hi, idx, pos, live, was, k);
        k := k + 1;
      }
      WalkDone(was, live, k, hi, idx, outbReq, pos);
    }

    /** Looks at entry k of the original list, which now stands at pos, and returns where the next one stands. */
    method VisitEntry(hi: u32, idx: u32, pos: nat, ghost live: seq<Mapping>, ghost was: Windows, ghost k: nat)
      returns (next: nat)
      requires WellFormed() && Walked(live, k, hi, idx, outbReq, pos) && pos < |outbReq|
      requires forall i :: 0 <= i < |live| ==> Placed(live[i])
      requires Files(FreeSet(statusOut), index[..], high[..]) == Visited(was, live[..k], hi, idx)
      modifies this`statusOut, this`outbReq, index, high
      ensures WellFormed() && Walked(live, k + 1, hi, idx, outbReq, next)
      ensures Files(FreeSet(statusOut), index[..], high[..]) == Visited(was, live[..k + 1], hi, idx)
    {
      var ptr := outbReq[pos];
      assert ptr == live[k];
      WalkedStep(live, k, hi, idx, outbReq, pos);
      VisitedStep(was, live, k, hi, idx);
      next := pos;
      if ptr.hi == hi && ptr.idx == idx {
        DropEntry(pos);
      } else {
        next := pos + 1;
      }
    }

    /** Deletes one entry, after its windows have been freed. */
    method DropEntry(pos: nat)
      requires WellFormed() && pos < |outbReq| && Placed(outbReq[pos])
      modifies this`statusOut, this`outbReq, index, high
      ensures WellFormed() && outbReq == old(outbReq[..pos] + outbReq[pos + 1..])
      ensures Files(FreeSet(statusOut), index[..], high[..])
           == Dropped(old(Files(FreeSet(statusOut), index[..], high[..])), old(outbReq[pos]))
    {
      BlankWindows(outbReq[pos]);
      outbReq := outbReq[..pos] + outbReq[pos + 1..];
    }

    /** Zeroes the registers of a mapping's windows and marks the windows free. */
    method BlankWindows(m: Mapping)
      requires WellFormed() && Placed(m)
      modifies this`statusOut, index, high
      ensures WellFormed()
      ensures FreeSet(statusOut) == FreeSet(old(statusOut)) + Interval(m.start, m.regions)
      ensures index[..] == BlankOne(old(index[..]), m) && high[..] == BlankOne(old(high[..]), m)
    {
      var i := 0;
      while i < m.regions
        invariant i <= m.regions
        invariant WellFormed()
        invariant FreeSet(statusOut) == FreeSet(old(statusOut)) + Interval(m.start, i)
        invariant forall w :: 0 <= w < WINDOWS ==> index[w] == if m.start <= w < m.start + i then 0 else old(index[w])
        invariant forall w :: 0 <= w < WINDOWS ==> high[w] == if m.start <= w < m.start + i then 0 else old(high[w])
      {
        index[m.start + i] := 0;
        high[m.start + i] := 0;
        ReturnBit(statusOut, m.start + i);
        statusOut := RaiseBit(statusOut, m.start + i);
        i := i + 1;
      }
    }

    /** Aims window 31 and returns the CPU address the message data is written to. */
    method SendMsi(lo: u32, up: u32) returns (address: nat)
      requires Valid()
      modifies index, high
      ensures Valid()
      ensures Abs() == AimMsi(old(Abs()), lo, up)
      ensures address == APERTURE + MSI_WINDOW * WindowSize(obSize) + lo % WindowSize(obSize)
    {
      var regionSize := WindowSize(obSize);
      RoundDown(lo, regionSize);
      var roundedAddrLs := lo / regionSize * regionSize;
      var offset := lo % regionSize;
      var msiObAddr := APERTURE + 31 * regionSize;
      high[31] := up;
      index[31] := Enabled(roundedAddrLs);
      address := msiObAddr + offset;
    }
  }

  lemma RoundDown(x: nat, window: nat)
    requires window > 0
    ensures x / window * window == x - x % window
  {
  }

  /** One more window of a mapping programmed. */
  lemma ProgramNext(index: seq<u32>, high: seq<u32>, m: Mapping, i: nat, window: nat, low: u32, up: u32)
    requires i < m.regions && m.start + i < |index| == |high|
    requires up * TWO32 + low == Target(m.hi, m.idx, i, window)
    ensures ProgramIndex(index, m.(regions := i + 1), window)
         == ProgramIndex(index, m.(regions := i), window)[m.start + i := Enabled(low)]
    ensures ProgramHigh(high, m.(regions := i + 1), window)
         == ProgramHigh(high, m.(regions := i), window)[m.start + i := up]
  {
    WordsOfTarget(up, low);
  }

  /** A request with a place becomes a mapping there. */
  lemma Served(s: Windows, r: Request, m: Mapping, window: nat)
    requires Agree(s) && window == WindowSize(s.obSize) && m.start < MSI_WINDOW
    requires m == Mapping(r.hi, r.idx, FirstFit(s.free, Needed(r.size, window)), Needed(r.size, window), r.size)
    ensures Placed(m) && 0 < window < TWO32
    ensures SetOut(s, r) == Outcome(Place(s, m, window), OK) && Agree(Place(s, m, window))
  {
    ServedFits(s.free, r.size, window);
    SetOutKeepsAgree(s, r);
  }

  /** A request without one changes nothing. */
  lemma Refused(s: Windows, r: Request)
    requires FirstFit(s.free, Needed(r.size, WindowSize(s.obSize))) >= MSI_WINDOW
    ensures SetOut(s, r) == Outcome(s, RefusalCode(s, r))
  {
  }

  lemma NoBitInZero(k: nat)
    ensures !IsSet(0, k)
  {
  }

  lemma TopBitClear(word: nat)
    requires word <= ALL_FREE
    ensures !IsSet(word, 31)
  {
    AllFreeIsOnes();
    AboveClear(word, 31);
  }

  lemma {:induction false} AboveClear(word: nat, n: nat)
    requires word <= Ones(n)
    ensures !IsSet(word, n)
    decreases n
  {
    if n > 0 {
      AboveClear(word / 2, n - 1);
    }
  }

  ghost predicate NoneBelow(free: set<nat>, n: nat, bound: nat) {
    n > 0 ==> forall t: nat :: t < bound ==> !Fits(free, t, n)
  }

  lemma FirstFitIs(free: set<nat>, n: nat, start: nat)
    requires NoneBelow(free, n, start)
    requires start == MSI_WINDOW || (n > 0 && Fits(free, start, n))
    ensures FirstFit(free, n) == start
  {
  }

  /** A register file with the windows of one mapping zeroed. */
  function BlankOne(regs: seq<u32>, m: Mapping): (r: seq<u32>)
    ensures |r| == |regs|
  {
    seq(|regs|, w requires 0 <= w < |regs| => if Covers(m, w) then 0 else regs[w])
  }

  datatype Files = Files(free: set<nat>, index: seq<u32>, high: seq<u32>)

  /** One mapping's windows freed and zeroed. */
  function Dropped(f: Files, m: Mapping): Files {
    Files(f.free + Interval(m.start, m.regions), BlankOne(f.index, m), BlankOne(f.high, m))
  }

  /** Free windows and registers after the mappings in `done` have been looked at, one by one. */
  ghost function Visited(was: Windows, done: seq<Mapping>, hi: u32, idx: u32): Files
    decreases |done|
  {
    if done == [] then Files(was.free, was.index, was.high)
    else
      var f, m := Visited(was, done[..|done| - 1], hi, idx), done[|done| - 1];
      if HasKey(m, hi, idx) then Dropped(f, m) else f
  }

  lemma VisitedStep(was: Windows, live: seq<Mapping>, k: nat, hi: u32, idx: u32)
    requires k < |live|
    ensures Visited(was, live[..k + 1], hi, idx) ==
              var f, m := Visited(was, live[..k], hi, idx), live[k];
              if HasKey(m, hi, idx) then Dropped(f, m) else f
  {
    assert live[..k + 1][..k] == live[..k];
  }

  lemma {:induction false} VisitedAll(was: Windows, done: seq<Mapping>, hi: u32, idx: u32)
    requires forall i :: 0 <= i < |done| ==> Placed(done[i])
    ensures Visited(was, done, hi, idx)
              == Files(was.free + KeyedWindows(done, hi, idx),
                       Blank(was.index, done, hi, idx), Blank(was.high, done, hi, idx))
    decreases |done|
  {
    if done != [] {
      var n := |done| - 1;
      VisitedAll(was, done[..n], hi, idx);
      KeyedStep(done, n, hi, idx);
      assert done[..n + 1] == done;
    }
  }

  /** The list and the cursor after k of the original entries have been looked at. */
  ghost predicate Walked(live: seq<Mapping>, k: nat, hi: u32, idx: u32, list: seq<Mapping>, pos: nat) {
    && k <= |live|
    && pos == |Without(live[..k], hi, idx)|
    && list == Without(live[..k], hi, idx) + live[k..]
  }

  lemma WalkedStep(live: seq<Mapping>, k: nat, hi: u32, idx: u32, list: seq<Mapping>, pos: nat)
    requires Walked(live, k, hi, idx, list, pos) && k < |live|
    ensures if HasKey(live[k], hi, idx) then Walked(live, k + 1, hi, idx, list[..pos] + list[pos + 1..], pos)
            else Walked(live, k + 1, hi, idx, list, pos + 1)
  {
    WithoutStep(live, k, hi, idx);
  }

  /** When the cursor has reached the end, all that matched is gone. */
  lemma WalkDone(was: Windows, live: seq<Mapping>, k: nat, hi: u32, idx: u32, list: seq<Mapping>, pos: nat)
    requires Walked(live, k, hi, idx, list, pos) && pos >= |list| && was.live == live
    requires forall i :: 0 <= i < |live| ==> Placed(live[i])
    ensures list == ClearOut(was, hi, idx).live
    ensures Visited(was, live[..k], hi, idx)
         == Files(ClearOut(was, hi, idx).free, ClearOut(was, hi, idx).index, ClearOut(was, hi, idx).high)
  {
    assert live[..k] == live;
    VisitedAll(was, live, hi, idx);
  }

  lemma WithoutStep(live: seq<Mapping>, k: nat, hi: u32, idx: u32)
    requires k < |live|
    ensures Without(live[..k + 1], hi, idx)
              == Without(live[..k], hi, idx) + if HasKey(live[k], hi, idx) then [] else [live[k]]
  {
    assert live[..k + 1][..k] == live[..k];
  }

  lemma KeyedStep(live: seq<Mapping>, k: nat, hi: u32, idx: u32)
    requires k < |live|
    ensures forall w :: Keyed(live[..k + 1], hi, idx, w) <==>
              Keyed(live[..k], hi, idx, w) || (HasKey(live[k], hi, idx) && Covers(live[k], w))
  {
  }
}
