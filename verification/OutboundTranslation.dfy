/** What the window registers make the hardware do: the address a CPU access turns into on the bus. */
module OutboundTranslation {
  import opened Arithmetic
  import opened OutboundWindows
  import opened Wrappers

  /** The hardware splits an aperture offset into a window number and an offset inside the window.
      An enabled window contributes the high register and the window-aligned part of the index register. */
  function Decode(index: seq<u32>, high: seq<u32>, window: nat, offset: nat): Option<int>
    requires |index| == |high| == WINDOWS && window > 0
  {
    var w := offset / window;
    if w < WINDOWS && index[w] % 2 == 1 then
      Some(high[w] * TWO32 + (index[w] - index[w] % window) + offset % window)
    else None
  }

  function Translate(s: Windows, offset: nat): Option<int>
    requires |s.index| == |s.high| == WINDOWS
  {
    Decode(s.index, s.high, WindowSize(s.obSize), offset)
  }

  function Base(m: Mapping): nat {
    m.hi * TWO32 + m.idx
  }

  /** The registers of a mapping's windows hold what the mapping programmed. */
  ghost predicate Holds(s: Windows, m: Mapping)
    requires |s.index| == |s.high| == WINDOWS && Placed(m)
  {
    forall w :: m.start <= w < m.start + m.regions ==>
      s.index[w] == IndexOf(m, w, WindowSize(s.obSize)) && s.high[w] == HighOf(m, w, WindowSize(s.obSize))
  }

  /** The invariant together with the registers of every live mapping. */
  ghost predicate Programmed(s: Windows) {
    Agree(s) && forall i :: 0 <= i < |s.live| ==> Holds(s, s.live[i])
  }

  lemma SetOutKeepsProgrammed(s: Windows, r: Request)
    requires Programmed(s)
    ensures Programmed(SetOut(s, r).state)
  {
    SetOutKeepsAgree(s, r);
    var o := SetOut(s, r);
    if o.code == OK {
      var m := o.state.live[|s.live|];
      forall i | 0 <= i < |o.state.live|
        ensures Holds(o.state, o.state.live[i])
      {
        if i < |s.live| {
          var a := s.live[i];
          assert o.state.live[i] == a && Holds(s, a);
          assert Apart(o.state.live[i], o.state.live[|s.live|]);
        }
      }
    }
  }

  lemma ClearOutKeepsProgrammed(s: Windows, hi: u32, idx: u32)
    requires Programmed(s)
    ensures Programmed(ClearOut(s, hi, idx))
  {
    ClearOutKeepsAgree(s, hi, idx);
    WithoutMembers(s.live, hi, idx);
    var s' := ClearOut(s, hi, idx);
    forall i | 0 <= i < |s'.live|
      ensures Holds(s', s'.live[i])
    {
      var m := s'.live[i];
      assert m in s.live;
      var j :| 0 <= j < |s.live| && s.live[j] == m;
      assert Holds(s, s.live[j]);
      forall w: nat | Covers(m, w)
        ensures !Keyed(s.live, hi, idx, w)
      {
        forall k | 0 <= k < |s.live| && Covers(s.live[k], w)
          ensures k == j
        {
          assert k < j ==> Apart(s.live[k], s.live[j]);
          assert j < k ==> Apart(s.live[j], s.live[k]);
        }
      }
    }
  }

  lemma AimMsiKeepsProgrammed(s: Windows, lo: u32, up: u32)
    requires Programmed(s)
    ensures Programmed(AimMsi(s, lo, up))
  {
  }

  /** A call that leaves the window size alone while mappings are live. */
  ghost predicate Steady(s: Windows, op: Ioctl) {
    op.SetSize? ==> s.live == [] || op.ob == s.obSize
  }

  ghost predicate SteadySession(s: Windows, ops: seq<Ioctl>)
    decreases |ops|
  {
    ops == [] || (Agree(s) && Steady(s, ops[0]) && SteadySession(Step(s, ops[0]), ops[1..]))
  }

  /** Throughout a session in which the window size changes only between mappings, every live mapping's
      registers stay as it programmed them. */
  lemma {:induction false} SessionKeepsProgrammed(s: Windows, ops: seq<Ioctl>, s': Windows)
    requires Programmed(s) && SteadySession(s, ops) && Session(s, ops, s')
    ensures Programmed(s')
    decreases |ops|
  {
    if ops != [] {
      match ops[0] {
        case SetSize(_) =>
        case SetOutbound(r) => SetOutKeepsProgrammed(s, r);
        case ClearOutbound(hi, idx) => ClearOutKeepsProgrammed(s, hi, idx);
        case SendMsi(lo, up) => AimMsiKeepsProgrammed(s, lo, up);
      }
      SessionKeepsProgrammed(Step(s, ops[0]), ops[1..], s');
    }
  }

  /* ---------------------------------------------------------------- address arithmetic */

  /** A window size: even, and a divisor of 2^32. */
  predicate Divides(window: nat, share: nat) {
    window > 1 && window % 2 == 0 && TWO32 == share * window
  }

  /** The number of windows in 4 GB. */
  function Share(ob: ObSize): nat {
    if ob == 0 then 4096 else if ob == 1 then 2048 else if ob == 2 then 1024 else 512
  }

  lemma WindowDivides(ob: ObSize)
    ensures Divides(WindowSize(ob), Share(ob))
  {
  }

  /** Enabling a window sets a bit that the hardware ignores in the address. */
  lemma EnabledAligned(low: u32, window: nat)
    requires window > 1 && window % 2 == 0 && low % window == 0
    ensures Enabled(low) % 2 == 1
    ensures Enabled(low) - Enabled(low) % window == low
  {
    var q := low / window;
    EvenMultiple(low, q, window, window / 2);
    DivModUnique(low + 1, window, q, 1);
  }

  lemma EvenMultiple(x: nat, q: nat, window: nat, half: nat)
    requires x == q * window && window == 2 * half
    ensures x % 2 == 0
  {
    assert q * window == (q * half) * 2;
  }

  /** The targets of an aligned base are aligned, and so is their low word. */
  lemma TargetAligned(base: nat, i: nat, window: nat, share: nat)
    requires Divides(window, share) && base % window == 0
    ensures var t := (base + i * window) % TWO64;
            t % window == 0 && (t % TWO32) % window == 0 && t + window <= TWO64
  {
    assert TWO64 == (share * TWO32) * window;
    AddMultiple(base, window, i);
    ModOfMod(base + i * window, TWO64, window, share * TWO32);
    var t := (base + i * window) % TWO64;
    ModOfMod(t, TWO32, window, share);
    MultipleOf(TWO64, window, share * TWO32);
    MultiplesApart(t, TWO64, window);
  }

  /** An offset into the window never carries out of the aligned target. */
  lemma AddWithinWindow(base: nat, d: nat, window: nat, share: nat)
    requires Divides(window, share) && base % window == 0
    ensures (base + d / window * window) % TWO64 + d % window == (base + d) % TWO64
  {
    var x := base + d / window * window;
    assert d == d / window * window + d % window;
    TargetAligned(base, d / window, window, share);
    DivModUnique(x + d % window, TWO64, x / TWO64, x % TWO64 + d % window);
  }

  /** Offset d into a live mapping reaches the mapping's base plus d, modulo 2^64. */
  ghost predicate Reaches(s: Windows, m: Mapping, d: nat)
    requires |s.index| == |s.high| == WINDOWS
  {
    Translate(s, d + m.start * WindowSize(s.obSize)) == Some((Base(m) + d) % TWO64)
  }

  lemma AlignedBase(m: Mapping, window: nat, share: nat)
    requires Divides(window, share) && m.idx % window == 0
    ensures Base(m) % window == 0
  {
    AddMultiple(m.idx, window, m.hi * share);
    assert m.hi * TWO32 == (m.hi * share) * window;
  }

  /** The register values of an aligned mapping decode to the target they were made from. */
  lemma ValuesDecode(m: Mapping, k: nat, window: nat, share: nat)
    requires Divides(window, share) && m.idx % window == 0
    ensures var t := Target(m.hi, m.idx, k, window);
            && Enabled(t % TWO32) % 2 == 1
            && t / TWO32 * TWO32 + (Enabled(t % TWO32) - Enabled(t % TWO32) % window) == t
  {
    var t := Target(m.hi, m.idx, k, window);
    AlignedBase(m, window, share);
    TargetAligned(Base(m), k, window, share);
    EnabledAligned(t % TWO32, window);
  }

  /** The registers of the k-th window of an aligned mapping decode to that window's target. */
  lemma RegistersDecode(s: Windows, m: Mapping, k: nat)
    requires |s.index| == |s.high| == WINDOWS && Placed(m) && Holds(s, m)
    requires m.idx % WindowSize(s.obSize) == 0 && k < m.regions
    ensures var w := m.start + k;
            && s.index[w] % 2 == 1
            && s.high[w] * TWO32 + (s.index[w] - s.index[w] % WindowSize(s.obSize))
               == Target(m.hi, m.idx, k, WindowSize(s.obSize))
  {
    var w := m.start + k;
    assert Covers(m, w);
    assert s.index[w] == IndexOf(m, w, WindowSize(s.obSize)) && s.high[w] == HighOf(m, w, WindowSize(s.obSize));
    WindowDivides(s.obSize);
    ValuesDecode(m, k, WindowSize(s.obSize), Share(s.obSize));
  }

  lemma DecodeOffset(index: seq<u32>, high: seq<u32>, window: nat, start: nat, d: nat, t: nat)
    requires |index| == |high| == WINDOWS && window > 0
    requires start + d / window < WINDOWS
    requires index[start + d / window] % 2 == 1
    requires t == high[start + d / window] * TWO32 + (index[start + d / window] - index[start + d / window] % window)
    ensures Decode(index, high, window, d + start * window) == Some(t + d % window)
  {
    AddMultiple(d, window, start);
  }

  lemma AlignedOffset(s: Windows, m: Mapping, d: nat)
    requires |s.index| == |s.high| == WINDOWS && Placed(m) && Holds(s, m)
    requires m.idx % WindowSize(s.obSize) == 0 && d < m.regions * WindowSize(s.obSize)
    ensures Reaches(s, m, d)
  {
    var window := WindowSize(s.obSize);
    var t := Target(m.hi, m.idx, d / window, window);
    DivBelow(d, m.regions, window);
    RegistersDecode(s, m, d / window);
    DecodeOffset(s.index, s.high, window, m.start, d, t);
    assert t + d % window == (Base(m) + d) % TWO64 by {
      WindowDivides(s.obSize);
      AlignedBase(m, window, Share(s.obSize));
      AddWithinWindow(Base(m), d, window, Share(s.obSize));
    }
  }

  /** A misaligned base is rounded down by the hardware, so already the first byte goes astray. */
  lemma MisalignedStart(s: Windows, m: Mapping)
    requires |s.index| == |s.high| == WINDOWS && Placed(m) && Holds(s, m)
    requires m.idx % WindowSize(s.obSize) != 0
    ensures !Reaches(s, m, 0)
  {
    var window := WindowSize(s.obSize);
    FirstRegisters(s, m);
    DecodeStart(s.index, s.high, window, m.start, 0 + m.start * window);
    StrayValue(Translate(s, 0 + m.start * window), m.hi, m.idx, window);
  }

  lemma DecodeStart(index: seq<u32>, high: seq<u32>, window: nat, start: nat, offset: nat)
    requires |index| == |high| == WINDOWS && window > 0 && start < WINDOWS
    requires index[start] % 2 == 1 && offset == start * window
    ensures Decode(index, high, window, offset)
         == Some(high[start] * TWO32 + (index[start] - index[start] % window))
  {
    MultipleOf(offset, window, start);
  }

  lemma StrayValue(got: Option<int>, hi: u32, idx: u32, window: nat)
    requires window > 0 && idx % window != 0
    requires got == Some(hi * TWO32 + (Enabled(idx) - Enabled(idx) % window))
    ensures got != Some((hi * TWO32 + idx) % TWO64)
  {
    RoundedDown(idx, window);
  }

  lemma FirstRegisters(s: Windows, m: Mapping)
    requires |s.index| == |s.high| == WINDOWS && Placed(m) && Holds(s, m)
    ensures s.index[m.start] == Enabled(m.idx) && s.high[m.start] == m.hi
  {
    assert Covers(m, m.start);
    assert Target(m.hi, m.idx, 0, WindowSize(s.obSize)) == m.hi * TWO32 + m.idx;
  }

  lemma RoundedDown(x: u32, window: nat)
    requires window > 0 && x % window != 0
    ensures Enabled(x) - Enabled(x) % window != x
  {
    var e := Enabled(x);
    assert e == (e / window) * window + e % window;
    if e - e % window == x {
      MultipleOf(x, window, e / window);
    }
  }

  /** Translation is exact: every offset inside a live mapping reaches its bus address, exactly when the
      mapping's base is aligned to the window size. */
  lemma TranslationIsExact(s: Windows, i: nat)
    requires Programmed(s) && i < |s.live|
    ensures var m, window := s.live[i], WindowSize(s.obSize);
            (forall d: nat :: d < m.regions * window ==> Reaches(s, m, d)) <==> m.idx % window == 0
  {
    var m, window := s.live[i], WindowSize(s.obSize);
    assert Holds(s, m);
    if m.idx % window == 0 {
      forall d: nat | d < m.regions * window
        ensures Reaches(s, m, d)
      {
        AlignedOffset(s, m, d);
      }
    } else {
      MisalignedStart(s, m);
      MulAtLeast(m.regions, 1, window);
    }
  }

  /** A message-signalled interrupt reaches exactly its 64-bit address: the CPU writes at the message's
      offset inside window 31, whose registers were just aimed.  The other windows are untouched. */
  lemma MsiIsExact(s: Windows, lo: u32, up: u32)
    requires |s.index| == |s.high| == WINDOWS
    ensures var window := WindowSize(s.obSize);
            var s' := AimMsi(s, lo, up);
            && Translate(s', lo % window + MSI_WINDOW * window) == Some(up * TWO32 + lo)
            && (forall w :: 0 <= w < MSI_WINDOW ==> s'.index[w] == s.index[w] && s'.high[w] == s.high[w])
  {
    var window := WindowSize(s.obSize);
    var s' := AimMsi(s, lo, up);
    WindowDivides(s.obSize);
    DivModUnique(lo % window, window, 0, lo % window);
    MultipleOf(lo - lo % window, window, lo / window);
    EnabledAligned(lo - lo % window, window);
    DecodeOffset(s'.index, s'.high, window, MSI_WINDOW, lo % window, up * TWO32 + (lo - lo % window));
  }

  /** The driver serves misaligned requests: after an open, a request for one window at bus address 1 is mapped,
      and already the first byte of the mapping goes astray. */
  lemma MisalignedIsServed(s: Windows)
    requires |s.index| == |s.high| == WINDOWS && s.live == []
    ensures var o := SetOut(Open(s), Request(0, 1, MB));
            && o.code == OK && Programmed(o.state) && |o.state.live| == 1
            && !Reaches(o.state, o.state.live[0], 0)
  {
    var t, r := Open(s), Request(0, 1, MB);
    OpenAgrees(s);
    OneWindow(s.obSize);
    assert Fits(t.free, 0, 1);
    SetOutKeepsProgrammed(t, r);
    var o := SetOut(t, r);
    assert Holds(o.state, o.state.live[0]);
    MisalignedStart(o.state, o.state.live[0]);
  }

  lemma OneWindow(ob: ObSize)
    ensures Needed(MB, WindowSize(ob)) == 1 && 1 % WindowSize(ob) != 0
  {
  }
}
