/** Which windows translate at all: throughout a session exactly the mapped ones, so that a cleared mapping reaches
    nothing any more until its windows are mapped again. */
module OutboundClearing {
  import opened Arithmetic
  import opened OutboundTranslation
  import opened OutboundWindows
  import opened Wrappers

  /** A clear zeroes both registers of every window of every mapping under the key, and frees the windows. */
  lemma ClearedWindow(s: Windows, hi: u32, idx: u32, i: nat, w: nat)
    requires Agree(s) && i < |s.live| && HasKey(s.live[i], hi, idx) && Covers(s.live[i], w)
    ensures var s' := ClearOut(s, hi, idx);
            s'.index[w] == 0 && s'.high[w] == 0 && w in s'.free
  {
    assert Keyed(s.live, hi, idx, w);
  }

  /** The windows of all other mappings keep their registers, and no mapping under the key is left. */
  lemma ClearedMappings(s: Windows, hi: u32, idx: u32)
    requires Agree(s)
    ensures forall m :: m in ClearOut(s, hi, idx).live <==> m in s.live && !(m.hi == hi && m.idx == idx)
  {
    WithoutMembers(s.live, hi, idx);
  }

  lemma DecodeDark(index: seq<u32>, high: seq<u32>, window: nat, start: nat, d: nat)
    requires |index| == |high| == WINDOWS && window > 0
    requires start + d / window < WINDOWS && index[start + d / window] == 0
    ensures Decode(index, high, window, d + start * window) == None
  {
    AddMultiple(d, window, start);
  }

  /** No offset into a cleared mapping reaches anything. */
  lemma ClearedTranslatesNothing(s: Windows, hi: u32, idx: u32, i: nat, d: nat)
    requires Agree(s) && i < |s.live| && s.live[i].hi == hi && s.live[i].idx == idx
    requires d < s.live[i].regions * WindowSize(s.obSize)
    ensures Translate(ClearOut(s, hi, idx), d + s.live[i].start * WindowSize(s.obSize)) == None
  {
    var m, window := s.live[i], WindowSize(s.obSize);
    DivBelow(d, m.regions, window);
    ClearedWindow(s, hi, idx, i, m.start + d / window);
    DecodeDark(ClearOut(s, hi, idx).index, ClearOut(s, hi, idx).high, window, m.start, d);
  }

  /* ---------------------------------------------------------------- sessions */

  /** Exactly the mapped windows among 0..30 are enabled. */
  ghost predicate Lit(s: Windows) {
    && |s.index| == |s.high| == WINDOWS
    && forall w: nat :: w < MSI_WINDOW ==> (s.index[w] % 2 == 1 <==> Taken(s.live, w))
  }

  lemma EnabledIsOdd(x: u32)
    ensures Enabled(x) % 2 == 1
  {
  }

  lemma PlaceKeepsLit(s: Windows, m: Mapping, window: nat)
    requires Lit(s)
    ensures Lit(Place(s, m, window))
  {
    var s' := Place(s, m, window);
    forall w: nat | w < MSI_WINDOW
      ensures s'.index[w] % 2 == 1 <==> Taken(s'.live, w)
    {
      TakenAppend(s.live, m, w);
      if Covers(m, w) {
        EnabledIsOdd(Target(m.hi, m.idx, w - m.start, window) % TWO32);
      }
    }
  }

  lemma SetOutKeepsLit(s: Windows, r: Request)
    requires Lit(s)
    ensures Lit(SetOut(s, r).state)
  {
    var window := WindowSize(s.obSize);
    var n := Needed(r.size, window);
    PlaceKeepsLit(s, Mapping(r.hi, r.idx, FirstFit(s.free, n), n, r.size), window);
  }

  lemma ClearOutKeepsLit(s: Windows, hi: u32, idx: u32)
    requires Agree(s) && Lit(s)
    ensures Lit(ClearOut(s, hi, idx))
  {
    ClearOutKeepsAgree(s, hi, idx);
    var s' := ClearOut(s, hi, idx);
    forall w: nat | w < MSI_WINDOW
      ensures s'.index[w] % 2 == 1 <==> Taken(s'.live, w)
    {
      assert w in s'.free <==> w in s.free || Keyed(s.live, hi, idx, w);
    }
  }

  lemma StepKeepsLit(s: Windows, op: Ioctl)
    requires Agree(s) && Lit(s)
    ensures Lit(Step(s, op))
  {
    match op
    case SetSize(_) =>
    case SetOutbound(r) => SetOutKeepsLit(s, r);
    case ClearOutbound(hi, idx) => ClearOutKeepsLit(s, hi, idx);
    case SendMsi(_, _) =>
  }

  lemma {:induction false} SessionKeepsLit(s: Windows, ops: seq<Ioctl>, s': Windows)
    requires Agree(s) && Lit(s) && Session(s, ops, s')
    ensures Agree(s') && Lit(s')
    decreases |ops|
  {
    if ops != [] {
      StepKeepsAgree(s, ops[0]);
      StepKeepsLit(s, ops[0]);
      SessionKeepsLit(Step(s, ops[0]), ops[1..], s');
    }
  }

  /** In every state of every session, whatever sizes, mappings and messages it asks for: an offset below window 31
      reaches something exactly when its window belongs to a mapping. */
  lemma OnlyMappedTranslate(s: Windows, ops: seq<Ioctl>, s': Windows, offset: nat)
    requires Agree(s) && Lit(s) && Session(s, ops, s')
    requires offset / WindowSize(s'.obSize) < MSI_WINDOW
    ensures |s'.index| == |s'.high| == WINDOWS
    ensures Translate(s', offset) != None <==> Taken(s'.live, offset / WindowSize(s'.obSize))
  {
    SessionKeepsLit(s, ops, s');
  }

  /** So it is from the first open on, when the registers are clear. */
  lemma FreshIsLit(s: Windows)
    requires |s.index| == |s.high| == WINDOWS && s.live == []
    requires forall w :: 0 <= w < MSI_WINDOW ==> s.index[w] == 0
    ensures Agree(Open(s)) && Lit(Open(s))
  {
    OpenAgrees(s);
  }

  /** Closing forgets the mappings but leaves their windows enabled: after the next open it is so exactly when nothing
      was mapped. */
  lemma ReopenIsLit(s: Windows)
    requires Agree(s) && Lit(s)
    ensures Lit(Open(Close(s))) <==> s.live == []
  {
    if s.live != [] {
      var m := s.live[0];
      assert Placed(m) && Covers(m, m.start);
      assert Taken(s.live, m.start);
      assert !Taken([], m.start);
    }
  }
}
