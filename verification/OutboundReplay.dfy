/** What the two refusal codes of the window allocator promise about a session replayed from scratch. */
module OutboundReplay {
  import opened Arithmetic
  import opened OutboundWindows

  /** The state after serving the requests in order. */
  function Replay(s: Windows, requests: seq<Request>): Windows {
    if requests == [] then s
    else SetOut(Replay(s, requests[..|requests| - 1]), requests[|requests| - 1]).state
  }

  /** Every call of the replay returns 0. */
  predicate AllServed(s: Windows, requests: seq<Request>) {
    requests == [] ||
    (var front := requests[..|requests| - 1];
     AllServed(s, front) && SetOut(Replay(s, front), requests[|requests| - 1]).code == OK)
  }

  /** The same device closed, opened again, and set to the given window size. */
  function FreshSession(s: Windows, ob: ObSize): Windows {
    Open(Close(s)).(obSize := ob)
  }

  function RequestOf(m: Mapping): Request {
    Request(m.hi, m.idx, m.size)
  }

  /** The requests behind the live mappings, oldest first. */
  function LiveRequests(live: seq<Mapping>): (requests: seq<Request>)
    ensures |requests| == |live|
    ensures forall i :: 0 <= i < |live| ==> requests[i] == RequestOf(live[i])
  {
    seq(|live|, i requires 0 <= i < |live| => RequestOf(live[i]))
  }

  function SumNeeded(requests: seq<Request>, window: nat): nat
    requires window > 0
  {
    if requests == [] then 0
    else SumNeeded(requests[..|requests| - 1], window) + Needed(requests[|requests| - 1].size, window)
  }

  lemma {:induction false} SumOverLive(live: seq<Mapping>, window: nat)
    requires window > 0
    ensures SumNeeded(LiveRequests(live), window) == TotalNeeded(live, window)
  {
    if live != [] {
      var front := live[..|live| - 1];
      SumOverLive(front, window);
      assert LiveRequests(live)[..|live| - 1] == LiveRequests(front);
    }
  }

  /** In a session where windows t..30 are the free ones, a request lands at t or is refused. */
  lemma NextFit(s: Windows, t: nat, r: Request)
    requires t <= MSI_WINDOW && s.free == Interval(t, MSI_WINDOW - t) && r.size > 0
    ensures var n := Needed(r.size, WindowSize(s.obSize));
            var o := SetOut(s, r);
            && (o.code == OK <==> t + n <= MSI_WINDOW)
            && (o.code == OK ==> o.state.free == Interval(t + n, MSI_WINDOW - t - n))
            && o.state.obSize == s.obSize
  {
    var n := Needed(r.size, WindowSize(s.obSize));
    var start := FirstFit(s.free, n);
    if start < MSI_WINDOW {
      assert start in s.free;
      assert start + n - 1 in s.free;
      assert Fits(s.free, t, n);
    } else if t + n <= MSI_WINDOW {
      assert Fits(s.free, t, n);
    }
  }

  /** The windows left when `total` of them have been handed out from window 0 up. */
  predicate Packed(e: Windows, total: nat, ob: ObSize) {
    total <= MSI_WINDOW && e.free == Interval(total, MSI_WINDOW - total) && e.obSize == ob
  }

  lemma PackNext(e: Windows, total: nat, r: Request, window: nat)
    requires Packed(e, total, e.obSize) && r.size > 0 && window == WindowSize(e.obSize)
    ensures SetOut(e, r).code == OK <==> total + Needed(r.size, window) <= MSI_WINDOW
    ensures SetOut(e, r).code == OK ==> Packed(SetOut(e, r).state, total + Needed(r.size, window), e.obSize)
  {
    NextFit(e, total, r);
  }

  lemma {:induction false} PackedReplay(s: Windows, requests: seq<Request>, window: nat)
    requires s.free == Interval(0, MSI_WINDOW) && window == WindowSize(s.obSize)
    requires forall i :: 0 <= i < |requests| ==> requests[i].size > 0
    ensures AllServed(s, requests) <==> SumNeeded(requests, window) <= MSI_WINDOW
    ensures AllServed(s, requests) ==> Packed(Replay(s, requests), SumNeeded(requests, window), s.obSize)
  {
    if requests != [] {
      var front, r := requests[..|requests| - 1], requests[|requests| - 1];
      PackedReplay(s, front, window);
      if AllServed(s, front) {
        PackNext(Replay(s, front), SumNeeded(front, window), r, window);
      }
    }
  }

  /** A fresh session packs its mappings from window 0 up, so it serves them all exactly when their
      sizes, rounded up to whole windows, sum to at most thirty-one. */
  lemma PackedFromFresh(s: Windows, requests: seq<Request>)
    requires s.free == Interval(0, MSI_WINDOW)
    requires forall i :: 0 <= i < |requests| ==> requests[i].size > 0
    ensures var total := SumNeeded(requests, WindowSize(s.obSize));
            && (AllServed(s, requests) <==> total <= MSI_WINDOW)
            && (AllServed(s, requests) ==> Packed(Replay(s, requests), total, s.obSize))
  {
    PackedReplay(s, requests, WindowSize(s.obSize));
  }

  lemma NeededFalls(size: nat, small: nat, large: nat)
    requires 0 < small <= large
    ensures Needed(size, small) >= Needed(size, large)
  {
    var n := Needed(size, small);
    NeededIsLeast(size, small, n);
    NeededIsLeast(size, large, n);
    MulAtLeast(large, small, n);
  }

  lemma {:induction false} SmallerWindowsNeedMore(requests: seq<Request>, ob: ObSize)
    ensures SumNeeded(requests, WindowSize(ob)) >= SumNeeded(requests, 8 * MB)
  {
    if requests != [] {
      SmallerWindowsNeedMore(requests[..|requests| - 1], ob);
      var size := requests[|requests| - 1].size;
      NeededFalls(size, WindowSize(ob), 8 * MB);
    }
  }

  /** The meaning of a refusal.  Below the 8 MB window size, INOB says exactly that all live requests
      and the refused one, replayed in order from a fresh session with 8 MB windows, are all served;
      NMEM says that no window size up to 8 MB would serve them all.  At 8 MB a refusal is NMEM. */
  lemma RefusalMeaning(s: Windows, r: Request)
    requires Agree(s) && r.size > 0
    requires SetOut(s, r).code != OK
    ensures var all := LiveRequests(s.live) + [r];
            var code := SetOut(s, r).code;
            && (code == INOB || code == NMEM)
            && (s.obSize < 3 ==> (code == INOB <==> AllServed(FreshSession(s, 3), all)))
            && (s.obSize < 3 && code == NMEM ==> forall ob: ObSize :: !AllServed(FreshSession(s, ob), all))
            && (s.obSize == 3 ==> code == NMEM)
  {
    var all := LiveRequests(s.live) + [r];
    SumOverLive(s.live, 8 * MB);
    assert all[..|all| - 1] == LiveRequests(s.live);
    forall ob: ObSize
      ensures AllServed(FreshSession(s, ob), all) <==> SumNeeded(all, WindowSize(ob)) <= MSI_WINDOW
      ensures SumNeeded(all, WindowSize(ob)) >= SumNeeded(all, 8 * MB)
    {
      PackedFromFresh(FreshSession(s, ob), all);
      SmallerWindowsNeedMore(all, ob);
    }
  }

  lemma {:induction false} TotalNeededBound(live: seq<Mapping>)
    ensures TotalNeeded(live, 8 * MB) <= 512 * |live|
  {
    if live != [] {
      TotalNeededBound(live[..|live| - 1]);
    }
  }

  lemma {:induction false} LiveBound(live: seq<Mapping>)
    requires forall i :: 0 <= i < |live| ==> Placed(live[i])
    ensures |live| <= SumRegions(live)
  {
    if live != [] {
      LiveBound(live[..|live| - 1]);
    }
  }

  /** The driver's 32-bit counters never wrap. */
  lemma CountersFit(s: Windows, r: Request)
    requires Agree(s)
    ensures SumRegions(s.live) + Needed(r.size, WindowSize(s.obSize)) < TWO32
    ensures TotalNeeded(s.live, 8 * MB) + Needed(r.size, 8 * MB) < TWO32
  {
    FreeAndUsedMakeAll(s);
    LiveBound(s.live);
    TotalNeededBound(s.live);
  }
}
