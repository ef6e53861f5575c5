// What a sliding window of admitted timestamps promises. Shared by the rate
// limiter and the notification hub; time is any real clock that never goes back.
module Throttling {
  /** How many of the timestamps lie in (lo, hi]. */
  function CountIn(ts: seq<real>, lo: real, hi: real): nat {
    if ts == [] then 0
    else CountIn(ts[..|ts| - 1], lo, hi) + (if lo < ts[|ts| - 1] <= hi then 1 else 0)
  }

  ghost predicate Ordered(ts: seq<real>) {
    forall i, j :: 0 <= i <= j < |ts| ==> ts[i] <= ts[j]
  }

  /** No timestamp is later than `now`. */
  ghost predicate Until(ts: seq<real>, now: real) {
    forall i :: 0 <= i < |ts| ==> ts[i] <= now
  }

  lemma {:induction false} OrderedAppend(ts: seq<real>, now: real)
    requires Ordered(ts) && Until(ts, now)
    ensures Ordered(ts + [now]) && Until(ts + [now], now)
  {
  }

  lemma CountAppend(ts: seq<real>, t: real, lo: real, hi: real)
    ensures CountIn(ts + [t], lo, hi) == CountIn(ts, lo, hi) + (if lo < t <= hi then 1 else 0)
  {
    assert (ts + [t])[..|ts|] == ts;
  }

  /** A narrower interval counts no more. */
  lemma {:induction false} CountNarrower(ts: seq<real>, lo: real, hi: real, lo': real, hi': real)
    requires lo <= lo' && hi' <= hi
    ensures CountIn(ts, lo', hi') <= CountIn(ts, lo, hi)
  {
    if ts != [] {
      CountNarrower(ts[..|ts| - 1], lo, hi, lo', hi');
    }
  }

  /** Beyond the last timestamp the upper end does not matter. */
  lemma {:induction false} CountUntil(ts: seq<real>, lo: real, hi: real, hi': real)
    requires Until(ts, hi) && Until(ts, hi')
    ensures CountIn(ts, lo, hi) == CountIn(ts, lo, hi')
  {
    if ts != [] {
      CountUntil(ts[..|ts| - 1], lo, hi, hi');
    }
  }

  /** Entry `j` was admitted while fewer than `m` earlier ones lay in the window that ends at it. */
  ghost predicate AdmittedAt(ts: seq<real>, j: nat, m: int, w: real)
    requires j < |ts|
  {
    CountIn(ts[..j], ts[j] - w, ts[j]) < m
  }

  /** The window condition, for every entry. */
  ghost predicate AdmittedUnder(ts: seq<real>, m: int, w: real) {
    forall j :: 0 <= j < |ts| ==> AdmittedAt(ts, j, m, w)
  }

  lemma AdmitNext(ts: seq<real>, t: real, m: int, w: real)
    requires AdmittedUnder(ts, m, w) && CountIn(ts, t - w, t) < m
    ensures AdmittedUnder(ts + [t], m, w)
  {
    forall j | 0 <= j < |ts + [t]|
      ensures AdmittedAt(ts + [t], j, m, w)
    {
      if j < |ts| {
        assert AdmittedAt(ts, j, m, w);
        assert (ts + [t])[..j] == ts[..j];
      } else {
        assert (ts + [t])[..j] == ts;
      }
    }
  }

  lemma AdmittedPrefix(ts: seq<real>, m: int, w: real)
    requires ts != [] && AdmittedUnder(ts, m, w)
    ensures var n := |ts| - 1; AdmittedUnder(ts[..n], m, w) && CountIn(ts[..n], ts[n] - w, ts[n]) < m
  {
    var n := |ts| - 1;
    var init := ts[..n];
    assert AdmittedAt(ts, n, m, w);
    forall j | 0 <= j < n
      ensures AdmittedAt(init, j, m, w)
    {
      assert AdmittedAt(ts, j, m, w);
      assert init[..j] == ts[..j];
    }
  }

  /** Safety: no half-open interval of length `w` holds more than `m` of them. */
  lemma {:induction false} WindowBound(ts: seq<real>, m: nat, w: real, t: real)
    requires Ordered(ts) && AdmittedUnder(ts, m, w)
    ensures CountIn(ts, t - w, t) <= m
  {
    if ts != [] {
      var init, last := ts[..|ts| - 1], ts[|ts| - 1];
      AdmittedPrefix(ts, m, w);
      WindowBound(init, m, w, t);
      if t - w < last <= t {
        CountUntil(init, t - w, t, last);
        CountNarrower(init, last - w, last, t - w, last);
      }
    }
  }

  // ---------------------------------------------------------------- head pruning and filtering

  /** The deque after its head has been pruned up to the cutoff. */
  function Prune(dq: seq<real>, cutoff: real): seq<real> {
    if dq != [] && dq[0] <= cutoff then Prune(dq[1..], cutoff) else dq
  }

  /** The list filtered to what is later than the cutoff. */
  function Keep(ts: seq<real>, cutoff: real): seq<real> {
    if ts == [] then []
    else
      var init := Keep(ts[..|ts| - 1], cutoff);
      if ts[|ts| - 1] > cutoff then init + [ts[|ts| - 1]] else init
  }

  /** On an ordered deque, pruning the head is filtering the list. */
  lemma {:induction false} PruneIsKeep(dq: seq<real>, cutoff: real)
    requires Ordered(dq)
    ensures Prune(dq, cutoff) == Keep(dq, cutoff)
  {
    if dq != [] && dq[0] <= cutoff {
      PruneIsKeep(dq[1..], cutoff);
      KeepTail(dq, cutoff);
    } else {
      KeepEverything(dq, cutoff);
    }
  }

  lemma {:induction false} KeepTail(ts: seq<real>, cutoff: real)
    requires ts != [] && ts[0] <= cutoff
    ensures Keep(ts, cutoff) == Keep(ts[1..], cutoff)
  {
    if |ts| > 1 {
      KeepTail(ts[..|ts| - 1], cutoff);
      assert ts[..|ts| - 1][1..] == ts[1..][..|ts[1..]| - 1];
    }
  }

  lemma {:induction false} KeepEverything(ts: seq<real>, cutoff: real)
    requires forall i :: 0 <= i < |ts| ==> ts[i] > cutoff
    ensures Keep(ts, cutoff) == ts
  {
    if ts != [] {
      KeepEverything(ts[..|ts| - 1], cutoff);
    }
  }

  lemma {:induction false} KeepMembers(ts: seq<real>, cutoff: real)
    requires Ordered(ts)
    ensures Ordered(Keep(ts, cutoff))
    ensures forall x :: x in Keep(ts, cutoff) <==> x in ts && x > cutoff
  {
    if ts != [] {
      var init, last := ts[..|ts| - 1], ts[|ts| - 1];
      KeepMembers(init, cutoff);
      assert ts == init + [last];
      var kept := Keep(init, cutoff);
      forall i | 0 <= i < |kept|
        ensures kept[i] <= last
      {
        assert kept[i] in kept;
      }
    }
  }

  /** The filtered list is as long as the window count. */
  lemma {:induction false} KeepCounts(ts: seq<real>, w: real, now: real)
    requires Until(ts, now)
    ensures |Keep(ts, now - w)| == CountIn(ts, now - w, now)
  {
    if ts != [] {
      KeepCounts(ts[..|ts| - 1], w, now);
    }
  }

  lemma {:induction false} KeepSuffix(ts: seq<real>, k: nat, cutoff: real)
    requires k <= |ts| && forall i :: 0 <= i < k ==> ts[i] <= cutoff
    ensures Keep(ts[k..], cutoff) == Keep(ts, cutoff)
  {
    if k > 0 {
      KeepTail(ts, cutoff);
      KeepSuffix(ts[1..], k - 1, cutoff);
      assert ts[1..][k - 1..] == ts[k..];
    } else {
      assert ts[k..] == ts;
    }
  }

  /** On an ordered list filtering drops a prefix. */
  lemma {:induction false} KeepIsSuffix(ts: seq<real>, cutoff: real) returns (k: nat)
    requires Ordered(ts)
    ensures k <= |ts| && Keep(ts, cutoff) == ts[k..] && forall i :: 0 <= i < k ==> ts[i] <= cutoff
  {
    if ts == [] || ts[0] > cutoff {
      k := 0;
      KeepEverything(ts, cutoff);
    } else {
      KeepTail(ts, cutoff);
      var j := KeepIsSuffix(ts[1..], cutoff);
      k := j + 1;
      assert ts[1..][j..] == ts[k..];
    }
  }

  // ---------------------------------------------------------------- following a history

  /** The list is the history without some entries the window has left behind. */
  ghost predicate Tracks(dq: seq<real>, history: seq<real>, window: real, now: real) {
    exists k: nat :: DropsExpired(dq, history, k, window, now)
  }

  ghost predicate DropsExpired(dq: seq<real>, history: seq<real>, k: nat, window: real, now: real) {
    k <= |history| && dq == history[k..] && forall i :: 0 <= i < k ==> history[i] <= now - window
  }

  lemma TracksLater(dq: seq<real>, history: seq<real>, window: real, now: real, later: real)
    requires Tracks(dq, history, window, now) && now <= later
    ensures Tracks(dq, history, window, later)
  {
    var k: nat :| DropsExpired(dq, history, k, window, now);
    assert DropsExpired(dq, history, k, window, later);
  }

  /** Pruning a tracked list leaves exactly the current window of the history. */
  lemma TrackedWindow(dq: seq<real>, history: seq<real>, window: real, now: real)
    requires Tracks(dq, history, window, now) && Ordered(history) && Until(history, now)
    ensures Prune(dq, now - window) == Keep(dq, now - window) == Keep(history, now - window)
    ensures |Keep(history, now - window)| == CountIn(history, now - window, now)
  {
    var k: nat :| DropsExpired(dq, history, k, window, now);
    PruneIsKeep(dq, now - window);
    KeepSuffix(history, k, now - window);
    KeepCounts(history, window, now);
  }

  lemma PrunedTracks(h: seq<real>, window: real, now: real)
    requires Ordered(h) && Until(h, now)
    ensures Tracks(Keep(h, now - window), h, window, now)
    ensures Tracks(Keep(h, now - window) + [now], h + [now], window, now)
  {
    var k := KeepIsSuffix(h, now - window);
    assert DropsExpired(h[k..], h, k, window, now);
    assert (h + [now])[k..] == h[k..] + [now];
    assert DropsExpired(h[k..] + [now], h + [now], k, window, now);
  }

  lemma AppendTracks(dq: seq<real>, ts: seq<real>, t: real, window: real, now: real)
    requires Tracks(dq, ts, window, now)
    ensures Tracks(dq + [t], ts + [t], window, now)
  {
    var k: nat :| DropsExpired(dq, ts, k, window, now);
    assert (ts + [t])[k..] == ts[k..] + [t];
    assert DropsExpired(dq + [t], ts + [t], k, window, now);
  }

  // ---------------------------------------------------------------- late entries

  /** How many of the timestamps are later than `lo`. */
  function CountAfter(ts: seq<real>, lo: real): nat {
    if ts == [] then 0 else CountAfter(ts[..|ts| - 1], lo) + (if ts[|ts| - 1] > lo then 1 else 0)
  }

  /** Each entry came while fewer than `m` earlier ones were later than the window's start, ordered or not. */
  ghost predicate SparseAfter(ts: seq<real>, m: int, w: real) {
    forall j :: 0 <= j < |ts| ==> SparseAt(ts, j, m, w)
  }

  ghost predicate SparseAt(ts: seq<real>, j: nat, m: int, w: real)
    requires j < |ts|
  {
    CountAfter(ts[..j], ts[j] - w) < m
  }

  lemma SparseNext(ts: seq<real>, t: real, m: int, w: real)
    requires SparseAfter(ts, m, w) && CountAfter(ts, t - w) < m
    ensures SparseAfter(ts + [t], m, w)
  {
    forall j | 0 <= j < |ts + [t]|
      ensures SparseAt(ts + [t], j, m, w)
    {
      if j < |ts| {
        assert SparseAt(ts, j, m, w);
        assert (ts + [t])[..j] == ts[..j];
      } else {
        assert (ts + [t])[..j] == ts;
      }
    }
  }

  lemma SparsePrefix(ts: seq<real>, m: int, w: real)
    requires ts != [] && SparseAfter(ts, m, w)
    ensures SparseAfter(ts[..|ts| - 1], m, w)
  {
    var init := ts[..|ts| - 1];
    forall j | 0 <= j < |init|
      ensures SparseAt(init, j, m, w)
    {
      assert SparseAt(ts, j, m, w);
      assert init[..j] == ts[..j];
    }
  }

  lemma {:induction false} CountInAfter(ts: seq<real>, lo: real, hi: real, lo': real)
    requires lo' <= lo
    ensures CountIn(ts, lo, hi) <= CountAfter(ts, lo')
  {
    if ts != [] {
      CountInAfter(ts[..|ts| - 1], lo, hi, lo');
    }
  }

  /** The window bound without any order of the entries. */
  lemma {:induction false} SparseBound(ts: seq<real>, m: nat, w: real, t: real)
    requires SparseAfter(ts, m, w)
    ensures CountIn(ts, t - w, t) <= m
  {
    if ts != [] {
      var n := |ts| - 1;
      SparsePrefix(ts, m, w);
      SparseBound(ts[..n], m, w, t);
      assert SparseAt(ts, n, m, w);
      if t - w < ts[n] <= t {
        CountInAfter(ts[..n], t - w, t, ts[n] - w);
      }
    }
  }

  /** Pruning, on any deque, drops a prefix of expired entries. */
  lemma {:induction false} PruneIsSuffix(dq: seq<real>, cutoff: real) returns (k: nat)
    ensures k <= |dq| && Prune(dq, cutoff) == dq[k..] && forall i :: 0 <= i < k ==> dq[i] <= cutoff
  {
    if dq != [] && dq[0] <= cutoff {
      var j := PruneIsSuffix(dq[1..], cutoff);
      k := j + 1;
      assert dq[1..][j..] == dq[k..];
    } else {
      k := 0;
    }
  }

  /** Pruning at a reading that is not beyond `top` loses nothing the window before `top` needs. */
  lemma PruneTracks(dq: seq<real>, history: seq<real>, window: real, now: real, top: real)
    requires Tracks(dq, history, window, top) && now <= top
    ensures Tracks(Prune(dq, now - window), history, window, top)
  {
    var k: nat :| DropsExpired(dq, history, k, window, top);
    var j := PruneIsSuffix(dq, now - window);
    assert history[k..][j..] == history[k + j..];
    forall i | 0 <= i < k + j
      ensures history[i] <= top - window
    {
      if i >= k {
        assert history[i] == dq[i - k];
      }
    }
    assert DropsExpired(Prune(dq, now - window), history, k + j, window, top);
  }

  lemma {:induction false} CountAfterSuffix(ts: seq<real>, k: nat, lo: real)
    requires k <= |ts| && forall i :: 0 <= i < k ==> ts[i] <= lo
    ensures CountAfter(ts, lo) <= |ts[k..]|
  {
    if k < |ts| {
      CountAfterSuffix(ts[..|ts| - 1], k, lo);
    } else if k > 0 {
      CountAfterSuffix(ts[..k - 1], k - 1, lo);
    }
  }

  lemma TrackedCount(dq: seq<real>, history: seq<real>, window: real, top: real)
    requires Tracks(dq, history, window, top)
    ensures CountAfter(history, top - window) <= |dq|
  {
    var k: nat :| DropsExpired(dq, history, k, window, top);
    CountAfterSuffix(history, k, top - window);
  }
}
