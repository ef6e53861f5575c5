// The sliding-window rate limiter: per-key deques of admitted timestamps. The
// lock makes each call one step; `now` is the clock reading of that step.
module RateLimiter {
  import opened Throttling

  type Windows = map<string, seq<real>>

  datatype Event =
    | Check(key: string, now: real, max: int, window: real)
    | Ask(key: string, now: real, max: int, window: real)
    | Reset(key: string)

  /** A key that was never used has an empty deque. */
  function At(ws: Windows, key: string): seq<real> {
    if key in ws then ws[key] else []
  }

  /** Whether a check on this deque admits the request. */
  predicate Admits(dq: seq<real>, now: real, max: int, window: real) {
    |Prune(dq, now - window)| < max
  }

  /** The deque a check leaves behind; a refused check still prunes. */
  function Checked(dq: seq<real>, now: real, max: int, window: real): seq<real> {
    var pruned := Prune(dq, now - window);
    if |pruned| < max then pruned + [now] else pruned
  }

  function Left(dq: seq<real>, now: real, max: int, window: real): int {
    var n := max - |Keep(dq, now - window)|;
    if n > 0 then n else 0
  }

  function Apply(ws: Windows, e: Event): Windows {
    match e
    case Check(key, now, max, window) => ws[key := Checked(At(ws, key), now, max, window)]
    case Ask(key, _, _, _) => ws[key := At(ws, key)]
    case Reset(key) => ws[key := []]
  }

  function Run(es: seq<Event>): Windows {
    if es == [] then map[] else Apply(Run(es[..|es| - 1]), es[|es| - 1])
  }

  /** The requests of `key` admitted since its last reset. */
  function History(es: seq<Event>, key: string): seq<real> {
    if es == [] then []
    else
      var init, e := es[..|es| - 1], es[|es| - 1];
      if e.key != key then History(init, key)
      else match e
        case Check(_, now, max, window) =>
          if Admits(At(Run(init), key), now, max, window) then History(init, key) + [now] else History(init, key)
        case Ask(_, _, _, _) => History(init, key)
        case Reset(_) => []
  }

  /** The clock never goes back, and `now` is not before its last reading. */
  ghost predicate ClockRuns(es: seq<Event>, now: real) {
    if es == [] then true
    else
      var e := es[|es| - 1];
      if e.Reset? then ClockRuns(es[..|es| - 1], now)
      else e.now <= now && ClockRuns(es[..|es| - 1], e.now)
  }

  /** Every call on `key` uses the same limit and window. */
  ghost predicate FixedLimit(es: seq<Event>, key: string, max: int, window: real) {
    forall e <- es :: e.key == key && !e.Reset? ==> e.max == max && e.window == window
  }

  /** What holds of one key after every run. */
  ghost predicate KeyInvariant(dq: seq<real>, history: seq<real>, max: int, window: real, now: real) {
    && Tracks(dq, history, window, now)
    && Ordered(history)
    && Until(history, now)
    && AdmittedUnder(history, max, window)
  }

  lemma {:induction false} CheckAdmits(
      dq: seq<real>, h: seq<real>, max: int, window: real, now: real)
    requires Tracks(dq, h, window, now) && Ordered(h) && Until(h, now)
    ensures Admits(dq, now, max, window) <==> CountIn(h, now - window, now) < max
    ensures Tracks(Checked(dq, now, max, window),
                   if Admits(dq, now, max, window) then h + [now] else h, window, now)
  {
    TrackedWindow(dq, h, window, now);
    PrunedTracks(h, window, now);
  }

  lemma {:induction false} CheckKeepsKey(dq: seq<real>, h: seq<real>, max: int, window: real, now: real)
    requires KeyInvariant(dq, h, max, window, now)
    ensures KeyInvariant(Checked(dq, now, max, window),
                         if Admits(dq, now, max, window) then h + [now] else h, max, window, now)
  {
    CheckAdmits(dq, h, max, window, now);
    if Admits(dq, now, max, window) {
      OrderedAppend(h, now);
      AdmitNext(h, now, max, window);
    }
  }

  lemma KeyLater(dq: seq<real>, h: seq<real>, max: int, window: real, now: real, later: real)
    requires KeyInvariant(dq, h, max, window, now) && now <= later
    ensures KeyInvariant(dq, h, max, window, later)
  {
    TracksLater(dq, h, window, now, later);
  }

  lemma FreshKey(max: int, window: real, now: real)
    ensures KeyInvariant([], [], max, window, now)
  {
    assert DropsExpired([], [], 0, window, now);
  }

  lemma {:induction false} RunKeepsKey(es: seq<Event>, key: string, max: int, window: real, now: real)
    requires ClockRuns(es, now) && FixedLimit(es, key, max, window)
    ensures KeyInvariant(At(Run(es), key), History(es, key), max, window, now)
  {
    if es == [] {
      FreshKey(max, window, now);
    } else {
      var init, e := es[..|es| - 1], es[|es| - 1];
      var t := if e.Reset? then now else e.now;
      RunKeepsKey(init, key, max, window, t);
      if e.key == key && e.Reset? {
        FreshKey(max, window, now);
      } else if e.key == key && e.Check? {
        CheckKeepsKey(At(Run(init), key), History(init, key), max, window, t);
        KeyLater(At(Run(es), key), History(es, key), max, window, t, now);
      } else {
        KeyLater(At(Run(init), key), History(init, key), max, window, t, now);
      }
    }
  }

  // ---------------------------------------------------------------- the promises

  /** Between resets no window-long interval holds more than `max` admitted requests of the key. */
  lemma SinceResetNeverMoreThanMax(es: seq<Event>, key: string, max: nat, window: real, now: real, t: real)
    requires ClockRuns(es, now) && FixedLimit(es, key, max, window)
    ensures CountIn(History(es, key), t - window, t) <= max
  {
    RunKeepsKey(es, key, max, window, now);
    WindowBound(History(es, key), max, window, t);
  }

  /** Every request of `key` ever admitted, whatever has been reset since. */
  function Admitted(es: seq<Event>, key: string): seq<real> {
    if es == [] then []
    else
      var init, e := es[..|es| - 1], es[|es| - 1];
      if e.key == key && e.Check? && Admits(At(Run(init), key), e.now, e.max, e.window)
      then Admitted(init, key) + [e.now]
      else Admitted(init, key)
  }

  /** How often `key` has been reset. */
  function Resets(es: seq<Event>, key: string): nat {
    if es == [] then 0
    else
      var e := es[|es| - 1];
      Resets(es[..|es| - 1], key) + if e.Reset? && e.key == key then 1 else 0
  }

  function Copies(m: nat, n: nat): nat {
    if n == 0 then 0 else Copies(m, n - 1) + m
  }

  lemma {:induction false} CopiesMultiply(m: nat, n: nat)
    ensures Copies(m, n) == m * n
  {
    if n > 0 {
      CopiesMultiply(m, n - 1);
      Distributes(m, n - 1);
    }
  }

  lemma Distributes(m: nat, n: nat)
    ensures m * (1 + n) == m + m * n
  {
  }

  /** Every history on the way has at most `m` entries in the interval. */
  ghost predicate HistoriesWithin(es: seq<Event>, key: string, m: nat, lo: real, hi: real) {
    forall i :: 0 <= i <= |es| ==> CountIn(History(es[..i], key), lo, hi) <= m
  }

  lemma {:induction false} WithinBefore(es: seq<Event>, key: string, m: nat, lo: real, hi: real)
    requires es != [] && HistoriesWithin(es, key, m, lo, hi)
    ensures HistoriesWithin(es[..|es| - 1], key, m, lo, hi) && CountIn(History(es[..|es| - 1], key), lo, hi) <= m
  {
    var init := es[..|es| - 1];
    forall i | 0 <= i <= |init|
      ensures CountIn(History(init[..i], key), lo, hi) <= m
    {
      assert init[..i] == es[..i];
    }
  }

  lemma {:induction false} ResetsAdd(es: seq<Event>, key: string, m: nat, lo: real, hi: real)
    requires HistoriesWithin(es, key, m, lo, hi)
    ensures CountIn(Admitted(es, key), lo, hi) <= Copies(m, Resets(es, key)) + CountIn(History(es, key), lo, hi)
  {
    if es != [] {
      var init, e := es[..|es| - 1], es[|es| - 1];
      WithinBefore(es, key, m, lo, hi);
      ResetsAdd(init, key, m, lo, hi);
      if e.key == key && e.Check? && Admits(At(Run(init), key), e.now, e.max, e.window) {
        CountAppend(Admitted(init, key), e.now, lo, hi);
        CountAppend(History(init, key), e.now, lo, hi);
      }
    }
  }

  /** Where `m` bounds an interval between resets, each reset allows `m` more. */
  lemma {:induction false} ResetsMultiply(es: seq<Event>, key: string, m: nat, lo: real, hi: real)
    requires HistoriesWithin(es, key, m, lo, hi)
    ensures CountIn(Admitted(es, key), lo, hi) <= m * (1 + Resets(es, key))
    ensures Resets(es, key) == 0 ==> CountIn(Admitted(es, key), lo, hi) <= m
  {
    assert es[..|es|] == es;
    ResetsAdd(es, key, m, lo, hi);
    CopiesMultiply(m, Resets(es, key));
    Distributes(m, Resets(es, key));
  }

  lemma {:induction false} ClockRanBefore(es: seq<Event>, i: nat, now: real)
    requires ClockRuns(es, now) && i <= |es|
    ensures ClockRuns(es[..i], now)
  {
    if i == |es| {
      assert es[..i] == es;
    } else {
      var init, e := es[..|es| - 1], es[|es| - 1];
      if !e.Reset? {
        ClockLater(init, e.now, now);
      }
      ClockRanBefore(init, i, now);
      assert init[..i] == es[..i];
    }
  }

  lemma {:induction false} ClockLater(es: seq<Event>, now: real, later: real)
    requires ClockRuns(es, now) && now <= later
    ensures ClockRuns(es, later)
  {
    if es != [] && es[|es| - 1].Reset? {
      ClockLater(es[..|es| - 1], now, later);
    }
  }

  /**
   * Safety over every run: no window-long interval holds more admitted requests
   * of the key than `max` for each time it was reset and one `max` more; without
   * a reset of the key, no more than `max`.
   */
  lemma NeverMoreThanMax(es: seq<Event>, key: string, max: nat, window: real, now: real, t: real)
    requires ClockRuns(es, now) && FixedLimit(es, key, max, window)
    ensures CountIn(Admitted(es, key), t - window, t) <= max * (1 + Resets(es, key))
    ensures Resets(es, key) == 0 ==> CountIn(Admitted(es, key), t - window, t) <= max
  {
    forall i | 0 <= i <= |es|
      ensures CountIn(History(es[..i], key), t - window, t) <= max
    {
      ClockRanBefore(es, i, now);
      SinceResetNeverMoreThanMax(es[..i], key, max, window, now, t);
    }
    ResetsMultiply(es, key, max, t - window, t);
  }

  /** `resets` rounds of `max` checks at one instant, each ended by a reset, and `k` checks more. */
  function Rounds(key: string, now: real, max: nat, window: real, resets: nat, k: nat): seq<Event>
    decreases resets, k
  {
    if k > 0 then Rounds(key, now, max, window, resets, k - 1) + [Check(key, now, max, window)]
    else if resets > 0 then Rounds(key, now, max, window, resets - 1, max) + [Reset(key)]
    else []
  }

  ghost predicate AllAt(ts: seq<real>, now: real) {
    forall i :: 0 <= i < |ts| ==> ts[i] == now
  }

  ghost predicate Lawful(es: seq<Event>, key: string, now: real, max: int, window: real, resets: nat) {
    ClockRuns(es, now) && FixedLimit(es, key, max, window) && Resets(es, key) == resets
  }

  lemma {:induction false} LawfulCheck(es: seq<Event>, key: string, now: real, max: int, window: real, resets: nat)
    requires Lawful(es, key, now, max, window, resets)
    ensures Lawful(es + [Check(key, now, max, window)], key, now, max, window, resets)
  {
    assert (es + [Check(key, now, max, window)])[..|es|] == es;
  }

  lemma {:induction false} LawfulReset(es: seq<Event>, key: string, now: real, max: int, window: real, resets: nat)
    requires Lawful(es, key, now, max, window, resets)
    ensures Lawful(es + [Reset(key)], key, now, max, window, resets + 1)
  {
    assert (es + [Reset(key)])[..|es|] == es;
  }

  lemma {:induction false} RoundsAreLawful(key: string, now: real, max: nat, window: real, resets: nat, k: nat)
    ensures Lawful(Rounds(key, now, max, window, resets, k), key, now, max, window, resets)
    decreases resets, k
  {
    if k > 0 {
      RoundsAreLawful(key, now, max, window, resets, k - 1);
      LawfulCheck(Rounds(key, now, max, window, resets, k - 1), key, now, max, window, resets);
    } else if resets > 0 {
      RoundsAreLawful(key, now, max, window, resets - 1, max);
      LawfulReset(Rounds(key, now, max, window, resets - 1, max), key, now, max, window, resets - 1);
    }
  }

  /** `n` requests of the key are held and `total` were admitted, all at the instant `now`. */
  ghost predicate HeldAt(es: seq<Event>, key: string, now: real, n: nat, total: nat) {
    && |At(Run(es), key)| == n && AllAt(At(Run(es), key), now)
    && |Admitted(es, key)| == total && AllAt(Admitted(es, key), now)
  }

  lemma {:induction false} RoundCheck(
      es: seq<Event>, key: string, now: real, max: int, window: real, n: nat, total: nat)
    requires HeldAt(es, key, now, n, total) && n < max && window > 0.0
    ensures HeldAt(es + [Check(key, now, max, window)], key, now, n + 1, total + 1)
  {
    CurrentStays(At(Run(es), key), now, window);
    assert (es + [Check(key, now, max, window)])[..|es|] == es;
  }

  lemma {:induction false} RoundReset(es: seq<Event>, key: string, now: real, n: nat, total: nat)
    requires HeldAt(es, key, now, n, total)
    ensures HeldAt(es + [Reset(key)], key, now, 0, total)
  {
    assert (es + [Reset(key)])[..|es|] == es;
  }

  lemma {:induction false} RoundsAreAdmitted(key: string, now: real, max: nat, window: real, resets: nat, k: nat)
    requires window > 0.0 && k <= max
    ensures HeldAt(Rounds(key, now, max, window, resets, k), key, now, k, Copies(max, resets) + k)
    decreases resets, k
  {
    if k > 0 {
      RoundsAreAdmitted(key, now, max, window, resets, k - 1);
      RoundCheck(Rounds(key, now, max, window, resets, k - 1), key, now, max, window, k - 1, Copies(max, resets) + k - 1);
    } else if resets > 0 {
      RoundsAreAdmitted(key, now, max, window, resets - 1, max);
      RoundReset(Rounds(key, now, max, window, resets - 1, max), key, now, max, Copies(max, resets));
    }
  }

  lemma {:induction false} CountAllAt(ts: seq<real>, now: real, window: real)
    requires AllAt(ts, now) && window > 0.0
    ensures CountIn(ts, now - window, now) == |ts|
  {
    if ts != [] {
      CountAllAt(ts[..|ts| - 1], now, window);
    }
  }

  /** That bound is reached for every limit and number of resets; one reset already passes `max`. */
  lemma ResetsReachBound(key: string, now: real, max: nat, window: real, resets: nat)
    requires window > 0.0
    ensures var es := Rounds(key, now, max, window, resets, max);
      && ClockRuns(es, now) && FixedLimit(es, key, max, window) && Resets(es, key) == resets
      && CountIn(Admitted(es, key), now - window, now) == max * (1 + resets)
  {
    RoundsAreLawful(key, now, max, window, resets, max);
    RoundsAreAdmitted(key, now, max, window, resets, max);
    CountAllAt(Admitted(Rounds(key, now, max, window, resets, max), key), now, window);
    CopiesMultiply(max, resets);
    Distributes(max, resets);
  }

  /**
   * Exactness: a request is refused only when `max` requests admitted since the
   * last reset lie in the window that ends now, and `remaining` is what is left
   * of `max` there.
   */
  lemma AnswersAreExact(es: seq<Event>, key: string, max: int, window: real, now: real)
    requires ClockRuns(es, now) && FixedLimit(es, key, max, window)
    ensures var n := CountIn(History(es, key), now - window, now);
      && (Admits(At(Run(es), key), now, max, window) <==> n < max)
      && Left(At(Run(es), key), now, max, window) == (if max - n > 0 then max - n else 0)
  {
    RunKeepsKey(es, key, max, window, now);
    TrackedWindow(At(Run(es), key), History(es, key), window, now);
  }

  /** How many of `n` further checks at the same instant are admitted. */
  function Burst(dq: seq<real>, now: real, max: int, window: real, n: nat): nat
    decreases n
  {
    if n == 0 then 0
    else
      (if Admits(dq, now, max, window) then 1 else 0)
        + Burst(Checked(dq, now, max, window), now, max, window, n - 1)
  }

  ghost predicate AllCurrent(dq: seq<real>, now: real, window: real) {
    forall i :: 0 <= i < |dq| ==> now - window < dq[i] <= now
  }

  lemma CurrentStays(dq: seq<real>, now: real, window: real)
    requires AllCurrent(dq, now, window)
    ensures Prune(dq, now - window) == dq == Keep(dq, now - window)
  {
    KeepEverything(dq, now - window);
  }

  lemma {:induction false} BurstFillsWindow(dq: seq<real>, now: real, max: int, window: real, n: nat)
    requires window > 0.0 && AllCurrent(dq, now, window)
    ensures var left := if max - |dq| > 0 then max - |dq| else 0;
      Burst(dq, now, max, window, n) == if n <= left then n else left
    decreases n
  {
    if n > 0 {
      CurrentStays(dq, now, window);
      BurstFillsWindow(Checked(dq, now, max, window), now, max, window, n - 1);
    }
  }

  lemma BurstTakesWhatIsLeft(dq: seq<real>, now: real, max: int, window: real, n: nat)
    requires window > 0.0 && Ordered(dq) && Until(dq, now)
    ensures var left := Left(dq, now, max, window);
      Burst(dq, now, max, window, n) == if n <= left then n else left
  {
    var pruned := Prune(dq, now - window);
    PruneIsKeep(dq, now - window);
    KeepMembers(dq, now - window);
    forall i | 0 <= i < |pruned|
      ensures now - window < pruned[i] <= now
    {
      assert pruned[i] in pruned;
    }
    CurrentStays(pruned, now, window);
    BurstFillsWindow(pruned, now, max, window, n);
  }

  /** A window of no length forgets its own admissions, and then every check passes. */
  lemma {:induction false} EmptyWindowAdmitsAll(dq: seq<real>, now: real, max: int, window: real, n: nat)
    requires window <= 0.0 && max > 0
    requires Until(dq, now)
    ensures Burst(dq, now, max, window, n) == n
    decreases n
  {
    if n > 0 {
      PruneAll(dq, now - window);
      assert Checked(dq, now, max, window) == [now];
      EmptyWindowAdmitsAll([now], now, max, window, n - 1);
    }
  }

  lemma {:induction false} PruneAll(dq: seq<real>, cutoff: real)
    requires forall i :: 0 <= i < |dq| ==> dq[i] <= cutoff
    ensures Prune(dq, cutoff) == []
  {
    if dq != [] {
      PruneAll(dq[1..], cutoff);
    }
  }

  /** `remaining` is kept: of any number of further checks at this instant, so many are admitted. */
  ghost predicate PromiseKept(dq: seq<real>, now: real, max: int, window: real) {
    forall n: nat :: Burst(dq, now, max, window, n) == Least(n, Left(dq, now, max, window))
  }

  function Least(m: int, n: int): int {
    if m <= n then m else n
  }

  lemma {:induction false} PromiseKeptExactly(dq: seq<real>, now: real, max: int, window: real)
    requires Ordered(dq) && Until(dq, now)
    ensures PromiseKept(dq, now, max, window) <==> window > 0.0 || max <= 0
  {
    var left := Left(dq, now, max, window);
    if window > 0.0 {
      forall n: nat
        ensures Burst(dq, now, max, window, n) == Least(n, left)
      {
        BurstTakesWhatIsLeft(dq, now, max, window, n);
      }
    } else if max > 0 {
      EmptyWindowAdmitsAll(dq, now, max, window, left + 1);
      assert Burst(dq, now, max, window, left + 1) != Least(left + 1, left);
    } else {
      forall n: nat
        ensures Burst(dq, now, max, window, n) == Least(n, left)
      {
        NothingAdmitted(dq, now, max, window, n);
      }
    }
  }

  lemma {:induction false} TrackedIsOrdered(dq: seq<real>, h: seq<real>, window: real, now: real)
    requires Tracks(dq, h, window, now) && Ordered(h) && Until(h, now)
    ensures Ordered(dq) && Until(dq, now)
  {
    var k: nat :| DropsExpired(dq, h, k, window, now);
    assert forall i :: 0 <= i < |dq| ==> dq[i] == h[k + i];
  }

  /**
   * After any run, `remaining` is the number of further checks that would be
   * admitted at that instant, exactly when the window has a positive length or
   * nothing is ever admitted.
   */
  lemma {:induction false} RemainingIsExact(es: seq<Event>, key: string, max: int, window: real, now: real)
    requires ClockRuns(es, now) && FixedLimit(es, key, max, window)
    ensures PromiseKept(At(Run(es), key), now, max, window) <==> window > 0.0 || max <= 0
  {
    RunKeepsKey(es, key, max, window, now);
    TrackedIsOrdered(At(Run(es), key), History(es, key), window, now);
    PromiseKeptExactly(At(Run(es), key), now, max, window);
  }

  lemma {:induction false} NothingAdmitted(dq: seq<real>, now: real, max: int, window: real, n: nat)
    requires max <= 0
    ensures Burst(dq, now, max, window, n) == 0
    decreases n
  {
    if n > 0 {
      NothingAdmitted(Checked(dq, now, max, window), now, max, window, n - 1);
    }
  }

  lemma CheckAppends(es: seq<Event>, key: string, now: real, max: int, window: real)
    ensures var es', dq := es + [Check(key, now, max, window)], At(Run(es), key);
      && At(Run(es'), key) == Checked(dq, now, max, window)
      && History(es', key) == if Admits(dq, now, max, window) then History(es, key) + [now] else History(es, key)
  {
    assert (es + [Check(key, now, max, window)])[..|es|] == es;
  }

  const LATE_READING := [Check("k", 0.0, 2, 10.0), Check("k", 1.0, 2, 10.0),
                         Check("k", 11.0, 2, 10.0), Check("k", 5.0, 2, 10.0)]

  lemma LateReadingFull()
    ensures At(Run(LATE_READING[..2]), "k") == [0.0, 1.0] && History(LATE_READING[..2], "k") == [0.0, 1.0]
  {
    var es := LATE_READING;
    CheckAppends([], "k", 0.0, 2, 10.0);
    CheckAppends(es[..1], "k", 1.0, 2, 10.0);
    assert [] + [es[0]] == es[..1] && es[..1] + [es[1]] == es[..2];
  }

  lemma LateReadingAdmitted()
    ensures History(LATE_READING, "k") == [0.0, 1.0, 11.0, 5.0]
  {
    var es := LATE_READING;
    LateReadingFull();
    CheckAppends(es[..2], "k", 11.0, 2, 10.0);
    CheckAppends(es[..3], "k", 5.0, 2, 10.0);
    assert es[..2] + [es[2]] == es[..3] && es[..3] + [es[3]] == es;
    assert Prune([0.0, 1.0], 1.0) == [] by { assert [0.0, 1.0][1..] == [1.0] && [1.0][1..] == []; }
    assert At(Run(es[..3]), "k") == [11.0];
  }

  /**
   * The clock assumption is needed: it is read before the lock is taken, and a
   * check that enters late with an early reading can pass a full window. Here
   * the reading 5 comes after 11, and (-5, 5] then holds three of at most two.
   */
  lemma LateReadingPassesFullWindow()
    ensures FixedLimit(LATE_READING, "k", 2, 10.0) && CountIn(History(LATE_READING, "k"), -5.0, 5.0) == 3
  {
    LateReadingAdmitted();
    var h := [0.0, 1.0, 11.0, 5.0];
    CountAppend([], 0.0, -5.0, 5.0);
    CountAppend(h[..1], 1.0, -5.0, 5.0);
    CountAppend(h[..2], 11.0, -5.0, 5.0);
    CountAppend(h[..3], 5.0, -5.0, 5.0);
    assert [] + [0.0] == h[..1] && h[..1] + [1.0] == h[..2] && h[..2] + [11.0] == h[..3] && h[..3] + [5.0] == h;
  }

  /** The checks of `key` read a clock at most `delta` behind any earlier one. */
  ghost predicate LagsAtMost(es: seq<Event>, key: string, delta: real) {
    forall i, j :: 0 <= i < j < |es| && Checks(es[i], key) && Checks(es[j], key) ==> es[j].now >= es[i].now - delta
  }

  predicate Checks(e: Event, key: string) {
    e.Check? && e.key == key
  }

  ghost predicate ReadsUpTo(es: seq<Event>, key: string, top: real) {
    forall e <- es :: Checks(e, key) ==> e.now <= top
  }

  ghost predicate LaggingKey(dq: seq<real>, h: seq<real>, max: int, window: real, delta: real, top: real) {
    Tracks(dq, h, window, top) && SparseAfter(h, max, window - delta)
  }

  /** One check, seen from `top`, and from where the readings may be at that moment. */
  lemma CheckKeepsLagging(dq: seq<real>, h: seq<real>, max: int, window: real, delta: real, now: real, top: real)
    requires LaggingKey(dq, h, max, window, delta, top) && now <= top
    requires Tracks(dq, h, window, now + delta) && delta >= 0.0
    ensures LaggingKey(Checked(dq, now, max, window),
                       if Admits(dq, now, max, window) then h + [now] else h, max, window, delta, top)
  {
    var pruned := Prune(dq, now - window);
    PruneTracks(dq, h, window, now, top);
    if Admits(dq, now, max, window) {
      PruneTracks(dq, h, window, now, now + delta);
      TrackedCount(pruned, h, window, now + delta);
      SparseNext(h, now, max, window - delta);
      AppendTracks(pruned, h, now, window, top);
    }
  }

  lemma {:induction false} LaggedBefore(es: seq<Event>, i: nat, key: string, max: int, window: real, delta: real)
    requires LagsAtMost(es, key, delta) && FixedLimit(es, key, max, window) && i <= |es|
    ensures LagsAtMost(es[..i], key, delta) && FixedLimit(es[..i], key, max, window)
  {
    assert forall e <- es[..i] :: e in es;
  }

  lemma {:induction false} ReadBefore(es: seq<Event>, key: string, top: real)
    requires es != [] && ReadsUpTo(es, key, top)
    ensures ReadsUpTo(es[..|es| - 1], key, top)
    ensures Checks(es[|es| - 1], key) ==> es[|es| - 1].now <= top
  {
    assert forall e <- es[..|es| - 1] :: e in es;
  }

  /** Seen from a check, no earlier one of the key was more than `delta` ahead. */
  lemma {:induction false} ReadAhead(es: seq<Event>, key: string, delta: real)
    requires es != [] && LagsAtMost(es, key, delta) && Checks(es[|es| - 1], key)
    ensures ReadsUpTo(es[..|es| - 1], key, es[|es| - 1].now + delta)
  {
    var init, e := es[..|es| - 1], es[|es| - 1];
    forall x | x in init && Checks(x, key)
      ensures x.now <= e.now + delta
    {
      var i :| 0 <= i < |init| && init[i] == x;
      assert es[i] == x;
    }
  }

  lemma {:induction false} RunKeepsLagging(
      es: seq<Event>, key: string, max: int, window: real, delta: real, top: real)
    requires LagsAtMost(es, key, delta) && FixedLimit(es, key, max, window) && delta >= 0.0
    requires ReadsUpTo(es, key, top)
    ensures LaggingKey(At(Run(es), key), History(es, key), max, window, delta, top)
  {
    if es == [] {
      assert DropsExpired([], [], 0, window, top);
    } else {
      var init, e := es[..|es| - 1], es[|es| - 1];
      LaggedBefore(es, |es| - 1, key, max, window, delta);
      ReadBefore(es, key, top);
      RunKeepsLagging(init, key, max, window, delta, top);
      if Checks(e, key) {
        ReadAhead(es, key, delta);
        RunKeepsLagging(init, key, max, window, delta, e.now + delta);
        CheckKeepsLagging(At(Run(init), key), History(init, key), max, window, delta, e.now, top);
      } else if e.key == key && e.Reset? {
        assert DropsExpired([], [], 0, window, top);
      }
    }
  }

  lemma {:induction false} SomeTop(es: seq<Event>, key: string) returns (top: real)
    ensures ReadsUpTo(es, key, top)
  {
    top := 0.0;
    if es != [] {
      var init, e := es[..|es| - 1], es[|es| - 1];
      top := SomeTop(init, key);
      assert es == init + [e];
      if Checks(e, key) && e.now > top {
        top := e.now;
      }
    }
  }

  lemma LaggingSinceReset(es: seq<Event>, key: string, max: nat, window: real, delta: real, t: real)
    requires LagsAtMost(es, key, delta) && FixedLimit(es, key, max, window) && delta >= 0.0
    ensures CountIn(History(es, key), t - (window - delta), t) <= max
  {
    var top := SomeTop(es, key);
    RunKeepsLagging(es, key, max, window, delta, top);
    SparseBound(History(es, key), max, window - delta, t);
  }

  /**
   * Safety under bounded disorder: where no reading lags an earlier one by more
   * than `delta`, an interval shorter than the window by `delta` holds no more
   * than `max`, and as many again for each reset of the key.
   */
  lemma LaggingNeverMoreThanMax(es: seq<Event>, key: string, max: nat, window: real, delta: real, t: real)
    requires LagsAtMost(es, key, delta) && FixedLimit(es, key, max, window) && delta >= 0.0
    ensures CountIn(Admitted(es, key), t - (window - delta), t) <= max * (1 + Resets(es, key))
    ensures Resets(es, key) == 0 ==> CountIn(Admitted(es, key), t - (window - delta), t) <= max
  {
    forall i | 0 <= i <= |es|
      ensures CountIn(History(es[..i], key), t - (window - delta), t) <= max
    {
      LaggedBefore(es, i, key, max, window, delta);
      LaggingSinceReset(es[..i], key, max, window, delta, t);
    }
    ResetsMultiply(es, key, max, t - (window - delta), t);
  }

  /** `max` checks at 0, one a window later, and one that reads its clock `delta` before that. */
  function Latecomer(key: string, max: nat, window: real, delta: real): seq<Event> {
    Rounds(key, 0.0, max, window, 0, max) + [Check(key, window, max, window)]
      + [Check(key, window - delta, max, window)]
  }

  lemma {:induction false} RoundReads(key: string, max: nat, window: real, k: nat)
    ensures var full := Rounds(key, 0.0, max, window, 0, k);
      |full| == k && forall i :: 0 <= i < k ==> full[i] == Check(key, 0.0, max, window)
  {
    if k > 0 {
      RoundReads(key, max, window, k - 1);
    }
  }

  lemma {:induction false} LatecomerReads(key: string, max: nat, window: real, delta: real)
    ensures var es := Latecomer(key, max, window, delta);
      && |es| == max + 2
      && es[max] == Check(key, window, max, window) && es[max + 1] == Check(key, window - delta, max, window)
      && forall i :: 0 <= i < max ==> es[i] == Check(key, 0.0, max, window)
  {
    RoundReads(key, max, window, max);
  }

  lemma {:induction false} NoResets(es: seq<Event>, key: string)
    requires forall i :: 0 <= i < |es| ==> es[i].Check?
    ensures Resets(es, key) == 0
  {
    if es != [] {
      NoResets(es[..|es| - 1], key);
    }
  }

  lemma {:induction false} LatecomerIsLawful(key: string, max: nat, window: real, delta: real)
    requires 0.0 < delta <= window
    ensures var es := Latecomer(key, max, window, delta);
      LagsAtMost(es, key, delta) && FixedLimit(es, key, max, window) && Resets(es, key) == 0
  {
    LatecomerReads(key, max, window, delta);
    NoResets(Latecomer(key, max, window, delta), key);
  }

  lemma {:induction false} AdmitOne(es: seq<Event>, key: string, now: real, max: int, window: real)
    requires Admits(At(Run(es), key), now, max, window)
    ensures var es' := es + [Check(key, now, max, window)];
      && Admitted(es', key) == Admitted(es, key) + [now]
      && At(Run(es'), key) == Prune(At(Run(es), key), now - window) + [now]
  {
    assert (es + [Check(key, now, max, window)])[..|es|] == es;
  }

  /** A check one window after `n` requests at 0 finds them all expired. */
  lemma {:induction false} NextWindow(es: seq<Event>, key: string, n: nat, max: int, window: real)
    requires HeldAt(es, key, 0.0, n, n) && max > 0
    ensures var next := es + [Check(key, window, max, window)];
      At(Run(next), key) == [window] && Admitted(next, key) == Admitted(es, key) + [window]
  {
    PruneAll(At(Run(es), key), window - window);
    AdmitOne(es, key, window, max, window);
  }

  lemma {:induction false} LatecomerFull(key: string, max: nat, window: real)
    requires 2 <= max && window > 0.0
    ensures var full := Rounds(key, 0.0, max, window, 0, max);
      var next := full + [Check(key, window, max, window)];
      && AllAt(Admitted(full, key), 0.0) && |Admitted(full, key)| == max
      && At(Run(next), key) == [window] && Admitted(next, key) == Admitted(full, key) + [window]
  {
    RoundsAreAdmitted(key, 0.0, max, window, 0, max);
    NextWindow(Rounds(key, 0.0, max, window, 0, max), key, max, max, window);
  }

  lemma {:induction false} LatecomerAdmitted(key: string, max: nat, window: real, delta: real)
    requires 2 <= max && 0.0 < delta <= window
    ensures Admitted(Latecomer(key, max, window, delta), key)
         == Admitted(Rounds(key, 0.0, max, window, 0, max), key) + [window] + [window - delta]
  {
    var next := Rounds(key, 0.0, max, window, 0, max) + [Check(key, window, max, window)];
    LatecomerFull(key, max, window);
    assert Prune([window], window - delta - window) == [window];
    AdmitOne(next, key, window - delta, max, window);
  }

  lemma {:induction false} CountAllIn(ts: seq<real>, t: real, lo: real, hi: real)
    requires AllAt(ts, t) && lo < t <= hi
    ensures CountIn(ts, lo, hi) == |ts|
  {
    if ts != [] {
      CountAllIn(ts[..|ts| - 1], t, lo, hi);
    }
  }

  lemma {:induction false} LateCount(zeros: seq<real>, window: real, end: real, lo: real)
    requires AllAt(zeros, 0.0) && lo < 0.0 <= end < window
    ensures CountIn(zeros + [window] + [end], lo, end) == |zeros| + 1
  {
    CountAllIn(zeros, 0.0, lo, end);
    CountAppend(zeros, window, lo, end);
    CountAppend(zeros + [window], end, lo, end);
  }

  /**
   * The lag bound is sharp: for every limit of two or more and every lag up to
   * the window, any interval longer than the window less the lag can hold one more.
   */
  lemma {:induction false} LagBoundIsSharp(key: string, max: nat, window: real, delta: real, length: real)
    requires 2 <= max && 0.0 < delta <= window && length > window - delta
    ensures var es, end := Latecomer(key, max, window, delta), window - delta;
      && LagsAtMost(es, key, delta) && FixedLimit(es, key, max, window) && Resets(es, key) == 0
      && CountIn(Admitted(es, key), end - length, end) == max + 1
  {
    var end := window - delta;
    LatecomerIsLawful(key, max, window, delta);
    LatecomerFull(key, max, window);
    LatecomerAdmitted(key, max, window, delta);
    var zeros := Admitted(Rounds(key, 0.0, max, window, 0, max), key);
    LateCount(zeros, window, end, end - length);
    assert Admitted(Latecomer(key, max, window, delta), key) == zeros + [window] + [end];
  }

  // ---------------------------------------------------------------- the object

  class RateLimiter {
    var windows: Windows
    /** Every call so far. */
    ghost var log: seq<Event>

    constructor ()
      ensures Valid() && log == []
    {
      windows := map[];
      log := [];
    }

    ghost predicate Valid()
      reads this
    {
      windows == Run(log)
    }

    method Check(key: string, max: int, window: real, now: real) returns (ok: bool)
      requires Valid()
      modifies this
      ensures Valid() && log == old(log) + [Event.Check(key, now, max, window)]
      ensures ok <==> Admits(At(Run(old(log)), key), now, max, window)
    {
      var cutoff := now - window;
      var dq := At(windows, key);
      while dq != [] && dq[0] <= cutoff
        invariant Prune(dq, cutoff) == Prune(At(windows, key), cutoff)
        decreases |dq|
      {
        dq := dq[1..];
      }
      ok := |dq| < max;
      if ok {
        dq := dq + [now];
      }
      windows := windows[key := dq];
      log := log + [Event.Check(key, now, max, window)];
    }

    method Remaining(key: string, max: int, window: real, now: real) returns (left: int)
      requires Valid()
      modifies this
      ensures Valid() && log == old(log) + [Ask(key, now, max, window)]
      ensures left == Left(At(Run(old(log)), key), now, max, window)
    {
      var cutoff := now - window;
      var dq := At(windows, key);
      var current := 0;
      for i := 0 to |dq|
        invariant current == |Keep(dq[..i], cutoff)|
      {
        assert dq[..i + 1][..i] == dq[..i];
        if dq[i] > cutoff {
          current := current + 1;
        }
      }
      assert dq[..|dq|] == dq;
      left := if max - current > 0 then max - current else 0;
      windows := windows[key := dq];
      log := log + [Ask(key, now, max, window)];
    }

    method Clear(key: string)
      requires Valid()
      modifies this
      ensures Valid() && log == old(log) + [Reset(key)]
      ensures At(windows, key) == [] && forall k :: k != key ==> At(windows, k) == At(old(windows), k)
    {
      windows := windows[key := []];
      log := log + [Reset(key)];
    }
  }
}
