// The notification hub when sends overlap: a send asks the limiter when it
// begins and records itself when a channel has delivered, and other calls can
// come between the two.
module HubOverlap {
  import opened Throttling
  import opened NotificationHub

  /** One await-free stretch of some send or broadcast. */
  datatype Stretch = Begin(at: real) | Deliver(at: real) | GiveUp | Announce(at: real)

  /** `flying` sends have passed the limiter and not yet ended. */
  datatype Flight = Flight(stamps: seq<real>, history: seq<Sent>, flying: nat)

  function Advance(f: Flight, s: Stretch, max: int, window: real): Flight {
    match s
    case Begin(at) =>
      var kept := Keep(f.stamps, at - window);
      f.(stamps := kept, flying := if |kept| >= max then f.flying else f.flying + 1)
    case Deliver(at) =>
      if f.flying == 0 then f
      else Flight(f.stamps + [at], f.history + [Sent(at, true)], f.flying - 1)
    case GiveUp => if f.flying == 0 then f else f.(flying := f.flying - 1)
    case Announce(at) => f.(stamps := f.stamps + [at], history := f.history + [Sent(at, false)])
  }

  function Fly(ss: seq<Stretch>, max: int, window: real): Flight {
    if ss == [] then Flight([], [], 0) else Advance(Fly(ss[..|ss| - 1], max, window), ss[|ss| - 1], max, window)
  }

  /** The clock never goes back, and `now` is not before its last reading. */
  ghost predicate InTime(ss: seq<Stretch>, now: real) {
    if ss == [] then true
    else
      var s := ss[|ss| - 1];
      if s.GiveUp? then InTime(ss[..|ss| - 1], now) else s.at <= now && InTime(ss[..|ss| - 1], s.at)
  }

  /** Never more than `c` sends are under way at once. */
  ghost predicate AtMostFlying(ss: seq<Stretch>, c: nat, max: int, window: real) {
    ss != [] ==> Fly(ss, max, window).flying <= c && AtMostFlying(ss[..|ss| - 1], c, max, window)
  }

  /** Chain sends recorded in the window that ends now. */
  function Recent(history: seq<Sent>, window: real, now: real): nat {
    CountGated(history, true, now - window, now)
  }

  ghost predicate FlightInvariant(f: Flight, c: nat, max: nat, window: real, now: real) {
    && Tracks(f.stamps, Stamps(f.history), window, now)
    && Ordered(Stamps(f.history)) && Until(Stamps(f.history), now)
    && Recent(f.history, window, now) + f.flying <= max + c - 1
    && forall t: real :: Recent(f.history, window, t) <= max + c - 1
  }

  lemma {:induction false} GatedNarrower(h: seq<Sent>, lo: real, hi: real, lo': real, hi': real)
    requires lo <= lo' && Until(Stamps(h), hi)
    ensures CountGated(h, true, lo', hi') <= CountGated(h, true, lo, hi)
  {
    if h != [] {
      var n := |h| - 1;
      assert forall i :: 0 <= i < n ==> Stamps(h[..n])[i] == Stamps(h)[i];
      assert Stamps(h)[n] == h[n].at;
      GatedNarrower(h[..n], lo, hi, lo', hi');
    }
  }

  lemma FlightLater(f: Flight, c: nat, max: nat, window: real, now: real, later: real)
    requires FlightInvariant(f, c, max, window, now) && now <= later
    ensures FlightInvariant(f, c, max, window, later)
  {
    TracksLater(f.stamps, Stamps(f.history), window, now, later);
    GatedNarrower(f.history, now - window, now, later - window, later);
  }

  /** What the limiter keeps is the whole recent history, so it bounds the chain sends in it. */
  lemma {:induction false} LimiterSees(stamps: seq<real>, history: seq<Sent>, at: real, window: real)
    requires Tracks(stamps, Stamps(history), window, at) && Ordered(Stamps(history)) && Until(Stamps(history), at)
    ensures Recent(history, window, at) <= |Keep(stamps, at - window)|
  {
    KeptCount(stamps, Stamps(history), at, window);
    CountSplits(history, at - window, at);
  }

  lemma {:induction false} KeptCount(stamps: seq<real>, ts: seq<real>, at: real, window: real)
    requires Tracks(stamps, ts, window, at) && Ordered(ts) && Until(ts, at)
    ensures |Keep(stamps, at - window)| == CountIn(ts, at - window, at)
  {
    TrackedWindow(stamps, ts, window, at);
  }

  lemma {:induction false} KeptTracks(stamps: seq<real>, ts: seq<real>, at: real, window: real)
    requires Tracks(stamps, ts, window, at) && Ordered(ts) && Until(ts, at)
    ensures Tracks(Keep(stamps, at - window), ts, window, at)
  {
    TrackedWindow(stamps, ts, window, at);
    PrunedTracks(ts, window, at);
  }

  lemma {:induction false} BeginKeeps(f: Flight, at: real, c: nat, max: nat, window: real)
    requires FlightInvariant(f, c, max, window, at) && Advance(f, Begin(at), max, window).flying <= c
    ensures FlightInvariant(Advance(f, Begin(at), max, window), c, max, window, at)
  {
    LimiterSees(f.stamps, f.history, at, window);
    KeptTracks(f.stamps, Stamps(f.history), at, window);
  }

  lemma RecordAppends(h: seq<Sent>, s: Sent, window: real, t: real)
    ensures Stamps(h + [s]) == Stamps(h) + [s.at]
    ensures Recent(h + [s], window, t)
         == Recent(h, window, t) + if s.gated && t - window < s.at <= t then 1 else 0
  {
    assert (h + [s])[..|h|] == h;
  }

  /** Appending a record keeps the bound at every moment if it keeps it at its own. */
  lemma RecordBounds(h: seq<Sent>, s: Sent, bound: int, window: real)
    requires Until(Stamps(h), s.at)
    requires forall t: real :: Recent(h, window, t) <= bound
    requires s.gated ==> Recent(h, window, s.at) + 1 <= bound
    ensures forall t: real :: Recent(h + [s], window, t) <= bound
  {
    forall t: real
      ensures Recent(h + [s], window, t) <= bound
    {
      RecordAppends(h, s, window, t);
      assert Recent(h, window, t) <= bound;
      if s.at <= t {
        GatedNarrower(h, s.at - window, s.at, t - window, t);
      }
    }
  }

  lemma RecordKeepsFlight(f: Flight, s: Sent, c: nat, max: nat, window: real)
    requires FlightInvariant(f, c, max, window, s.at) && (s.gated ==> f.flying > 0)
    ensures var flying := if s.gated then f.flying - 1 else f.flying;
      FlightInvariant(Flight(f.stamps + [s.at], f.history + [s], flying), c, max, window, s.at)
  {
    AppendTracks(f.stamps, Stamps(f.history), s.at, window, s.at);
    RecordAppends(f.history, s, window, s.at);
    RecordBounds(f.history, s, max + c - 1, window);
  }

  lemma {:induction false} FlyKeeps(ss: seq<Stretch>, c: nat, max: nat, window: real, now: real)
    requires c > 0 && InTime(ss, now) && AtMostFlying(ss, c, max, window)
    ensures FlightInvariant(Fly(ss, max, window), c, max, window, now)
  {
    if ss == [] {
      assert DropsExpired([], [], 0, window, now);
    } else {
      var init, s := ss[..|ss| - 1], ss[|ss| - 1];
      var t := if s.GiveUp? then now else s.at;
      var f := Fly(init, max, window);
      FlyKeeps(init, c, max, window, t);
      match s {
        case Begin(at) => BeginKeeps(f, at, c, max, window);
        case Deliver(at) =>
          if f.flying > 0 {
            RecordKeepsFlight(f, Sent(at, true), c, max, window);
          }
        case GiveUp =>
        case Announce(at) => RecordKeepsFlight(f, Sent(at, false), c, max, window);
      }
      FlightLater(Fly(ss, max, window), c, max, window, t, now);
    }
  }

  /**
   * While at most `c` sends are under way at once, no window holds more than
   * `max + c - 1` sends of the fallback chain, however they interleave.
   */
  lemma OverlapBound(ss: seq<Stretch>, c: nat, max: nat, window: real, now: real, t: real)
    requires c > 0 && InTime(ss, now) && AtMostFlying(ss, c, max, window)
    ensures CountGated(Fly(ss, max, window).history, true, t - window, t) <= max + c - 1
  {
    FlyKeeps(ss, c, max, window, now);
    assert Recent(Fly(ss, max, window).history, window, t) <= max + c - 1;
  }

  /** The stretches of one whole call. */
  function Parts(e: Event): seq<Stretch> {
    match e
    case Broadcast(at) => [Announce(at)]
    case Send(attempts, checked, recorded) =>
      if attempts == [] then []
      else [Begin(checked), if Delivers(attempts) then Deliver(recorded) else GiveUp]
  }

  /** Calls that follow one another, as stretches. */
  function Stretches(es: seq<Event>): seq<Stretch> {
    if es == [] then [] else Stretches(es[..|es| - 1]) + Parts(es[|es| - 1])
  }

  function AdvanceAll(f: Flight, ss: seq<Stretch>, max: int, window: real): Flight
    decreases ss
  {
    if ss == [] then f else AdvanceAll(Advance(f, ss[0], max, window), ss[1..], max, window)
  }

  lemma {:induction false} FlyOn(ss: seq<Stretch>, more: seq<Stretch>, max: int, window: real)
    ensures Fly(ss + more, max, window) == AdvanceAll(Fly(ss, max, window), more, max, window)
    decreases more
  {
    if more == [] {
      assert ss + more == ss;
    } else {
      assert (ss + [more[0]])[..|ss|] == ss;
      assert ss + more == (ss + [more[0]]) + more[1..];
      FlyOn(ss + [more[0]], more[1..], max, window);
    }
  }

  lemma OneCall(h: Hub, e: Event, max: int, window: real)
    ensures var h' := Apply(h, e, max, window);
      AdvanceAll(Flight(h.stamps, h.history, 0), Parts(e), max, window) == Flight(h'.stamps, h'.history, 0)
  {
    var f := Flight(h.stamps, h.history, 0);
    if e.Send? && e.attempts != [] {
      var first, second := Parts(e)[0], Parts(e)[1];
      assert Parts(e)[1..] == [second] && [second][1..] == [];
      var g := Advance(f, first, max, window);
      assert AdvanceAll(g, [second], max, window) == Advance(g, second, max, window);
    }
  }

  /** Sends that do not overlap are the hub of whole calls, with nothing left under way. */
  lemma {:induction false} SequentialIsWholeCalls(es: seq<Event>, max: int, window: real)
    ensures var h := Run(es, max, window);
      Fly(Stretches(es), max, window) == Flight(h.stamps, h.history, 0)
  {
    if es != [] {
      var init, e := es[..|es| - 1], es[|es| - 1];
      SequentialIsWholeCalls(init, max, window);
      FlyOn(Stretches(init), Parts(e), max, window);
      OneCall(Run(init, max, window), e, max, window);
    }
  }

  /** At the instant 0: `early` sends one after the other, then `begun` that begin and `landed` that deliver. */
  function Salvo(early: nat, begun: nat, landed: nat): seq<Stretch> {
    if landed > 0 then Salvo(early, begun, landed - 1) + [Deliver(0.0)]
    else if begun > 0 then Salvo(early, begun - 1, 0) + [Begin(0.0)]
    else if early > 0 then Salvo(early - 1, 0, 0) + [Begin(0.0)] + [Deliver(0.0)]
    else []
  }

  ghost predicate AllNow(f: Flight, records: nat, flying: nat) {
    && f.flying == flying && |f.history| == records && |f.stamps| == records
    && (forall i :: 0 <= i < records ==> f.stamps[i] == 0.0)
    && (forall i :: 0 <= i < records ==> f.history[i] == Sent(0.0, true))
  }

  lemma {:induction false} BeginNow(f: Flight, records: nat, flying: nat, max: nat, window: real)
    requires AllNow(f, records, flying) && records < max && window > 0.0
    ensures AllNow(Advance(f, Begin(0.0), max, window), records, flying + 1)
  {
    KeepEverything(f.stamps, 0.0 - window);
  }

  lemma {:induction false} DeliverNow(f: Flight, records: nat, flying: nat, max: nat, window: real)
    requires AllNow(f, records, flying) && flying > 0
    ensures AllNow(Advance(f, Deliver(0.0), max, window), records + 1, flying - 1)
  {
  }

  /** Lawful stretches that end with `records` sends recorded and `flying` under way, all at the instant 0. */
  ghost predicate Stands(ss: seq<Stretch>, records: nat, flying: nat, c: nat, max: nat, window: real) {
    InTime(ss, 0.0) && AtMostFlying(ss, c, max, window) && AllNow(Fly(ss, max, window), records, flying)
  }

  lemma {:induction false} BeginOne(ss: seq<Stretch>, records: nat, flying: nat, c: nat, max: nat, window: real)
    requires Stands(ss, records, flying, c, max, window) && records < max && flying < c && window > 0.0
    ensures Stands(ss + [Begin(0.0)], records, flying + 1, c, max, window)
  {
    assert (ss + [Begin(0.0)])[..|ss|] == ss;
    BeginNow(Fly(ss, max, window), records, flying, max, window);
  }

  lemma {:induction false} DeliverOne(ss: seq<Stretch>, records: nat, flying: nat, c: nat, max: nat, window: real)
    requires Stands(ss, records, flying, c, max, window) && 0 < flying <= c
    ensures Stands(ss + [Deliver(0.0)], records + 1, flying - 1, c, max, window)
  {
    assert (ss + [Deliver(0.0)])[..|ss|] == ss;
    DeliverNow(Fly(ss, max, window), records, flying, max, window);
  }

  lemma {:induction false} SalvoLands(early: nat, begun: nat, landed: nat, c: nat, max: nat, window: real)
    requires 0 < c && early < max && landed <= begun <= c && window > 0.0
    ensures Stands(Salvo(early, begun, landed), early + landed, begun - landed, c, max, window)
    decreases early + begun + landed
  {
    if landed > 0 {
      SalvoLands(early, begun, landed - 1, c, max, window);
      DeliverOne(Salvo(early, begun, landed - 1), early + landed - 1, begun - landed + 1, c, max, window);
    } else if begun > 0 {
      SalvoLands(early, begun - 1, 0, c, max, window);
      BeginOne(Salvo(early, begun - 1, 0), early, begun - 1, c, max, window);
    } else if early > 0 {
      var ss := Salvo(early - 1, 0, 0);
      SalvoLands(early - 1, 0, 0, c, max, window);
      BeginOne(ss, early - 1, 0, c, max, window);
      DeliverOne(ss + [Begin(0.0)], early - 1, 1, c, max, window);
    }
  }

  lemma {:induction false} AllRecent(history: seq<Sent>, window: real)
    requires window > 0.0
    requires forall i :: 0 <= i < |history| ==> history[i] == Sent(0.0, true)
    ensures Recent(history, window, 0.0) == |history|
  {
    if history != [] {
      AllRecent(history[..|history| - 1], window);
    }
  }

  /** The bound is reached for every limit and every number of sends under way. */
  lemma OverlapBoundIsTight(c: nat, max: nat, window: real)
    requires c > 0 && max > 0 && window > 0.0
    ensures var ss := Salvo(max - 1, c, c);
      && InTime(ss, 0.0) && AtMostFlying(ss, c, max, window)
      && CountGated(Fly(ss, max, window).history, true, 0.0 - window, 0.0) == max + c - 1
  {
    SalvoLands(max - 1, c, c, c, max, window);
    AllRecent(Fly(Salvo(max - 1, c, c), max, window).history, window);
  }
}
