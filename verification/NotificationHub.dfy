// The notification hub: a fallback chain of channels behind a list-filter
// limiter. What each channel answers is an input of the call.
module NotificationHub {
  import opened Throttling

  /** One channel's answer: delivered, declined, or an exception. */
  datatype Attempt = Delivered | Declined | Raised

  /** `checked` and `recorded` are the two clock readings of a send. */
  datatype Event =
    | Send(attempts: seq<Attempt>, checked: real, recorded: real)
    | Broadcast(at: real)

  /** A recorded send; only those of `send` went through the limiter. */
  datatype Sent = Sent(at: real, gated: bool)

  datatype Hub = Hub(stamps: seq<real>, history: seq<Sent>)

  predicate Limited(stamps: seq<real>, now: real, max: int, window: real) {
    |Keep(stamps, now - window)| >= max
  }

  predicate Delivers(attempts: seq<Attempt>) {
    exists i :: 0 <= i < |attempts| && attempts[i].Delivered?
  }

  function Apply(h: Hub, e: Event, max: int, window: real): Hub {
    match e
    case Broadcast(at) => Hub(h.stamps + [at], h.history + [Sent(at, false)])
    case Send(attempts, checked, recorded) =>
      if attempts == [] then h
      else
        var kept := Keep(h.stamps, checked - window);
        if Limited(h.stamps, checked, max, window) || !Delivers(attempts) then h.(stamps := kept)
        else Hub(kept + [recorded], h.history + [Sent(recorded, true)])
  }

  function Run(es: seq<Event>, max: int, window: real): Hub {
    if es == [] then Hub([], []) else Apply(Run(es[..|es| - 1], max, window), es[|es| - 1], max, window)
  }

  function Stamps(history: seq<Sent>): seq<real> {
    seq(|history|, i requires 0 <= i < |history| => history[i].at)
  }

  /** Sends come one after the other, so readings never go back. */
  ghost predicate ClockRuns(es: seq<Event>, now: real) {
    if es == [] then true
    else match es[|es| - 1]
      case Broadcast(at) => at <= now && ClockRuns(es[..|es| - 1], at)
      case Send(_, checked, recorded) => checked <= recorded <= now && ClockRuns(es[..|es| - 1], checked)
  }

  /** A gated send found room: fewer than `max` recorded sends, broadcasts included, in its window. */
  ghost predicate FoundRoom(history: seq<Sent>, j: nat, max: int, window: real)
    requires j < |history|
  {
    history[j].gated ==> CountIn(Stamps(history[..j]), history[j].at - window, history[j].at) < max
  }

  ghost predicate GatedUnder(history: seq<Sent>, max: int, window: real) {
    forall j :: 0 <= j < |history| ==> FoundRoom(history, j, max, window)
  }

  ghost predicate HubInvariant(h: Hub, max: int, window: real, now: real) {
    && Tracks(h.stamps, Stamps(h.history), window, now)
    && Ordered(Stamps(h.history)) && Until(Stamps(h.history), now)
    && GatedUnder(h.history, max, window)
  }

  lemma RecordKeeps(h: seq<Sent>, s: Sent, max: int, window: real)
    requires GatedUnder(h, max, window)
    requires s.gated ==> CountIn(Stamps(h), s.at - window, s.at) < max
    ensures GatedUnder(h + [s], max, window)
    ensures Stamps(h + [s]) == Stamps(h) + [s.at]
  {
    forall j | 0 <= j < |h + [s]|
      ensures FoundRoom(h + [s], j, max, window)
    {
      assert (h + [s])[..j] == if j < |h| then h[..j] else h;
      assert j < |h| ==> FoundRoom(h, j, max, window);
    }
  }

  /** A send checked at `checked` and recorded later still found room when recorded. */
  lemma RoomLasts(ts: seq<real>, max: int, window: real, checked: real, recorded: real)
    requires Until(ts, checked) && checked <= recorded
    requires CountIn(ts, checked - window, checked) < max
    ensures CountIn(ts, recorded - window, recorded) < max
  {
    CountUntil(ts, checked - window, checked, recorded);
    CountNarrower(ts, checked - window, recorded, recorded - window, recorded);
  }

  lemma BroadcastKeeps(h: Hub, at: real, max: int, window: real)
    requires HubInvariant(h, max, window, at)
    ensures HubInvariant(Apply(h, Broadcast(at), max, window), max, window, at)
  {
    RecordKeeps(h.history, Sent(at, false), max, window);
    OrderedAppend(Stamps(h.history), at);
    AppendTracks(h.stamps, Stamps(h.history), at, window, at);
  }

  /** Filtering at the check keeps the invariant up to any later moment. */
  lemma FilterKeeps(h: Hub, max: int, window: real, checked: real, later: real)
    requires HubInvariant(h, max, window, checked) && checked <= later
    ensures HubInvariant(h.(stamps := Keep(h.stamps, checked - window)), max, window, later)
    ensures Limited(h.stamps, checked, max, window)
        <==> CountIn(Stamps(h.history), checked - window, checked) >= max
  {
    var ts := Stamps(h.history);
    TrackedWindow(h.stamps, ts, window, checked);
    PrunedTracks(ts, window, checked);
    TracksLater(Keep(ts, checked - window), ts, window, checked, later);
  }

  lemma RecordSend(h: Hub, max: int, window: real, recorded: real)
    requires HubInvariant(h, max, window, recorded)
    requires CountIn(Stamps(h.history), recorded - window, recorded) < max
    ensures HubInvariant(Hub(h.stamps + [recorded], h.history + [Sent(recorded, true)]), max, window, recorded)
  {
    RecordKeeps(h.history, Sent(recorded, true), max, window);
    OrderedAppend(Stamps(h.history), recorded);
    AppendTracks(h.stamps, Stamps(h.history), recorded, window, recorded);
  }

  lemma SendKeeps(h: Hub, e: Event, max: int, window: real)
    requires e.Send? && e.checked <= e.recorded && HubInvariant(h, max, window, e.checked)
    ensures HubInvariant(Apply(h, e, max, window), max, window, e.recorded)
  {
    FilterKeeps(h, max, window, e.checked, e.recorded);
    if e.attempts == [] {
      TracksLater(h.stamps, Stamps(h.history), window, e.checked, e.recorded);
    } else if !Limited(h.stamps, e.checked, max, window) && Delivers(e.attempts) {
      RoomLasts(Stamps(h.history), max, window, e.checked, e.recorded);
      RecordSend(h.(stamps := Keep(h.stamps, e.checked - window)), max, window, e.recorded);
    }
  }

  /** A send with a channel to try is refused exactly when the window before it is full. */
  lemma RefusedExactlyWhenFull(es: seq<Event>, max: int, window: real, now: real)
    requires ClockRuns(es, now)
    ensures Limited(Run(es, max, window).stamps, now, max, window)
        <==> CountIn(Stamps(Run(es, max, window).history), now - window, now) >= max
  {
    RunKeepsHub(es, max, window, now);
    FilterKeeps(Run(es, max, window), max, window, now, now);
  }

  lemma {:induction false} RunKeepsHub(es: seq<Event>, max: int, window: real, now: real)
    requires ClockRuns(es, now)
    ensures HubInvariant(Run(es, max, window), max, window, now)
  {
    if es == [] {
      assert DropsExpired([], [], 0, window, now);
    } else {
      var init, e := es[..|es| - 1], es[|es| - 1];
      var h := Run(es, max, window);
      if e.Send? {
        RunKeepsHub(init, max, window, e.checked);
        SendKeeps(Run(init, max, window), e, max, window);
        TracksLater(h.stamps, Stamps(h.history), window, e.recorded, now);
      } else {
        RunKeepsHub(init, max, window, e.at);
        BroadcastKeeps(Run(init, max, window), e.at, max, window);
        TracksLater(h.stamps, Stamps(h.history), window, e.at, now);
      }
    }
  }

  function CountGated(history: seq<Sent>, gated: bool, lo: real, hi: real): nat {
    if history == [] then 0
    else
      var last := history[|history| - 1];
      CountGated(history[..|history| - 1], gated, lo, hi)
        + (if last.gated == gated && lo < last.at <= hi then 1 else 0)
  }

  lemma {:induction false} CountSplits(history: seq<Sent>, lo: real, hi: real)
    ensures CountIn(Stamps(history), lo, hi)
         == CountGated(history, true, lo, hi) + CountGated(history, false, lo, hi)
  {
    if history != [] {
      CountSplits(history[..|history| - 1], lo, hi);
      assert Stamps(history)[..|history| - 1] == Stamps(history[..|history| - 1]);
    }
  }

  lemma GatedPrefix(history: seq<Sent>, max: int, window: real)
    requires history != [] && Ordered(Stamps(history)) && GatedUnder(history, max, window)
    ensures var init := history[..|history| - 1];
      && Stamps(init) == Stamps(history)[..|history| - 1]
      && Ordered(Stamps(init)) && Until(Stamps(init), history[|history| - 1].at) && GatedUnder(init, max, window)
  {
    var n := |history| - 1;
    var init := history[..n];
    assert Stamps(init) == Stamps(history)[..n];
    forall i | 0 <= i < n
      ensures Stamps(init)[i] <= history[n].at && FoundRoom(init, i, max, window)
    {
      assert Stamps(history)[i] <= Stamps(history)[n];
      assert FoundRoom(history, i, max, window) && init[..i] == history[..i];
    }
  }

  lemma {:induction false} GatedBound(history: seq<Sent>, max: nat, window: real, t: real)
    requires Ordered(Stamps(history)) && GatedUnder(history, max, window)
    ensures CountGated(history, true, t - window, t) <= max
  {
    if history != [] {
      var n := |history| - 1;
      var init, last := history[..n], history[n];
      GatedPrefix(history, max, window);
      GatedBound(init, max, window, t);
      if last.gated && t - window < last.at <= t {
        assert FoundRoom(history, n, max, window);
        CountUntil(Stamps(init), t - window, t, last.at);
        CountNarrower(Stamps(init), last.at - window, last.at, t - window, last.at);
        CountSplits(init, t - window, t);
      }
    }
  }

  /**
   * Over any run no window-long interval holds more than `max` sends of the
   * fallback chain, nor more recorded sends than `max` and the broadcasts in it.
   */
  lemma SendsBounded(es: seq<Event>, max: nat, window: real, now: real, t: real)
    requires ClockRuns(es, now)
    ensures var history := Run(es, max, window).history;
      && CountGated(history, true, t - window, t) <= max
      && CountIn(Stamps(history), t - window, t) <= max + CountGated(history, false, t - window, t)
  {
    RunKeepsHub(es, max, window, now);
    GatedBound(Run(es, max, window).history, max, window, t);
    CountSplits(Run(es, max, window).history, t - window, t);
  }

  lemma {:induction false} NothingUngated(es: seq<Event>, max: int, window: real)
    requires forall e <- es :: e.Send?
    ensures forall s <- Run(es, max, window).history :: s.gated
  {
    if es != [] {
      NothingUngated(es[..|es| - 1], max, window);
      assert es[|es| - 1].Send?;
    }
  }

  lemma {:induction false} AllGated(history: seq<Sent>, lo: real, hi: real)
    requires forall s <- history :: s.gated
    ensures CountGated(history, false, lo, hi) == 0
  {
    if history != [] {
      AllGated(history[..|history| - 1], lo, hi);
      assert history[|history| - 1].gated;
    }
  }

  /** Without broadcasts the bound is `max` itself. */
  lemma SequentialSendsBounded(es: seq<Event>, max: nat, window: real, now: real, t: real)
    requires ClockRuns(es, now) && forall e <- es :: e.Send?
    ensures CountIn(Stamps(Run(es, max, window).history), t - window, t) <= max
  {
    SendsBounded(es, max, window, now, t);
    NothingUngated(es, max, window);
    AllGated(Run(es, max, window).history, t - window, t);
  }

  // ---------------------------------------------------------------- broadcasts and the limit

  /** Every record found room, broadcasts included. */
  ghost predicate AllFoundRoom(history: seq<Sent>, max: int, window: real) {
    AdmittedUnder(Stamps(history), max, window)
  }

  /** How many of the timestamps lie in the window that ends at `t`. */
  function InWindow(ts: seq<real>, window: real, t: real): nat {
    CountIn(ts, t - window, t)
  }

  /** No window holds more than `max` records. */
  ghost predicate WithinLimit(history: seq<Sent>, max: int, window: real) {
    forall t: real :: InWindow(Stamps(history), window, t) <= max
  }

  lemma {:induction false} CountPrefix(ts: seq<real>, j: nat, lo: real, hi: real)
    requires j <= |ts|
    ensures CountIn(ts[..j], lo, hi) <= CountIn(ts, lo, hi)
  {
    if j == |ts| {
      assert ts[..j] == ts;
    } else {
      CountPrefix(ts[..|ts| - 1], j, lo, hi);
      assert ts[..|ts| - 1][..j] == ts[..j];
    }
  }

  lemma {:induction false} LimitAdmits(ts: seq<real>, max: int, window: real)
    requires window > 0.0 && forall t: real :: InWindow(ts, window, t) <= max
    ensures AdmittedUnder(ts, max, window)
  {
    forall j | 0 <= j < |ts|
      ensures AdmittedAt(ts, j, max, window)
    {
      var t := ts[j];
      assert InWindow(ts, window, t) <= max;
      CountPrefix(ts, j + 1, t - window, t);
      assert ts[..j + 1] == ts[..j] + [t];
      CountAppend(ts[..j], t, t - window, t);
    }
  }

  /** Each broadcast of the run came while a send would not have been refused. */
  ghost predicate BroadcastsAsked(es: seq<Event>, max: int, window: real) {
    es != [] ==>
      var init, e := es[..|es| - 1], es[|es| - 1];
      && BroadcastsAsked(init, max, window)
      && (e.Broadcast? ==> !Limited(Run(init, max, window).stamps, e.at, max, window))
  }

  lemma {:induction false} RoomOneMore(h: seq<Sent>, s: Sent, max: int, window: real)
    ensures AllFoundRoom(h + [s], max, window)
       <==> AllFoundRoom(h, max, window) && CountIn(Stamps(h), s.at - window, s.at) < max
  {
    var ts := Stamps(h);
    assert Stamps(h + [s]) == ts + [s.at];
    if AdmittedUnder(ts + [s.at], max, window) {
      AdmittedPrefix(ts + [s.at], max, window);
      assert (ts + [s.at])[..|ts|] == ts;
    }
    if AdmittedUnder(ts, max, window) && CountIn(ts, s.at - window, s.at) < max {
      AdmitNext(ts, s.at, max, window);
    }
  }

  /** A recorded send found room, whatever came before it. */
  lemma {:induction false} SendFindsRoom(h: Hub, e: Event, max: int, window: real)
    requires e.Send? && e.checked <= e.recorded && HubInvariant(h, max, window, e.checked)
    ensures AllFoundRoom(Apply(h, e, max, window).history, max, window) <==> AllFoundRoom(h.history, max, window)
  {
    if e.attempts != [] && !Limited(h.stamps, e.checked, max, window) && Delivers(e.attempts) {
      FilterKeeps(h, max, window, e.checked, e.recorded);
      RoomLasts(Stamps(h.history), max, window, e.checked, e.recorded);
      RoomOneMore(h.history, Sent(e.recorded, true), max, window);
    }
  }

  /** A broadcast found room exactly when a send would not have been refused. */
  lemma {:induction false} BroadcastFindsRoom(h: Hub, at: real, max: int, window: real)
    requires HubInvariant(h, max, window, at)
    ensures AllFoundRoom(Apply(h, Broadcast(at), max, window).history, max, window)
       <==> AllFoundRoom(h.history, max, window) && !Limited(h.stamps, at, max, window)
  {
    FilterKeeps(h, max, window, at, at);
    RoomOneMore(h.history, Sent(at, false), max, window);
  }

  lemma {:induction false} RoomExactlyWhenAsked(es: seq<Event>, max: int, window: real, now: real)
    requires ClockRuns(es, now)
    ensures AllFoundRoom(Run(es, max, window).history, max, window) <==> BroadcastsAsked(es, max, window)
  {
    if es != [] {
      var init, e := es[..|es| - 1], es[|es| - 1];
      var t := if e.Send? then e.checked else e.at;
      RoomExactlyWhenAsked(init, max, window, t);
      RunKeepsHub(init, max, window, t);
      if e.Send? {
        SendFindsRoom(Run(init, max, window), e, max, window);
      } else {
        BroadcastFindsRoom(Run(init, max, window), e.at, max, window);
      }
    }
  }

  /**
   * Over every run with broadcasts, no window holds more than `max` records
   * exactly when each broadcast came while a send would not have been refused:
   * the guard that `broadcast` skips.
   */
  lemma {:induction false} WithinLimitExactlyWhenAsked(es: seq<Event>, max: nat, window: real, now: real)
    requires ClockRuns(es, now) && window > 0.0
    ensures WithinLimit(Run(es, max, window).history, max, window) <==> BroadcastsAsked(es, max, window)
  {
    var ts := Stamps(Run(es, max, window).history);
    RoomExactlyWhenAsked(es, max, window, now);
    RunKeepsHub(es, max, window, now);
    if AdmittedUnder(ts, max, window) {
      forall t: real
        ensures InWindow(ts, window, t) <= max
      {
        WindowBound(ts, max, window, t);
      }
    }
    if WithinLimit(Run(es, max, window).history, max, window) {
      LimitAdmits(ts, max, window);
    }
  }

  /** Broadcasts alone, one more than the limit at one instant, pass it: the last came while sends were refused. */
  lemma {:induction false} BroadcastIsNotGated(max: nat, window: real)
    requires window > 0.0
    ensures var es := seq(max + 1, i => Broadcast(0.0));
      ClockRuns(es, 0.0) && CountIn(Stamps(Run(es, max, window).history), 0.0 - window, 0.0) == max + 1
  {
    BroadcastsPileUp(max + 1, max, window);
  }

  lemma {:induction false} BroadcastsPileUp(n: nat, max: int, window: real)
    requires window > 0.0
    ensures var es := seq(n, i => Broadcast(0.0));
      ClockRuns(es, 0.0) && CountIn(Stamps(Run(es, max, window).history), 0.0 - window, 0.0) == n
  {
    if n > 0 {
      BroadcastsPileUp(n - 1, max, window);
      var es := seq(n, i => Broadcast(0.0));
      assert es[..n - 1] == seq(n - 1, i => Broadcast(0.0));
      var h := Run(es[..n - 1], max, window).history;
      assert Stamps(h + [Sent(0.0, false)]) == Stamps(h) + [0.0];
      CountAppend(Stamps(h), 0.0, 0.0 - window, 0.0);
    }
  }

  lemma StampsAfterSend(h: Hub, attempts: seq<Attempt>, checked: real, recorded: real, max: int, window: real)
    ensures var kept := Keep(h.stamps, checked - window);
      Apply(h, Event.Send(attempts, checked, recorded), max, window).stamps
        == if attempts == [] then h.stamps
           else if |kept| >= max || !Delivers(attempts) then kept
           else kept + [recorded]
  {
  }

  /** The timestamps still inside the window that ends at `now`. */
  function Current(stamps: seq<real>, window: real, now: real): seq<real> {
    if stamps == [] then []
    else
      var init, last := Current(stamps[..|stamps| - 1], window, now), stamps[|stamps| - 1];
      if now - last < window then init + [last] else init
  }

  lemma {:induction false} CurrentIsKept(stamps: seq<real>, window: real, now: real)
    ensures Current(stamps, window, now) == Keep(stamps, now - window)
  {
    if stamps != [] {
      CurrentIsKept(stamps[..|stamps| - 1], window, now);
    }
  }

  /**
   * One send: with room in the window and a channel that delivers it is recorded
   * at the moment of the record; where the limiter was asked the expired
   * timestamps are gone either way. A broadcast is always recorded.
   */
  lemma {:induction false} CallOutcome(h: Hub, e: Event, max: int, window: real)
    ensures var h' := Apply(h, e, max, window);
      match e
      case Broadcast(at) => h'.stamps == h.stamps + [at] && h'.history == h.history + [Sent(at, false)]
      case Send(attempts, checked, recorded) =>
        var current := Current(h.stamps, window, checked);
        if attempts == [] then h' == h
        else if |current| < max && exists i :: 0 <= i < |attempts| && attempts[i].Delivered?
        then h'.stamps == current + [recorded] && h'.history == h.history + [Sent(recorded, true)]
        else h'.stamps == current && h'.history == h.history
  {
    if e.Send? {
      CurrentIsKept(h.stamps, window, e.checked);
    }
  }

  lemma {:induction false} RunOneMore(es: seq<Event>, e: Event, max: int, window: real)
    ensures Run(es + [e], max, window) == Apply(Run(es, max, window), e, max, window)
  {
    assert (es + [e])[..|es|] == es;
  }

  // ---------------------------------------------------------------- the object

  class NotificationHub {
    const max: int
    const window: real
    var sendTimestamps: seq<real>
    /** Every send and broadcast so far. */
    ghost var log: seq<Event>

    constructor (max: int, window: real)
      ensures Valid() && log == [] && this.max == max && this.window == window
    {
      this.max := max;
      this.window := window;
      sendTimestamps := [];
      log := [];
    }

    ghost predicate Valid()
      reads this
    {
      sendTimestamps == Run(log, max, window).stamps
    }

    /** The channels answer `attempts`, of which only a prefix is asked. */
    method Send(attempts: seq<Attempt>, checked: real, recorded: real) returns (ok: bool, asked: nat)
      requires Valid()
      modifies this
      ensures Valid() && log == old(log) + [Event.Send(attempts, checked, recorded)]
      ensures ok <==> Delivers(attempts) && !Limited(old(sendTimestamps), checked, max, window)
      ensures ok ==> 1 <= asked <= |attempts| && attempts[asked - 1].Delivered? && !Delivers(attempts[..asked - 1])
      ensures !ok ==> asked == 0 || asked == |attempts|
    {
      RunOneMore(log, Event.Send(attempts, checked, recorded), max, window);
      StampsAfterSend(Run(log, max, window), attempts, checked, recorded, max, window);
      log := log + [Event.Send(attempts, checked, recorded)];
      ok, asked := false, 0;
      if attempts != [] {
        sendTimestamps := Keep(sendTimestamps, checked - window);
        if |sendTimestamps| < max {
          ok, asked := AskChannels(attempts);
          if ok {
            sendTimestamps := sendTimestamps + [recorded];
          }
        }
      }
    }

    /** Channels in order of priority, up to the first that delivers. */
    method AskChannels(attempts: seq<Attempt>) returns (ok: bool, asked: nat)
      ensures ok <==> Delivers(attempts)
      ensures ok ==> 1 <= asked <= |attempts| && attempts[asked - 1].Delivered? && !Delivers(attempts[..asked - 1])
      ensures !ok ==> asked == |attempts|
    {
      asked := 0;
      for i := 0 to |attempts|
        invariant asked == i && !Delivers(attempts[..i])
      {
        asked := i + 1;
        if attempts[i].Delivered? {
          return true, asked;
        }
      }
      assert attempts[..|attempts|] == attempts;
      ok := false;
    }

    /** Every channel is asked, in order; a channel's last answer stands under its name. */
    method Broadcast(answers: seq<(string, Attempt)>, at: real) returns (results: map<string, bool>)
      requires Valid()
      modifies this
      ensures Valid() && log == old(log) + [Event.Broadcast(at)]
      ensures sendTimestamps == old(sendTimestamps) + [at]
      ensures forall name :: name in results <==> exists i :: 0 <= i < |answers| && answers[i].0 == name
      ensures forall i :: 0 <= i < |answers| && (forall j :: i < j < |answers| ==> answers[j].0 != answers[i].0) ==>
        results[answers[i].0] == answers[i].1.Delivered?
    {
      results := map[];
      for i := 0 to |answers|
        invariant forall name :: name in results <==> exists k :: 0 <= k < i && answers[k].0 == name
        invariant forall k :: 0 <= k < i && (forall j :: k < j < i ==> answers[j].0 != answers[k].0) ==>
          results[answers[k].0] == answers[k].1.Delivered?
      {
        results := results[answers[i].0 := answers[i].1.Delivered?];
      }
      RunOneMore(log, Event.Broadcast(at), max, window);
      sendTimestamps := sendTimestamps + [at];
      log := log + [Event.Broadcast(at)];
    }
  }
}
