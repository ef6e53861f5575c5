// The signal notifier: severity and direction filters, a cooldown per
// code/detector key and a fixed one-minute window.
module SignalNotifier {
  import opened Common

  /** `direction` is the upper-cased text; `code` is absent when the signal has no such entry. */
  datatype Signal = Signal(severity: int, direction: string, code: Option<string>, detector: string)

  /** An empty direction list filters nothing. */
  datatype Config = Config(minSeverity: int, cooldown: real, maxPerMinute: int, directions: seq<string>)

  /** What became of the send: done, failed and counted, or an exception out of the retry. */
  datatype Outcome = Delivered | Failed | Escaped

  /** One signal's turn: the clock at the filter, the clock after the send. */
  datatype Turn = Turn(signal: Signal, checked: real, sent: real, outcome: Outcome)

  datatype Stats = Stats(processed: nat, sent: nat, filtered: nat, errors: nat)

  /** A successful send; `minute` numbers the fixed windows. */
  datatype Record = Record(key: string, coded: bool, at: real, minute: nat)

  datatype Notifier = Notifier(
    cache: map<string, real>, count: int, start: real, stats: Stats,
    minute: nat, log: seq<Record>, escaped: nat)

  /** The cooldown is looked up under this key ... */
  function CheckKey(s: Signal): string {
    (if s.code.Some? then s.code.value else "") + "_" + s.detector
  }

  /** ... and recorded under this one. */
  function SendKey(s: Signal): string {
    (if s.code.Some? then s.code.value else "?") + "_" + s.detector
  }

  predicate Filtered(cache: map<string, real>, s: Signal, now: real, cfg: Config) {
    || s.severity < cfg.minSeverity
    || (cfg.directions != [] && s.direction !in cfg.directions)
    || now - (if CheckKey(s) in cache then cache[CheckKey(s)] else 0.0) < cfg.cooldown
  }

  /** A new minute begins once more than 60 seconds have passed. */
  function Roll(n: Notifier, now: real): Notifier {
    if now - n.start > 60.0 then n.(count := 0, start := now, minute := n.minute + 1) else n
  }

  function AddSend(n: Notifier, s: Signal, at: real): Notifier {
    n.(cache := n.cache[SendKey(s) := at], count := n.count + 1,
       stats := n.stats.(sent := n.stats.sent + 1),
       log := n.log + [Record(SendKey(s), s.code.Some?, at, n.minute)])
  }

  /** `_should_notify` rolls the minute over even where the answer is no. */
  function Gate(n: Notifier, s: Signal, now: real, cfg: Config): Notifier {
    if Filtered(n.cache, s, now, cfg) then n else Roll(n, now)
  }

  predicate Passes(n: Notifier, s: Signal, now: real, cfg: Config) {
    !Filtered(n.cache, s, now, cfg) && Roll(n, now).count < cfg.maxPerMinute
  }

  function Counted(n: Notifier): Notifier {
    n.(stats := n.stats.(processed := n.stats.processed + 1))
  }

  function Finish(n: Notifier, t: Turn, passed: bool): Notifier {
    if !passed then n.(stats := n.stats.(filtered := n.stats.filtered + 1))
    else match t.outcome
      case Escaped => n.(escaped := n.escaped + 1)
      case Failed => n.(stats := n.stats.(errors := n.stats.errors + 1))
      case Delivered => AddSend(n, t.signal, t.sent)
  }

  function Take(n: Notifier, t: Turn, cfg: Config): Notifier {
    var m := Counted(n);
    Finish(Gate(m, t.signal, t.checked, cfg), t, Passes(m, t.signal, t.checked, cfg))
  }

  const IDLE := Notifier(map[], 0, 0.0, Stats(0, 0, 0, 0), 0, [], 0)

  function Run(ts: seq<Turn>, cfg: Config): Notifier {
    if ts == [] then IDLE else Take(Run(ts[..|ts| - 1], cfg), ts[|ts| - 1], cfg)
  }

  /** The clock never goes back over the turns, and `now` is not before the last. */
  ghost predicate ClockRuns(ts: seq<Turn>, now: real) {
    ts != [] ==>
      var t := ts[|ts| - 1]; t.checked <= t.sent <= now && ClockRuns(ts[..|ts| - 1], t.checked)
  }

  // ---------------------------------------------------------------- invariants

  function InMinute(log: seq<Record>, minute: nat): nat {
    if log == [] then 0
    else InMinute(log[..|log| - 1], minute) + (if log[|log| - 1].minute == minute then 1 else 0)
  }

  function Between(log: seq<Record>, lo: real, hi: real): nat {
    if log == [] then 0
    else Between(log[..|log| - 1], lo, hi) + (if lo <= log[|log| - 1].at <= hi then 1 else 0)
  }

  /** Records come in order, and records two minutes apart are more than 60 seconds apart. */
  ghost predicate Spaced(log: seq<Record>) {
    forall a, b :: 0 <= a < b < |log| ==>
      && log[a].minute <= log[b].minute
      && (log[a].minute + 2 <= log[b].minute ==> log[a].at + 60.0 < log[b].at)
  }

  /** How the running minute, begun at `start`, lies relative to the records so far. */
  ghost predicate MinuteTracks(log: seq<Record>, minute: nat, start: real, now: real) {
    && (minute > 0 ==> start <= now)
    && (forall a :: 0 <= a < |log| ==>
          && log[a].minute <= minute && log[a].at <= now
          && (log[a].minute < minute ==> log[a].at <= start)
          && (log[a].minute + 2 <= minute ==> log[a].at + 60.0 < start))
  }

  /** The counter counts the running minute, and no minute exceeds the cap. */
  ghost predicate Capped(log: seq<Record>, minute: nat, count: int, cap: int) {
    && count == InMinute(log, minute)
    && forall m: nat :: InMinute(log, m) <= (if cap > 0 then cap else 0)
  }

  ghost predicate CacheTracks(log: seq<Record>, cache: map<string, real>) {
    forall a :: 0 <= a < |log| ==> log[a].key in cache && log[a].at <= cache[log[a].key]
  }

  /** Sends under one key, the later of a signal with a code, are a cooldown apart. */
  ghost predicate CooledDown(log: seq<Record>, cooldown: real) {
    forall a, b :: 0 <= a < b < |log| && log[a].key == log[b].key && log[b].coded ==>
      log[b].at - log[a].at >= cooldown
  }

  ghost predicate Throttled(n: Notifier, now: real, cfg: Config) {
    && Spaced(n.log)
    && MinuteTracks(n.log, n.minute, n.start, now)
    && Capped(n.log, n.minute, n.count, cfg.maxPerMinute)
    && CacheTracks(n.log, n.cache)
    && CooledDown(n.log, cfg.cooldown)
  }

  lemma {:induction false} NoneInMinute(log: seq<Record>, minute: nat)
    requires forall a :: 0 <= a < |log| ==> log[a].minute != minute
    ensures InMinute(log, minute) == 0
  {
    if log != [] {
      NoneInMinute(log[..|log| - 1], minute);
    }
  }

  lemma RollKeeps(n: Notifier, now: real, cfg: Config)
    requires Throttled(n, now, cfg)
    ensures Throttled(Roll(n, now), now, cfg)
  {
    if now - n.start > 60.0 {
      NoneInMinute(n.log, n.minute + 1);
    }
  }

  lemma SendKeepsMinutes(log: seq<Record>, r: Record, start: real, now: real)
    requires Spaced(log) && MinuteTracks(log, r.minute, start, now) && now <= r.at
    ensures Spaced(log + [r])
    ensures MinuteTracks(log + [r], r.minute, start, r.at)
  {
  }

  lemma SendKeepsCap(log: seq<Record>, r: Record, count: int, cap: int)
    requires Capped(log, r.minute, count, cap) && count < cap
    ensures Capped(log + [r], r.minute, count + 1, cap)
  {
    assert (log + [r])[..|log|] == log;
    forall m: nat
      ensures InMinute(log + [r], m) == InMinute(log, m) + (if m == r.minute then 1 else 0)
    {
    }
  }

  lemma SendKeepsCache(log: seq<Record>, r: Record, cache: map<string, real>, now: real)
    requires CacheTracks(log, cache) && forall a :: 0 <= a < |log| ==> log[a].at <= r.at
    ensures CacheTracks(log + [r], cache[r.key := r.at])
  {
  }

  /** A send that passed the cooldown check under the key it is recorded under. */
  lemma SendCoolsDown(log: seq<Record>, r: Record, cache: map<string, real>, now: real, cooldown: real)
    requires CooledDown(log, cooldown) && CacheTracks(log, cache) && now <= r.at
    requires r.coded && r.key in cache ==> now - cache[r.key] >= cooldown
    ensures CooledDown(log + [r], cooldown)
  {
    forall a | 0 <= a < |log| && log[a].key == r.key && r.coded
      ensures r.at - log[a].at >= cooldown
    {
    }
  }

  lemma AddSendKeeps(n: Notifier, s: Signal, at: real, now: real, cfg: Config)
    requires Throttled(n, now, cfg) && !Filtered(n.cache, s, now, cfg)
    requires n.count < cfg.maxPerMinute && now <= at
    ensures Throttled(AddSend(n, s, at), at, cfg)
  {
    var r := Record(SendKey(s), s.code.Some?, at, n.minute);
    assert s.code.Some? ==> CheckKey(s) == r.key;
    SendKeepsMinutes(n.log, r, n.start, now);
    SendKeepsCap(n.log, r, n.count, cfg.maxPerMinute);
    SendKeepsCache(n.log, r, n.cache, now);
    SendCoolsDown(n.log, r, n.cache, now, cfg.cooldown);
  }

  lemma MinuteLater(log: seq<Record>, minute: nat, start: real, now: real, later: real)
    requires MinuteTracks(log, minute, start, now) && now <= later
    ensures MinuteTracks(log, minute, start, later)
  {
  }

  lemma GateKeeps(n: Notifier, s: Signal, now: real, cfg: Config)
    requires Throttled(n, now, cfg)
    ensures var m := Gate(n, s, now, cfg);
      Throttled(m, now, cfg) && m.cache == n.cache && (Passes(n, s, now, cfg) ==> m == Roll(n, now))
  {
    RollKeeps(n, now, cfg);
  }

  lemma FinishKeeps(n: Notifier, t: Turn, passed: bool, cfg: Config)
    requires Throttled(n, t.checked, cfg) && t.checked <= t.sent
    requires passed ==> !Filtered(n.cache, t.signal, t.checked, cfg) && n.count < cfg.maxPerMinute
    ensures Throttled(Finish(n, t, passed), t.sent, cfg)
  {
    if passed && t.outcome.Delivered? {
      AddSendKeeps(n, t.signal, t.sent, t.checked, cfg);
    } else {
      MinuteLater(n.log, n.minute, n.start, t.checked, t.sent);
    }
  }

  lemma TakeKeeps(n: Notifier, t: Turn, cfg: Config)
    requires Throttled(n, t.checked, cfg) && t.checked <= t.sent
    ensures Throttled(Take(n, t, cfg), t.sent, cfg)
  {
    var m := Counted(n);
    GateKeeps(m, t.signal, t.checked, cfg);
    FinishKeeps(Gate(m, t.signal, t.checked, cfg), t, Passes(m, t.signal, t.checked, cfg), cfg);
  }

  lemma {:induction false} RunThrottled(ts: seq<Turn>, now: real, cfg: Config)
    requires ClockRuns(ts, now)
    ensures Throttled(Run(ts, cfg), now, cfg)
  {
    if ts != [] {
      var init, t := ts[..|ts| - 1], ts[|ts| - 1];
      RunThrottled(init, t.checked, cfg);
      TakeKeeps(Run(init, cfg), t, cfg);
      var n := Run(ts, cfg);
      MinuteLater(n.log, n.minute, n.start, t.sent, now);
    }
  }

  // ---------------------------------------------------------------- the promises

  lemma {:induction false} TwoMinutesCover(log: seq<Record>, lo: real, hi: real, minute: nat)
    requires forall a :: 0 <= a < |log| && lo <= log[a].at <= hi ==>
      log[a].minute == minute || log[a].minute == minute + 1
    ensures Between(log, lo, hi) <= InMinute(log, minute) + InMinute(log, minute + 1)
  {
    if log != [] {
      TwoMinutesCover(log[..|log| - 1], lo, hi, minute);
    }
  }

  lemma {:induction false} NoneBetween(log: seq<Record>, lo: real, hi: real)
    requires forall a :: 0 <= a < |log| ==> !(lo <= log[a].at <= hi)
    ensures Between(log, lo, hi) == 0
  {
    if log != [] {
      NoneBetween(log[..|log| - 1], lo, hi);
    }
  }

  /** The first record in the interval, if any. */
  lemma {:induction false} FirstBetween(log: seq<Record>, lo: real, hi: real) returns (a: Option<nat>)
    ensures a.None? ==> forall b :: 0 <= b < |log| ==> !(lo <= log[b].at <= hi)
    ensures a.Some? ==> a.value < |log| && lo <= log[a.value].at <= hi
    ensures a.Some? ==> forall b :: 0 <= b < a.value ==> !(lo <= log[b].at <= hi)
  {
    if log == [] {
      a := None;
    } else {
      a := FirstBetween(log[..|log| - 1], lo, hi);
      if a.None? && lo <= log[|log| - 1].at <= hi {
        a := Some(|log| - 1);
      }
    }
  }

  /** Any 60 seconds, both ends included, hold at most twice `max_per_minute` successful sends. */
  lemma AtMostTwiceMax(ts: seq<Turn>, now: real, cfg: Config, t: real)
    requires ClockRuns(ts, now)
    ensures Between(Run(ts, cfg).log, t, t + 60.0) <= 2 * (if cfg.maxPerMinute > 0 then cfg.maxPerMinute else 0)
  {
    var n := Run(ts, cfg);
    RunThrottled(ts, now, cfg);
    var first := FirstBetween(n.log, t, t + 60.0);
    if first.None? {
      NoneBetween(n.log, t, t + 60.0);
    } else {
      var a := first.value;
      TwoMinutesCover(n.log, t, t + 60.0, n.log[a].minute);
    }
  }

  /** Two successful sends under one key, the later with a code, are a cooldown apart. */
  lemma CooldownHolds(ts: seq<Turn>, now: real, cfg: Config, a: nat, b: nat)
    requires ClockRuns(ts, now) && a < b < |Run(ts, cfg).log|
    requires var log := Run(ts, cfg).log; log[a].key == log[b].key && log[b].coded
    ensures Run(ts, cfg).log[b].at - Run(ts, cfg).log[a].at >= cfg.cooldown
  {
    RunThrottled(ts, now, cfg);
  }

  /** processed = sent + filtered + errors, exactly when no exception escaped a retry. */
  lemma {:induction false} StatsBalance(ts: seq<Turn>, cfg: Config)
    ensures var n := Run(ts, cfg);
      && n.stats.processed == n.stats.sent + n.stats.filtered + n.stats.errors + n.escaped
      && n.stats.processed == |ts| && n.stats.sent == |n.log|
  {
    if ts != [] {
      StatsBalance(ts[..|ts| - 1], cfg);
    }
  }

  lemma StatsBalanceExactly(ts: seq<Turn>, cfg: Config)
    ensures var n := Run(ts, cfg);
      n.stats.processed == n.stats.sent + n.stats.filtered + n.stats.errors <==> n.escaped == 0
  {
    StatsBalance(ts, cfg);
  }

  /** A signal without a code never meets its own cooldown: it is looked up and recorded under two keys. */
  lemma UncodedSignalsDoNotCoolDown()
    ensures var s := Signal(5, "BUY", None, "SPIKE");
      var cfg := Config(2, 300.0, 10, []);
      var ts := [Turn(s, 1000.0, 1000.0, Delivered), Turn(s, 1000.0, 1000.0, Delivered)];
      ClockRuns(ts, 1000.0) && |Run(ts, cfg).log| == 2
        && Run(ts, cfg).log[0].key == Run(ts, cfg).log[1].key
  {
    var s := Signal(5, "BUY", None, "SPIKE");
    var cfg := Config(2, 300.0, 10, []);
    var t := Turn(s, 1000.0, 1000.0, Delivered);
    assert [t, t][..1] == [t] && [t][..0] == [];
    assert SendKey(s)[0] == '?' && CheckKey(s)[0] == '_';
    assert Run([t], cfg) == Take(IDLE, t, cfg);
    assert !Filtered(Run([t], cfg).cache, s, 1000.0, cfg);
    assert Run([t, t], cfg) == Take(Run([t], cfg), t, cfg);
  }

  /**
   * What a send does to the filter of its own signal: with a code the cooldown
   * starts at the send; without one the send changes nothing.
   */
  lemma RepeatAfterSend(n: Notifier, s: Signal, at: real, now: real, cfg: Config)
    ensures var after := AddSend(n, s, at).cache;
      if s.code.Some? then
        Filtered(after, s, now, cfg) <==>
          s.severity < cfg.minSeverity || (cfg.directions != [] && s.direction !in cfg.directions)
          || now - at < cfg.cooldown
      else
        Filtered(after, s, now, cfg) <==> Filtered(n.cache, s, now, cfg)
  {
    if s.code.None? {
      assert CheckKey(s)[0] == '_' && SendKey(s)[0] == '?';
    }
  }

  lemma RunOneMore(ts: seq<Turn>, t: Turn, cfg: Config)
    ensures Run(ts + [t], cfg) == Take(Run(ts, cfg), t, cfg)
  {
    assert (ts + [t])[..|ts|] == ts;
  }

  lemma TakeParts(n: Notifier, t: Turn, cfg: Config)
    ensures var m := Counted(n);
      var gated := Gate(m, t.signal, t.checked, cfg);
      && Take(n, t, cfg) == Finish(gated, t, Passes(m, t.signal, t.checked, cfg))
      && gated.escaped == n.escaped && gated.stats == m.stats && m.stats.sent == n.stats.sent
  {
  }

  // ---------------------------------------------------------------- one signal

  /** The signal is not let through to the cap: too mild, the wrong way, or too soon after the last under its key. */
  ghost predicate Muted(n: Notifier, s: Signal, now: real, cfg: Config) {
    var key := (if s.code.Some? then s.code.value else "") + "_" + s.detector;
    || s.severity < cfg.minSeverity
    || (|cfg.directions| > 0 && s.direction !in cfg.directions)
    || (key in n.cache && now < n.cache[key] + cfg.cooldown)
    || (key !in n.cache && now < cfg.cooldown)
  }

  /** The minute in which a signal that is not muted is counted. */
  predicate NewMinute(n: Notifier, now: real) {
    now > n.start + 60.0
  }

  /** The cap leaves room for one more at `now`. */
  predicate Room(n: Notifier, now: real, cfg: Config) {
    0 < cfg.maxPerMinute && (NewMinute(n, now) || n.count < cfg.maxPerMinute)
  }

  /** What one turn does to the four counters. */
  function Tally(stats: Stats, sent: bool, filtered: bool, failed: bool): Stats {
    Stats(stats.processed + 1, stats.sent + (if sent then 1 else 0),
          stats.filtered + (if filtered then 1 else 0), stats.errors + (if failed then 1 else 0))
  }

  /**
   * One turn: a muted signal, and one for which the cap has no room, is
   * filtered; otherwise it is sent, fails or escapes as the hub decides. Only
   * a sent one starts a cooldown and is counted in the minute, and a signal that
   * is not muted begins a new minute once the old one is over.
   */
  lemma {:induction false} TurnOutcome(n: Notifier, t: Turn, cfg: Config)
    requires n.count >= 0
    ensures var n', muted := Take(n, t, cfg), Muted(n, t.signal, t.checked, cfg);
      var through := !muted && Room(n, t.checked, cfg);
      var sent, rolled := through && t.outcome.Delivered?, !muted && NewMinute(n, t.checked);
      var key := (if t.signal.code.Some? then t.signal.code.value else "?") + "_" + t.signal.detector;
      && n'.stats == Tally(n.stats, sent, !through, through && t.outcome.Failed?)
      && n'.escaped == n.escaped + (if through && t.outcome.Escaped? then 1 else 0)
      && n'.cache == (if sent then n.cache[key := t.sent] else n.cache)
      && n'.start == (if rolled then t.checked else n.start)
      && n'.count == (if rolled then 0 else n.count) + (if sent then 1 else 0)
      && n'.minute == n.minute + (if rolled then 1 else 0)
      && n'.log == n.log + (if sent then [Record(key, t.signal.code.Some?, t.sent, n'.minute)] else [])
  {
    assert Filtered(n.cache, t.signal, t.checked, cfg) <==> Muted(n, t.signal, t.checked, cfg);
  }

  lemma {:induction false} CountNonNegative(ts: seq<Turn>, cfg: Config)
    ensures Run(ts, cfg).count >= 0
  {
    if ts != [] {
      CountNonNegative(ts[..|ts| - 1], cfg);
    }
  }

  // ---------------------------------------------------------------- the bound is reached

  /** A failed send opens the minute at 100; then `i` sends at 160, and `j` at 161, where the next minute begins. */
  function Rush(s: Signal, i: nat, j: nat): seq<Turn> {
    if j > 0 then Rush(s, i, j - 1) + [Turn(s, 161.0, 161.0, Delivered)]
    else if i > 0 then Rush(s, i - 1, 0) + [Turn(s, 160.0, 160.0, Delivered)]
    else [Turn(s, 100.0, 100.0, Failed)]
  }

  /** What the rush leaves behind. */
  ghost predicate Rushed(n: Notifier, s: Signal, i: nat, j: nat) {
    && (if j > 0 then n.start == 161.0 && n.count == j else n.start == 100.0 && n.count == i)
    && (CheckKey(s) in n.cache ==> n.cache[CheckKey(s)] <= if j > 0 then 161.0 else 160.0)
    && |n.log| == i + j && forall a :: 0 <= a < |n.log| ==> 160.0 <= n.log[a].at <= 161.0
  }

  /** No filter but the cap. */
  function Open(max: int): Config {
    Config(0, 0.0, max, [])
  }

  lemma {:induction false} RushOneMore(n: Notifier, s: Signal, i: nat, j: nat, max: int, at: real)
    requires Rushed(n, s, i, j) && s.code.Some? && s.severity >= 0
    requires (at == 160.0 && j == 0 && i < max) || (at == 161.0 && j < max)
    ensures var n' := Take(n, Turn(s, at, at, Delivered), Open(max));
      if at == 160.0 then Rushed(n', s, i + 1, 0) else Rushed(n', s, i, j + 1)
  {
    var m := Counted(n);
    assert !Filtered(m.cache, s, at, Open(max));
    assert Passes(m, s, at, Open(max));
  }

  lemma {:induction false} RushRuns(s: Signal, i: nat, j: nat, max: nat)
    requires s.code.Some? && s.severity >= 0 && i <= max && j <= max
    ensures Rushed(Run(Rush(s, i, j), Open(max)), s, i, j)
  {
    if j > 0 {
      RushRuns(s, i, j - 1, max);
      RunOneMore(Rush(s, i, j - 1), Turn(s, 161.0, 161.0, Delivered), Open(max));
      RushOneMore(Run(Rush(s, i, j - 1), Open(max)), s, i, j - 1, max, 161.0);
    } else if i > 0 {
      RushRuns(s, i - 1, 0, max);
      RunOneMore(Rush(s, i - 1, 0), Turn(s, 160.0, 160.0, Delivered), Open(max));
      RushOneMore(Run(Rush(s, i - 1, 0), Open(max)), s, i - 1, 0, max, 160.0);
    } else {
      RunOneMore([], Turn(s, 100.0, 100.0, Failed), Open(max));
      assert [] + [Turn(s, 100.0, 100.0, Failed)] == Rush(s, 0, 0);
    }
  }

  lemma {:induction false} RushInTime(s: Signal, i: nat, j: nat, now: real)
    requires now >= if j > 0 then 161.0 else 160.0
    ensures ClockRuns(Rush(s, i, j), now)
  {
    var ts := Rush(s, i, j);
    if j > 0 {
      RushInTime(s, i, j - 1, 161.0);
      assert ts[..|ts| - 1] == Rush(s, i, j - 1);
    } else if i > 0 {
      RushInTime(s, i - 1, 0, 160.0);
      assert ts[..|ts| - 1] == Rush(s, i - 1, 0);
    } else {
      assert ts[..0] == [];
    }
  }

  lemma {:induction false} AllBetween(log: seq<Record>, lo: real, hi: real)
    requires forall a :: 0 <= a < |log| ==> lo <= log[a].at <= hi
    ensures Between(log, lo, hi) == |log|
  {
    if log != [] {
      AllBetween(log[..|log| - 1], lo, hi);
    }
  }

  /** For every cap a run puts twice as many sends into 60 seconds, even into one. */
  lemma TwiceMaxIsReached(s: Signal, max: nat)
    requires s.code.Some? && s.severity >= 0
    ensures ClockRuns(Rush(s, max, max), 161.0)
    ensures Between(Run(Rush(s, max, max), Open(max)).log, 160.0, 161.0) == 2 * max
    ensures Between(Run(Rush(s, max, max), Open(max)).log, 160.0, 160.0 + 60.0) == 2 * max
  {
    RushRuns(s, max, max, max);
    RushInTime(s, max, max, 161.0);
    AllBetween(Run(Rush(s, max, max), Open(max)).log, 160.0, 161.0);
    AllBetween(Run(Rush(s, max, max), Open(max)).log, 160.0, 220.0);
  }

  // ---------------------------------------------------------------- the object

  class SignalNotifier {
    const config: Config
    const connected: bool
    var sentCache: map<string, real>
    var minuteCount: int
    var minuteStart: real
    var stats: Stats
    /** Every turn taken so far. */
    ghost var turns: seq<Turn>

    constructor (connected: bool, config: Config)
      ensures Valid() && turns == [] && this.config == config && this.connected == connected
    {
      this.config := config;
      this.connected := connected;
      sentCache, minuteCount, minuteStart := map[], 0, 0.0;
      stats := Stats(0, 0, 0, 0);
      turns := [];
    }

    ghost predicate Valid()
      reads this
    {
      Shows(Run(turns, config))
    }

    /** Answers how many were sent; an escaping exception ends the batch at its signal. */
    method ProcessSignals(batch: seq<Turn>) returns (sent: nat, raised: bool)
      requires Valid()
      modifies this
      ensures Valid()
      ensures !connected ==> sent == 0 && !raised && turns == old(turns)
      ensures connected && !raised ==> turns == old(turns) + batch
      ensures connected && raised ==> exists k :: 0 < k <= |batch| && turns == old(turns) + batch[..k]
      ensures sent == stats.sent - old(stats).sent
    {
      sent, raised := 0, false;
      if !connected {
        return;
      }
      for i := 0 to |batch|
        invariant Valid() && !raised
        invariant turns == old(turns) + batch[..i]
        invariant sent == stats.sent - old(stats).sent
      {
        var done;
        done, raised := TakeTurn(batch[i]);
        assert turns == old(turns) + batch[..i + 1];
        if raised {
          return;
        }
        sent := sent + if done then 1 else 0;
      }
      assert batch[..|batch|] == batch;
    }

    method TakeTurn(t: Turn) returns (done: bool, raised: bool)
      requires Valid()
      modifies this
      ensures Valid() && turns == old(turns) + [t]
      ensures raised <==> Run(turns, config).escaped > Run(old(turns), config).escaped
      ensures stats.sent == old(stats).sent + (if done then 1 else 0) && !(done && raised)
    {
      ghost var n := Counted(Run(turns, config));
      TakeParts(Run(turns, config), t, config);
      stats := stats.(processed := stats.processed + 1);
      var notify := ShouldNotify(t.signal, t.checked, n);
      done, raised := FinishTurn(t, notify, Gate(n, t.signal, t.checked, config));
      RunOneMore(turns, t, config);
      turns := turns + [t];
      assert Run(turns, config) == Finish(Gate(n, t.signal, t.checked, config), t, notify);
    }

    /** The fields hold the state `n`. */
    ghost predicate Shows(n: Notifier)
      reads this
    {
      sentCache == n.cache && minuteCount == n.count && minuteStart == n.start && stats == n.stats
    }

    method FinishTurn(t: Turn, notify: bool, ghost m: Notifier) returns (done: bool, raised: bool)
      requires Shows(m)
      modifies this`sentCache, this`minuteCount, this`stats
      ensures Shows(Finish(m, t, notify))
      ensures raised <==> Finish(m, t, notify).escaped > m.escaped
      ensures stats.sent == old(stats).sent + (if done then 1 else 0) && !(done && raised)
    {
      done, raised := false, false;
      if notify {
        match t.outcome {
          case Delivered =>
            sentCache := sentCache[SendKey(t.signal) := t.sent];
            minuteCount := minuteCount + 1;
            stats := stats.(sent := stats.sent + 1);
            done := true;
          case Failed =>
            stats := stats.(errors := stats.errors + 1);
          case Escaped =>
            raised := true;
        }
      } else {
        stats := stats.(filtered := stats.filtered + 1);
      }
    }

    method ShouldNotify(s: Signal, now: real, ghost n: Notifier) returns (ok: bool)
      requires Shows(n)
      modifies this`minuteCount, this`minuteStart
      ensures ok <==> Passes(n, s, now, config)
      ensures Shows(Gate(n, s, now, config))
    {
      if s.severity < config.minSeverity {
        return false;
      }
      if config.directions != [] {
        if s.direction !in config.directions {
          return false;
        }
      }
      var key := CheckKey(s);
      var last := if key in sentCache then sentCache[key] else 0.0;
      if now - last < config.cooldown {
        return false;
      }
      if now - minuteStart > 60.0 {
        minuteCount := 0;
        minuteStart := now;
      }
      ok := minuteCount < config.maxPerMinute;
    }
  }
}
