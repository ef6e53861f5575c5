// Parameter scan and walk-forward analysis of the backtest engine. Dates are
// ordinals; the strategy and the Sharpe ratio are arbitrary functions of what
// they are given.
module WalkForward {
  import opened Common
  import opened SignalMatcher

  datatype Bar = Bar(date: int, open: real, high: real, low: real, close: real, volume: int)

  /** Daily bars per code, in the order the store keeps them. */
  type History = map<string, seq<Bar>>

  type Params = map<string, int>

  type Grid = seq<(string, seq<int>)>

  /** `signals` answers None where signal generation raises. */
  datatype Strategy = Strategy(
    signals: (string, seq<Bar>, Params) -> Option<seq<Signal>>,
    sharpe: seq<real> -> real)

  datatype Report = Report(
    params: Params, start: int, end: int, trades: seq<Trade>,
    totalReturn: real, sharpe: real, failed: bool)

  const CAPITAL: real := 1000000.0
  const MIN_BARS: nat := 20

  // ---------------------------------------------------------------- a single run

  function UpTo(bars: seq<Bar>, last: int): seq<Bar> {
    if bars == [] then []
    else
      var init, b := UpTo(bars[..|bars| - 1], last), bars[|bars| - 1];
      if b.date <= last then init + [b] else init
  }

  /** `fetch_daily_bars`: both end dates are included. */
  function Fetch(bars: seq<Bar>, start: int, end: int): seq<Bar> {
    if bars == [] then []
    else
      var init, b := Fetch(bars[..|bars| - 1], start, end), bars[|bars| - 1];
      if start <= b.date <= end then init + [b] else init
  }

  function BarsOf(h: History, code: string): seq<Bar> {
    if code in h then h[code] else []
  }

  function AllTrades(h: History, st: Strategy, codes: seq<string>, start: int, end: int, params: Params)
    : Option<seq<Trade>>
  {
    if codes == [] then Some([])
    else
      var code := codes[|codes| - 1];
      var init := AllTrades(h, st, codes[..|codes| - 1], start, end, params);
      var bars := Fetch(BarsOf(h, code), start, end);
      if init.None? || |bars| < MIN_BARS then init
      else
        match st.signals(code, bars, params)
        case None => None
        case Some(signals) => Some(init.value + Trades(code, signals, true))
  }

  function Pnls(trades: seq<Trade>): seq<real> {
    seq(|trades|, i requires 0 <= i < |trades| => trades[i].pnl)
  }

  function Total(xs: seq<real>): real {
    if xs == [] then 0.0 else Total(xs[..|xs| - 1]) + xs[|xs| - 1]
  }

  function Run(h: History, st: Strategy, codes: seq<string>, start: int, end: int, params: Params): Report {
    match AllTrades(h, st, codes, start, end, params)
    case None => Report(params, start, end, [], 0.0, 0.0, true)
    case Some(trades) =>
      if trades == [] then Report(params, start, end, [], 0.0, 0.0, false)
      else Report(params, start, end, trades, Total(Pnls(trades)) / CAPITAL * 100.0, st.sharpe(Pnls(trades)), false)
  }

  // ---------------------------------------------------------------- the parameter scan

  /** `itertools.product`: the last position varies fastest. */
  function Product(values: seq<seq<int>>): seq<seq<int>> {
    if values == [] then [[]] else Prefixed(values[0], Product(values[1..]))
  }

  /** Every value in front of every rest, values outermost. */
  function Prefixed(vs: seq<int>, rests: seq<seq<int>>): seq<seq<int>> {
    if vs == [] then []
    else seq(|rests|, i requires 0 <= i < |rests| => [vs[0]] + rests[i]) + Prefixed(vs[1..], rests)
  }

  predicate Combination(c: seq<int>, values: seq<seq<int>>) {
    |c| == |values| && forall k :: 0 <= k < |c| ==> c[k] in values[k]
  }

  lemma {:induction false} PrefixedMembers(vs: seq<int>, rests: seq<seq<int>>, c: seq<int>)
    ensures c in Prefixed(vs, rests) <==> c != [] && c[0] in vs && c[1..] in rests
    ensures |Prefixed(vs, rests)| == |vs| * |rests|
  {
    if vs != [] {
      PrefixedMembers(vs[1..], rests, c);
      var block := seq(|rests|, i requires 0 <= i < |rests| => [vs[0]] + rests[i]);
      assert |vs| * |rests| == |rests| + |vs[1..]| * |rests|;
      if c != [] && c[0] == vs[0] && c[1..] in rests {
        var i :| 0 <= i < |rests| && rests[i] == c[1..];
        assert block[i] == c;
      }
      if c in block {
        var i :| 0 <= i < |block| && block[i] == c;
        assert c[1..] == rests[i];
      }
      assert vs == [vs[0]] + vs[1..];
    }
  }

  function Sizes(values: seq<seq<int>>): nat {
    if values == [] then 1 else |values[0]| * Sizes(values[1..])
  }

  lemma CombinationCons(c: seq<int>, values: seq<seq<int>>)
    requires c != [] && values != []
    ensures Combination(c, values) <==> c[0] in values[0] && Combination(c[1..], values[1..])
  {
    if Combination(c, values) {
      assert forall k :: 0 <= k < |c[1..]| ==> c[1..][k] == c[k + 1] && c[k + 1] in values[k + 1];
    }
    if c[0] in values[0] && Combination(c[1..], values[1..]) {
      assert forall k :: 1 <= k < |c| ==> c[k] == c[1..][k - 1] && values[k] == values[1..][k - 1];
    }
  }

  /** The product lists every combination of the grid, as many as the list lengths multiply to. */
  lemma {:induction false} ProductComplete(values: seq<seq<int>>, c: seq<int>)
    ensures c in Product(values) <==> Combination(c, values)
    ensures |Product(values)| == Sizes(values)
    decreases values
  {
    if values != [] {
      PrefixedMembers(values[0], Product(values[1..]), c);
      if c == [] {
        ProductComplete(values[1..], c);
      } else {
        ProductComplete(values[1..], c[1..]);
        CombinationCons(c, values);
      }
    }
  }

  lemma {:induction false} PrefixedOrder(vs: seq<int>, rests: seq<seq<int>>, i: nat, j: nat)
    requires i < |vs| && j < |rests|
    ensures i * |rests| + j < |Prefixed(vs, rests)|
    ensures Prefixed(vs, rests)[i * |rests| + j] == [vs[i]] + rests[j]
  {
    if i > 0 {
      PrefixedOrder(vs[1..], rests, i - 1, j);
      assert i * |rests| == |rests| + (i - 1) * |rests|;
    }
  }

  /** The product counts like an odometer: the last list turns fastest. */
  lemma {:induction false} ProductOrder(values: seq<seq<int>>, i: nat, j: nat)
    requires values != [] && i < |values[0]| && j < |Product(values[1..])|
    ensures Product([]) == [[]]
    ensures i * |Product(values[1..])| + j < |Product(values)|
    ensures Product(values)[i * |Product(values[1..])| + j] == [values[0][i]] + Product(values[1..])[j]
  {
    PrefixedOrder(values[0], Product(values[1..]), i, j);
  }

  function Keys(grid: Grid): seq<string> {
    seq(|grid|, i requires 0 <= i < |grid| => grid[i].0)
  }

  function Values(grid: Grid): seq<seq<int>> {
    seq(|grid|, i requires 0 <= i < |grid| => grid[i].1)
  }

  /** `dict(zip(keys, combo))`. */
  function Zip(keys: seq<string>, combo: seq<int>): Params {
    if keys == [] || combo == [] then map[]
    else map[keys[0] := combo[0]] + Zip(keys[1..], combo[1..])
  }

  /** One report per combination, in product order. */
  function Reports(h: History, st: Strategy, codes: seq<string>, start: int, end: int, grid: Grid): seq<Report> {
    var combos := Product(Values(grid));
    seq(|combos|, i requires 0 <= i < |combos| => Run(h, st, codes, start, end, Zip(Keys(grid), combos[i])))
  }

  /** Stable insertion into a list sorted by falling Sharpe ratio. */
  function Insert(sorted: seq<Report>, r: Report): seq<Report> {
    if sorted == [] then [r]
    else
      var init, last := sorted[..|sorted| - 1], sorted[|sorted| - 1];
      if last.sharpe >= r.sharpe then sorted + [r] else Insert(init, r) + [last]
  }

  /** `results.sort(key=..., reverse=True)`, which keeps equal entries in their order. */
  function SortBySharpe(rs: seq<Report>): seq<Report> {
    if rs == [] then [] else Insert(SortBySharpe(rs[..|rs| - 1]), rs[|rs| - 1])
  }

  predicate Falling(rs: seq<Report>) {
    forall i, j :: 0 <= i <= j < |rs| ==> rs[i].sharpe >= rs[j].sharpe
  }

  lemma {:induction false} InsertFalls(sorted: seq<Report>, r: Report, floor: real)
    requires Falling(sorted) && floor <= r.sharpe
    requires forall i :: 0 <= i < |sorted| ==> floor <= sorted[i].sharpe
    ensures Falling(Insert(sorted, r))
    ensures forall i :: 0 <= i < |Insert(sorted, r)| ==> floor <= Insert(sorted, r)[i].sharpe
  {
    if sorted != [] {
      var init, last := sorted[..|sorted| - 1], sorted[|sorted| - 1];
      if last.sharpe < r.sharpe {
        InsertFalls(init, r, last.sharpe);
      }
    }
  }

  lemma {:induction false} InsertKeeps(sorted: seq<Report>, r: Report)
    ensures multiset(Insert(sorted, r)) == multiset(sorted) + multiset{r}
  {
    if sorted != [] {
      var init, last := sorted[..|sorted| - 1], sorted[|sorted| - 1];
      assert sorted == init + [last];
      if last.sharpe < r.sharpe {
        InsertKeeps(init, r);
      }
    }
  }

  /** The sort is a permutation with falling Sharpe ratios. */
  lemma {:induction false} SortSorts(rs: seq<Report>)
    ensures Falling(SortBySharpe(rs)) && multiset(SortBySharpe(rs)) == multiset(rs)
  {
    if rs != [] {
      var init, last := rs[..|rs| - 1], rs[|rs| - 1];
      assert rs == init + [last];
      SortSorts(init);
      InsertKeeps(SortBySharpe(init), last);
      var s := SortBySharpe(init);
      InsertFalls(s, last, if s == [] then last.sharpe else Min(last.sharpe, s[|s| - 1].sharpe));
    }
  }

  /** The first entry with the largest Sharpe ratio. */
  ghost predicate FirstBest(rs: seq<Report>, i: nat) {
    && i < |rs|
    && (forall j :: 0 <= j < |rs| ==> rs[j].sharpe <= rs[i].sharpe)
    && (forall j :: 0 <= j < i ==> rs[j].sharpe < rs[i].sharpe)
  }

  lemma {:induction false} InsertHead(sorted: seq<Report>, r: Report)
    requires Falling(sorted)
    ensures Insert(sorted, r) != []
    ensures Insert(sorted, r)[0] == if sorted != [] && sorted[0].sharpe >= r.sharpe then sorted[0] else r
  {
    if sorted != [] {
      var init, last := sorted[..|sorted| - 1], sorted[|sorted| - 1];
      if last.sharpe < r.sharpe {
        InsertHead(init, r);
      }
    }
  }

  lemma FirstBestStep(rs: seq<Report>, i: nat, r: Report)
    requires FirstBest(rs, i)
    ensures FirstBest(rs + [r], if rs[i].sharpe >= r.sharpe then i else |rs|)
  {
  }

  /** The scan's winner is the first maximum in product order. */
  lemma {:induction false} SortHeadIsFirstBest(rs: seq<Report>) returns (i: nat)
    requires rs != []
    ensures FirstBest(rs, i) && SortBySharpe(rs) != [] && SortBySharpe(rs)[0] == rs[i]
  {
    var init, last := rs[..|rs| - 1], rs[|rs| - 1];
    assert rs == init + [last];
    SortSorts(init);
    InsertHead(SortBySharpe(init), last);
    if init == [] {
      i := 0;
    } else {
      i := SortHeadIsFirstBest(init);
      FirstBestStep(init, i, last);
      i := if rs[i].sharpe >= last.sharpe then i else |init|;
    }
  }

  /** `param_scan`. */
  method ParamScan(h: History, st: Strategy, codes: seq<string>, start: int, end: int, grid: Grid)
    returns (results: seq<Report>)
    ensures results == SortBySharpe(Reports(h, st, codes, start, end, grid))
  {
    var combos := Product(Values(grid));
    ghost var all := Reports(h, st, codes, start, end, grid);
    results := [];
    for i := 0 to |combos|
      invariant results == all[..i]
    {
      var report := Run(h, st, codes, start, end, Zip(Keys(grid), combos[i]));
      assert report == all[i];
      results := results + [report];
    }
    assert results == all;
    results := SortBySharpe(results);
  }

  // ---------------------------------------------------------------- windows

  datatype Plan = Plan(start: int, end: int, num: int, ratio: real) {
    /** `total_days // num_windows`, which floors. */
    function Size(): int
      requires num > 0
    {
      (end - start) / num
    }

    function WindowStart(i: nat): int
      requires num > 0
    {
      start + i * Size()
    }

    function WindowEnd(i: nat): int
      requires num > 0
    {
      var e := WindowStart(i) + Size();
      if e > end then end else e
    }

    function Split(i: nat): int
      requires num > 0
    {
      WindowStart(i) + Truncate(Size() as real * ratio)
    }
  }

  /** Python's `int(...)` on a float. */
  function Truncate(x: real): int {
    if x >= 0.0 then x.Floor else -((-x).Floor)
  }

  datatype Window = Window(
    index: nat, inStart: int, inEnd: int, outStart: int, outEnd: int,
    inReturn: real, outReturn: real, inSharpe: real, outSharpe: real,
    bestParams: Params, degradation: real)

  /** The in-sample result whose parameters the window goes on with. */
  function InSample(h: History, st: Strategy, codes: seq<string>, plan: Plan, grid: Grid, i: nat): Report
    requires plan.num > 0
  {
    var from, to := plan.WindowStart(i), plan.Split(i);
    if grid != [] then
      var scan := SortBySharpe(Reports(h, st, codes, from, to, grid));
      if scan != [] then scan[0] else Run(h, st, codes, from, to, map[])
    else Run(h, st, codes, from, to, map[])
  }

  function Degradation(inSharpe: real, outSharpe: real): real {
    if inSharpe != 0.0 then (outSharpe / inSharpe - 1.0) * 100.0 else 0.0
  }

  function OutSample(h: History, st: Strategy, codes: seq<string>, plan: Plan, i: nat, params: Params): Report
    requires plan.num > 0
  {
    Run(h, st, codes, plan.Split(i), plan.WindowEnd(i), params)
  }

  function WindowOf(h: History, st: Strategy, codes: seq<string>, plan: Plan, grid: Grid, i: nat): Window
    requires plan.num > 0
  {
    var inS := InSample(h, st, codes, plan, grid, i);
    var outS := OutSample(h, st, codes, plan, i, inS.params);
    Window(i, plan.WindowStart(i), plan.Split(i), plan.Split(i), plan.WindowEnd(i),
           inS.totalReturn, outS.totalReturn, inS.sharpe, outS.sharpe, inS.params,
           Degradation(inS.sharpe, outS.sharpe))
  }

  method RunInSample(h: History, st: Strategy, codes: seq<string>, plan: Plan, grid: Grid, i: nat)
    returns (r: Report)
    requires plan.num > 0
    ensures r == InSample(h, st, codes, plan, grid, i)
  {
    var from, to := plan.WindowStart(i), plan.Split(i);
    if grid != [] {
      var scan := ParamScan(h, st, codes, from, to, grid);
      if scan != [] {
        return scan[0];
      }
    }
    r := Run(h, st, codes, from, to, map[]);
  }

  /** `walk_forward`; no windows at all is a division by zero. */
  method Analyse(h: History, st: Strategy, codes: seq<string>, plan: Plan, grid: Grid)
    returns (r: Result<seq<Window>>)
    ensures r.Err? <==> plan.num == 0
    ensures r.Ok? ==> |r.value| == if plan.num > 0 then plan.num else 0
    ensures r.Ok? ==> forall i :: 0 <= i < |r.value| ==> r.value[i] == WindowOf(h, st, codes, plan, grid, i)
  {
    if plan.num == 0 {
      return Err("integer division or modulo by zero");
    }
    var results: seq<Window> := [];
    var i := 0;
    while i < plan.num
      invariant 0 <= i && (plan.num > 0 ==> i <= plan.num) && (plan.num < 0 ==> i == 0)
      invariant |results| == i
      invariant forall k :: 0 <= k < i ==> results[k] == WindowOf(h, st, codes, plan, grid, k)
    {
      var inS := RunInSample(h, st, codes, plan, grid, i);
      var outS := OutSample(h, st, codes, plan, i, inS.params);
      results := results + [Window(i, plan.WindowStart(i), plan.Split(i), plan.Split(i), plan.WindowEnd(i),
                                   inS.totalReturn, outS.totalReturn, inS.sharpe, outS.sharpe, inS.params,
                                   Degradation(inS.sharpe, outS.sharpe))];
      i := i + 1;
    }
    r := Ok(results);
  }

  // ---------------------------------------------------------------- no look-ahead

  /** The two histories hold the same bars up to and including `last`. */
  ghost predicate AgreeUpTo(h: History, h': History, last: int) {
    forall code: string :: UpTo(BarsOf(h, code), last) == UpTo(BarsOf(h', code), last)
  }

  lemma {:induction false} FetchReadsUpTo(bars: seq<Bar>, start: int, end: int, last: int)
    requires end <= last
    ensures Fetch(bars, start, end) == Fetch(UpTo(bars, last), start, end)
  {
    if bars != [] {
      var init, b := bars[..|bars| - 1], bars[|bars| - 1];
      FetchReadsUpTo(init, start, end, last);
      if b.date <= last {
        assert UpTo(bars, last)[..|UpTo(init, last)|] == UpTo(init, last);
      }
    }
  }

  lemma {:induction false} TradesReadUpTo(
      h: History, h': History, st: Strategy, codes: seq<string>, start: int, end: int, params: Params)
    requires AgreeUpTo(h, h', end)
    ensures AllTrades(h, st, codes, start, end, params) == AllTrades(h', st, codes, start, end, params)
  {
    if codes != [] {
      var code := codes[|codes| - 1];
      TradesReadUpTo(h, h', st, codes[..|codes| - 1], start, end, params);
      FetchReadsUpTo(BarsOf(h, code), start, end, end);
      FetchReadsUpTo(BarsOf(h', code), start, end, end);
    }
  }

  /** A run sees nothing after its end date. */
  lemma RunReadsUpTo(
      h: History, h': History, st: Strategy, codes: seq<string>, start: int, end: int, params: Params)
    requires AgreeUpTo(h, h', end)
    ensures Run(h, st, codes, start, end, params) == Run(h', st, codes, start, end, params)
  {
    TradesReadUpTo(h, h', st, codes, start, end, params);
  }

  /**
   * No look-ahead: histories that agree up to the split point of a window give
   * it the same in-sample report, hence the same best parameters.
   */
  lemma NoLookAhead(h: History, h': History, st: Strategy, codes: seq<string>, plan: Plan, grid: Grid, i: nat)
    requires plan.num > 0 && AgreeUpTo(h, h', plan.Split(i))
    ensures InSample(h, st, codes, plan, grid, i) == InSample(h', st, codes, plan, grid, i)
    ensures WindowOf(h, st, codes, plan, grid, i).bestParams == WindowOf(h', st, codes, plan, grid, i).bestParams
  {
    var from, to := plan.WindowStart(i), plan.Split(i);
    RunReadsUpTo(h, h', st, codes, from, to, map[]);
    forall params: Params
      ensures Run(h, st, codes, from, to, params) == Run(h', st, codes, from, to, params)
    {
      RunReadsUpTo(h, h', st, codes, from, to, params);
    }
    assert Reports(h, st, codes, from, to, grid) == Reports(h', st, codes, from, to, grid);
  }

  /** The best parameters are the combination of the first report with the largest Sharpe ratio. */
  lemma BestParamsAreFirstMaximum(h: History, st: Strategy, codes: seq<string>, plan: Plan, grid: Grid, i: nat)
    requires plan.num > 0 && grid != [] && Product(Values(grid)) != []
    ensures var reports := Reports(h, st, codes, plan.WindowStart(i), plan.Split(i), grid);
      exists k: nat :: FirstBest(reports, k)
        && WindowOf(h, st, codes, plan, grid, i).bestParams == Zip(Keys(grid), Product(Values(grid))[k])
  {
    var reports := Reports(h, st, codes, plan.WindowStart(i), plan.Split(i), grid);
    var k := SortHeadIsFirstBest(reports);
    assert reports[k].params == Zip(Keys(grid), Product(Values(grid))[k]);
  }

  // ---------------------------------------------------------------- tiling

  lemma WindowFits(plan: Plan, i: nat)
    requires 0 <= i < plan.num && plan.start <= plan.end
    ensures plan.WindowStart(i) + plan.Size() <= plan.end
    ensures plan.Size() >= 0
  {
    var w, n := plan.Size(), plan.num;
    assert w * n <= plan.end - plan.start;
    assert (i + 1) * w <= n * w;
    assert i * w + w == (i + 1) * w;
  }

  lemma TruncateBetween(w: int, ratio: real)
    requires w >= 0 && 0.0 <= ratio <= 1.0
    ensures 0 <= Truncate(w as real * ratio) <= w
  {
    assert 0.0 <= w as real * ratio;
    assert w as real * ratio <= w as real;
  }

  /**
   * The windows tile the period: each out-of-sample end is the next in-sample
   * start, the split lies inside its window, the clamp at the end date never
   * acts, and fewer than `num` days are left over.
   */
  lemma WindowsTile(plan: Plan, i: nat)
    requires 0 <= i < plan.num && plan.start <= plan.end && 0.0 <= plan.ratio <= 1.0
    ensures plan.WindowStart(0) == plan.start
    ensures plan.WindowEnd(i) == plan.WindowStart(i) + plan.Size() == plan.WindowStart(i + 1)
    ensures plan.WindowStart(i) <= plan.Split(i) <= plan.WindowEnd(i) <= plan.end
    ensures i == plan.num - 1 ==> plan.end - plan.WindowEnd(i) < plan.num
  {
    WindowFits(plan, i);
    TruncateBetween(plan.Size(), plan.ratio);
    assert (i + 1) * plan.Size() == i * plan.Size() + plan.Size();
  }

  // ---------------------------------------------------------------- what a report says

  predicate InRange(b: Bar, start: int, end: int) {
    start <= b.date && b.date <= end
  }

  /** `kept` is the bars of the range, each once and in order; the `k`-th of them stands at `at[k]`. */
  ghost predicate KeptAt(bars: seq<Bar>, start: int, end: int, kept: seq<Bar>, at: seq<nat>) {
    && |at| == |kept|
    && (forall k :: 0 <= k < |at| ==> at[k] < |bars| && kept[k] == bars[at[k]])
    && (forall j, k :: 0 <= j < k < |at| ==> at[j] < at[k])
    && (forall i :: 0 <= i < |bars| ==> (InRange(bars[i], start, end) <==> i in at))
  }

  lemma {:induction false} KeepNext(bars: seq<Bar>, start: int, end: int, kept: seq<Bar>, at: seq<nat>)
    requires bars != [] && KeptAt(bars[..|bars| - 1], start, end, kept, at)
    ensures var n := |bars| - 1;
      if InRange(bars[n], start, end) then KeptAt(bars, start, end, kept + [bars[n]], at + [n])
      else KeptAt(bars, start, end, kept, at)
  {
    var n := |bars| - 1;
    assert forall k :: 0 <= k < |at| ==> at[k] != n;
    forall i | 0 <= i < n
      ensures InRange(bars[i], start, end) <==> i in at
    {
      assert bars[..n][i] == bars[i];
    }
  }

  /** `fetch_daily_bars` keeps exactly the bars of the range, each once and in order. */
  lemma {:induction false} FetchExact(bars: seq<Bar>, start: int, end: int) returns (at: seq<nat>)
    ensures KeptAt(bars, start, end, Fetch(bars, start, end), at)
  {
    at := [];
    if bars != [] {
      var n := |bars| - 1;
      var init := FetchExact(bars[..n], start, end);
      KeepNext(bars, start, end, Fetch(bars[..n], start, end), init);
      at := if InRange(bars[n], start, end) then init + [n] else init;
    }
  }

  lemma {:induction false} ZipKeys(keys: seq<string>, combo: seq<int>)
    requires |keys| == |combo|
    ensures forall key :: key in Zip(keys, combo) <==> key in keys
  {
    if keys != [] {
      ZipKeys(keys[1..], combo[1..]);
      assert keys == [keys[0]] + keys[1..];
    }
  }

  /** With distinct keys, each is given the value at its own place. */
  lemma {:induction false} ZipMeans(keys: seq<string>, combo: seq<int>, k: nat)
    requires |keys| == |combo| && k < |keys| && forall i, j :: 0 <= i < j < |keys| ==> keys[i] != keys[j]
    ensures forall key :: key in Zip(keys, combo) <==> key in keys
    ensures Zip(keys, combo)[keys[k]] == combo[k]
  {
    ZipKeys(keys, combo);
    ZipKeys(keys[1..], combo[1..]);
    if k == 0 {
      assert keys[0] !in keys[1..];
    } else {
      ZipMeans(keys[1..], combo[1..], k - 1);
      assert keys[1..][k - 1] == keys[k] && combo[1..][k - 1] == combo[k];
    }
  }

  /** What the strategy does on one code's bars of the range; fewer than twenty bars are passed over. */
  function TradesOn(h: History, st: Strategy, code: string, start: int, end: int, params: Params): Option<seq<Trade>> {
    var bars := Fetch(if code in h then h[code] else [], start, end);
    if |bars| < 20 then Some([])
    else
      var signals := st.signals(code, bars, params);
      if signals.Some? then Some(Trades(code, signals.value, true)) else None
  }

  /** The trades of a run are those of its codes, one code after the other; one that raises fails them all. */
  lemma {:induction false} TradesPerCode(
      h: History, st: Strategy, codes: seq<string>, start: int, end: int, params: Params, i: nat)
    requires i <= |codes|
    ensures AllTrades(h, st, [], start, end, params) == Some([])
    ensures i < |codes| ==>
      var sofar, one := AllTrades(h, st, codes[..i], start, end, params), TradesOn(h, st, codes[i], start, end, params);
      AllTrades(h, st, codes[..i + 1], start, end, params)
        == if sofar.Some? && one.Some? then Some(sofar.value + one.value) else None
  {
    if i < |codes| {
      assert codes[..i + 1][..i] == codes[..i];
      var sofar := AllTrades(h, st, codes[..i], start, end, params);
      if sofar.Some? {
        assert sofar.value + [] == sofar.value;
      }
    }
  }

  /** The figures of a report: return on a million of capital, and the Sharpe ratio of its profits. */
  lemma RunFigures(h: History, st: Strategy, codes: seq<string>, start: int, end: int, params: Params)
    ensures var r, ts := Run(h, st, codes, start, end, params), AllTrades(h, st, codes, start, end, params);
      && r.params == params && r.start == start && r.end == end
      && (r.failed <==> ts.None?)
      && r.trades == (if ts.Some? then ts.value else [])
      && r.totalReturn == PnlTotal(r.trades) / 10000.0
      && (if r.trades == [] then r.sharpe == 0.0
          else exists pnls: seq<real> :: r.sharpe == st.sharpe(pnls) && ProfitsOf(pnls, r.trades))
  {
    var ts := AllTrades(h, st, codes, start, end, params);
    if ts.Some? && ts.value != [] {
      TotalIsPnlTotal(ts.value);
      assert ProfitsOf(Pnls(ts.value), ts.value);
    }
  }

  ghost predicate ProfitsOf(pnls: seq<real>, ts: seq<Trade>) {
    |pnls| == |ts| && forall i :: 0 <= i < |ts| ==> pnls[i] == ts[i].pnl
  }

  lemma {:induction false} TotalIsPnlTotal(ts: seq<Trade>)
    ensures Total(Pnls(ts)) == PnlTotal(ts)
  {
    if ts != [] {
      TotalIsPnlTotal(ts[..|ts| - 1]);
      assert Pnls(ts)[..|ts| - 1] == Pnls(ts[..|ts| - 1]);
    }
  }

  // ---------------------------------------------------------------- what a window says

  lemma DegradationMeans(inSharpe: real, outSharpe: real)
    ensures Degradation(inSharpe, outSharpe)
         == if inSharpe != 0.0 then 100.0 * (outSharpe / inSharpe - 1.0) else 0.0
  {
  }

  /** The days of a window are those of the plan. */
  lemma WindowDays(h: History, st: Strategy, codes: seq<string>, plan: Plan, grid: Grid, i: nat)
    requires plan.num > 0
    ensures var w := WindowOf(h, st, codes, plan, grid, i);
      && w.index == i && w.inStart == plan.WindowStart(i) && w.inEnd == w.outStart == plan.Split(i)
      && w.outEnd == plan.WindowEnd(i)
  {
  }

  lemma TruncateMeans(x: real)
    requires x >= 0.0
    ensures Truncate(x) as real <= x < Truncate(x) as real + 1.0
  {
  }

  /** The split comes after the whole days of the in-sample share of the window. */
  lemma SplitMeans(plan: Plan, i: nat)
    requires plan.num > 0 && plan.Size() as real * plan.ratio >= 0.0
    ensures var days := plan.Split(i) - plan.WindowStart(i);
      days as real <= plan.Size() as real * plan.ratio < days as real + 1.0
  {
    TruncateMeans(plan.Size() as real * plan.ratio);
  }

  /** Its out-of-sample figures are those of a run over its out-of-sample days with its best parameters. */
  lemma WindowFigures(h: History, st: Strategy, codes: seq<string>, plan: Plan, grid: Grid, i: nat)
    requires plan.num > 0
    ensures var w := WindowOf(h, st, codes, plan, grid, i);
      var out := Run(h, st, codes, w.outStart, w.outEnd, w.bestParams);
      && w.outReturn == out.totalReturn && w.outSharpe == out.sharpe
      && w.degradation == if w.inSharpe != 0.0 then 100.0 * (w.outSharpe / w.inSharpe - 1.0) else 0.0
  {
    var w := WindowOf(h, st, codes, plan, grid, i);
    DegradationMeans(w.inSharpe, w.outSharpe);
  }

  ghost predicate TakenFrom(w: Window, r: Report) {
    w.bestParams == r.params && w.inReturn == r.totalReturn && w.inSharpe == r.sharpe
  }

  /**
   * The in-sample half: without a grid, or with an empty product, a plain run;
   * otherwise the first report with the largest Sharpe ratio.
   */
  lemma InSampleFigures(h: History, st: Strategy, codes: seq<string>, plan: Plan, grid: Grid, i: nat)
    requires plan.num > 0
    ensures var w := WindowOf(h, st, codes, plan, grid, i);
      var reports := Reports(h, st, codes, w.inStart, w.inEnd, grid);
      if grid == [] || reports == [] then
        var r := Run(h, st, codes, w.inStart, w.inEnd, map[]);
        r.params == map[] && TakenFrom(w, r)
      else exists k: nat :: FirstBest(reports, k) && TakenFrom(w, reports[k])
  {
    var w := WindowOf(h, st, codes, plan, grid, i);
    var reports := Reports(h, st, codes, w.inStart, w.inEnd, grid);
    SortSorts(reports);
    if grid != [] && reports != [] {
      var k := SortHeadIsFirstBest(reports);
    } else {
      assert reports == [] ==> SortBySharpe(reports) == [];
    }
  }

  /** The two histories hold the same bars of the range. */
  ghost predicate AgreeWithin(h: History, h': History, start: int, end: int) {
    forall code: string :: Fetch(BarsOf(h, code), start, end) == Fetch(BarsOf(h', code), start, end)
  }

  lemma {:induction false} TradesReadWithin(
      h: History, h': History, st: Strategy, codes: seq<string>, start: int, end: int, params: Params)
    requires AgreeWithin(h, h', start, end)
    ensures AllTrades(h, st, codes, start, end, params) == AllTrades(h', st, codes, start, end, params)
  {
    if codes != [] {
      TradesReadWithin(h, h', st, codes[..|codes| - 1], start, end, params);
    }
  }

  /**
   * The out-of-sample figures read only the bars from the split to the window's
   * end: histories that agree there, and give the window the same best
   * parameters, give it the same figures.
   */
  lemma OutSampleReadsItsBars(
      h: History, h': History, st: Strategy, codes: seq<string>, plan: Plan, grid: Grid, i: nat)
    requires plan.num > 0
    requires var w := WindowOf(h, st, codes, plan, grid, i);
      && AgreeWithin(h, h', w.inEnd, w.outEnd)
      && w.bestParams == WindowOf(h', st, codes, plan, grid, i).bestParams
    ensures var w, w' := WindowOf(h, st, codes, plan, grid, i), WindowOf(h', st, codes, plan, grid, i);
      w.outReturn == w'.outReturn && w.outSharpe == w'.outSharpe
  {
    var w := WindowOf(h, st, codes, plan, grid, i);
    WindowFigures(h, st, codes, plan, grid, i);
    WindowFigures(h', st, codes, plan, grid, i);
    TradesReadWithin(h, h', st, codes, w.outStart, w.outEnd, w.bestParams);
  }

  /** The windows follow one another: each starts where the one before it ends. */
  lemma WindowsFollow(h: History, st: Strategy, codes: seq<string>, plan: Plan, grid: Grid, i: nat)
    requires i + 1 < plan.num && plan.start <= plan.end && 0.0 <= plan.ratio <= 1.0
    ensures var w, next := WindowOf(h, st, codes, plan, grid, i), WindowOf(h, st, codes, plan, grid, i + 1);
      w.inStart <= w.inEnd == w.outStart <= w.outEnd == next.inStart && next.outEnd <= plan.end
  {
    WindowsTile(plan, i);
    WindowsTile(plan, i + 1);
  }
}
