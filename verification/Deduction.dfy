// The moving-average "deduction" forecast: the indicator's offset and the
// screener's score, both read as statements about the next moving average.
module Deduction {
  import opened Common

  /** The sum of `xs[lo..hi]`. */
  function WindowSum(xs: seq<real>, lo: nat, hi: nat): real
    requires lo <= hi <= |xs|
  {
    if lo == hi then 0.0 else WindowSum(xs, lo, hi - 1) + xs[hi - 1]
  }

  /** The simple moving average at `t`, which needs `p` bars. */
  function Sma(xs: seq<real>, t: nat, p: nat): real
    requires 0 < p <= t + 1 <= |xs|
  {
    WindowSum(xs, t + 1 - p, t + 1) / (p as real)
  }

  /** `moving_average(series, period)` with the default type. */
  function MovingAverage(xs: seq<real>, p: nat): seq<Option<real>>
    requires p > 0
  {
    seq(|xs|, t requires 0 <= t < |xs| => if t + 1 >= p then Some(Sma(xs, t, p)) else None)
  }

  /** `deduction_offset`: today's close less the close `p` bars back. */
  function DeductionOffset(xs: seq<real>, p: nat): seq<Option<real>> {
    seq(|xs|, t requires 0 <= t < |xs| => if t >= p then Some(xs[t] - xs[t - p]) else None)
  }

  lemma {:induction false} WindowHead(xs: seq<real>, lo: nat, hi: nat)
    requires lo < hi <= |xs|
    ensures WindowSum(xs, lo, hi) == xs[lo] + WindowSum(xs, lo + 1, hi)
    decreases hi
  {
    if lo + 1 < hi {
      WindowHead(xs, lo, hi - 1);
    }
  }

  lemma QuotientDifference(a: real, b: real, c: real)
    requires c > 0.0
    ensures c * (a / c - b / c) == a - b
    ensures a / c > b / c <==> a > b
  {
    var x, y := a / c, b / c;
    assert c * x == a && c * y == b;
    assert c * (x - y) == c * x - c * y;
  }

  /** Deduction: wherever both averages exist, the offset is `p` times the step of the moving average. */
  lemma OffsetIsScaledStep(xs: seq<real>, p: nat, t: nat)
    requires p > 0 && t < |xs|
    ensures var offset := DeductionOffset(xs, p)[t];
      && (offset.Some? <==> t >= 1 && MovingAverage(xs, p)[t - 1].Some?)
      && (offset.Some? ==>
            offset.value == (p as real) * (MovingAverage(xs, p)[t].value - MovingAverage(xs, p)[t - 1].value))
  {
    if t >= p {
      WindowHead(xs, t - p, t + 1);
      assert WindowSum(xs, t - p, t + 1) == WindowSum(xs, t - p, t) + xs[t];
      QuotientDifference(WindowSum(xs, t + 1 - p, t + 1), WindowSum(xs, t - p, t), p as real);
    }
  }

  /** The `p`-bar average would rise if the next close repeated the last one. */
  ghost predicate WouldRise(xs: seq<real>, p: nat)
    requires 0 < p <= |xs|
  {
    var next := xs + [xs[|xs| - 1]];
    Sma(next, |xs|, p) > Sma(next, |xs| - 1, p)
  }

  /** The screener's comparison with the close `p - 1` bars back decides exactly that. */
  lemma UpExactlyWhenWouldRise(xs: seq<real>, p: nat)
    requires 0 < p <= |xs|
    ensures xs[|xs| - 1] > xs[|xs| - p] <==> WouldRise(xs, p)
  {
    var n := |xs|;
    var next := xs + [xs[n - 1]];
    WindowHead(next, n - p, n + 1);
    assert WindowSum(next, n - p, n + 1) == WindowSum(next, n - p, n) + next[n];
    QuotientDifference(WindowSum(next, n + 1 - p, n + 1), WindowSum(next, n - p, n), p as real);
  }

  datatype Direction = NoData | AllRising | AllFalling | Mixed

  const WEIGHTS: seq<(nat, int)> := [(8, 4), (21, 3), (55, 3)]

  /** The points a period earns: its weight if its average would rise. */
  ghost function Points(xs: seq<real>, p: nat, weight: int): int
    requires 0 < p <= |xs|
  {
    if WouldRise(xs, p) then weight else 0
  }

  /** `_score_deduction`. */
  method ScoreDeduction(closes: seq<real>) returns (score: int, direction: Direction)
    ensures |closes| < 56 ==> score == 0 && direction == NoData
    ensures |closes| >= 56 ==>
      && score == Points(closes, 8, 4) + Points(closes, 21, 3) + Points(closes, 55, 3)
      && (direction == AllRising <==> WouldRise(closes, 8) && WouldRise(closes, 21) && WouldRise(closes, 55))
      && (direction == AllFalling <==> !WouldRise(closes, 8) && !WouldRise(closes, 21) && !WouldRise(closes, 55))
      && direction != NoData
  {
    if |closes| < 56 {
      return 0, NoData;
    }
    var current := closes[|closes| - 1];
    var ups, downs := 0, 0;
    score := 0;
    ghost var rises := seq(3, i requires 0 <= i < 3 => WouldRise(closes, WEIGHTS[i].0));
    for i := 0 to |WEIGHTS|
      invariant score == (if i > 0 && rises[0] then 4 else 0) + (if i > 1 && rises[1] then 3 else 0)
        + (if i > 2 && rises[2] then 3 else 0)
      invariant ups == (if i > 0 && rises[0] then 1 else 0) + (if i > 1 && rises[1] then 1 else 0)
        + (if i > 2 && rises[2] then 1 else 0)
      invariant ups + downs == i
    {
      var (period, points) := WEIGHTS[i];
      if |closes| > period {
        UpExactlyWhenWouldRise(closes, period);
        if current > closes[|closes| - period] {
          score := score + points;
          ups := ups + 1;
        } else {
          downs := downs + 1;
        }
      }
    }
    direction := if ups == 3 then AllRising else if downs == 3 then AllFalling else Mixed;
    score := if score > 10 then 10 else score;
  }
}
