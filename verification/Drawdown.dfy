// Maximum drawdown three ways: the two-pass running maximum of the backtest, the
// one-pass peak of the Monte Carlo path, and the largest fall between two points.
module Drawdown {
  import opened Common
  import MonteCarlo

  /** `numpy.cumsum`. */
  function CumSum(xs: seq<real>): (r: seq<real>)
    ensures |r| == |xs|
  {
    if xs == [] then []
    else
      var init := CumSum(xs[..|xs| - 1]);
      init + [(if init == [] then 0.0 else init[|init| - 1]) + xs[|xs| - 1]]
  }

  /** The running maximum at `j`. */
  function PeakAt(e: seq<real>, j: nat): real
    requires j < |e|
  {
    if j == 0 then e[0] else Max(PeakAt(e, j - 1), e[j])
  }

  lemma {:induction false} PeakAtBounds(e: seq<real>, i: nat, j: nat)
    requires i <= j < |e|
    ensures e[i] <= PeakAt(e, i) <= PeakAt(e, j)
  {
    if i < j {
      PeakAtBounds(e, i, j - 1);
    }
  }

  lemma {:induction false} PeakAtReached(e: seq<real>, j: nat) returns (i: nat)
    requires j < |e|
    ensures i <= j && PeakAt(e, j) == e[i]
  {
    if j == 0 || PeakAt(e, j) == e[j] {
      i := j;
    } else {
      i := PeakAtReached(e, j - 1);
    }
  }

  lemma {:induction false} PeakAtPrefix(e: seq<real>, n: nat, j: nat)
    requires j < n <= |e|
    ensures PeakAt(e[..n], j) == PeakAt(e, j)
  {
    if j > 0 {
      PeakAtPrefix(e, n, j - 1);
    }
  }

  /** `numpy.maximum.accumulate`. */
  function RunningMax(e: seq<real>): seq<real> {
    seq(|e|, j requires 0 <= j < |e| => PeakAt(e, j))
  }

  /** `(peak - equity) / peak`, for a curve that starts above zero. */
  function Drops(e: seq<real>): seq<real>
    requires e != [] && e[0] > 0.0
  {
    var peak := RunningMax(e);
    seq(|e|, j requires 0 <= j < |e| => PeakAtBounds(e, 0, j); Fall(peak[j], e[j]))
  }

  function Largest(xs: seq<real>): (m: real)
    requires xs != []
    ensures forall i :: 0 <= i < |xs| ==> xs[i] <= m
    ensures exists i :: 0 <= i < |xs| && xs[i] == m
  {
    if |xs| == 1 then xs[0]
    else
      var init := xs[..|xs| - 1];
      var m := Max(Largest(init), xs[|xs| - 1]);
      assert forall i :: 0 <= i < |init| ==> xs[i] == init[i];
      m
  }

  function Curve(initial: real, pnls: seq<real>): (e: seq<real>)
    ensures |e| == |pnls| + 1
  {
    CumSum([initial] + pnls)
  }

  /** The backtest's maximum drawdown, as a fraction. */
  function TwoPass(initial: real, pnls: seq<real>): real
    requires initial > 0.0
  {
    CurveIsRaw(initial, pnls, 0);
    Largest(Drops(Curve(initial, pnls)))
  }

  /** `d` is the largest relative fall from a positive point to a later one. */
  ghost predicate IsMaxFall(e: seq<real>, d: real) {
    && (exists i, j :: 0 <= i <= j < |e| && e[i] > 0.0 && d == Fall(e[i], e[j]))
    && (forall i, j :: 0 <= i <= j < |e| && e[i] > 0.0 ==> Fall(e[i], e[j]) <= d)
  }

  lemma {:induction false} CurveIsRaw(initial: real, pnls: seq<real>, k: nat)
    requires k <= |pnls|
    ensures Curve(initial, pnls)[k] == MonteCarlo.Raw(initial, pnls[..k])
  {
    var xs := [initial] + pnls;
    if pnls == [] {
      assert xs[..0] == [];
    } else {
      var init := pnls[..|pnls| - 1];
      assert xs[..|xs| - 1] == [initial] + init;
      if k < |pnls| {
        CurveIsRaw(initial, init, k);
        assert init[..k] == pnls[..k];
      } else {
        CurveIsRaw(initial, init, |init|);
        assert init[..|init|] == init && pnls[..k] == pnls;
      }
    }
  }

  lemma TimesOrder(a: real, x: real, y: real)
    requires a > 0.0
    ensures x < y <==> a * x < a * y
  {
  }

  lemma FallLeaves(peak: real, value: real)
    requires peak > 0.0
    ensures peak * (1.0 - Fall(peak, value)) == value
  {
    var x := Fall(peak, value);
    assert peak * x == peak - value;
    assert peak * (1.0 - x) == peak - peak * x;
  }

  lemma LargerBaseSmallerShare(a: real, m: real, e: real, x: real, y: real)
    requires 0.0 < a <= m && e >= 0.0 && a * x == e && m * y == e
    ensures y <= x
  {
    if y < 0.0 {
      assert m * y < 0.0;
    }
    assert (m - a) * y >= 0.0;
    assert m * y - a * y == (m - a) * y;
    TimesOrder(a, x, y);
  }

  lemma FallMonotone(a: real, m: real, e: real)
    requires 0.0 < a <= m && e >= 0.0
    ensures Fall(a, e) <= Fall(m, e)
  {
    FallLeaves(a, e);
    FallLeaves(m, e);
    LargerBaseSmallerShare(a, m, e, 1.0 - Fall(a, e), 1.0 - Fall(m, e));
  }

  /** On a curve that never goes below zero, the two passes find the largest fall. */
  lemma TwoPassIsMaxFall(e: seq<real>)
    requires e != [] && e[0] > 0.0
    requires forall j :: 0 <= j < |e| ==> e[j] >= 0.0
    ensures IsMaxFall(e, Largest(Drops(e)))
  {
    var d := Largest(Drops(e));
    forall i, j | 0 <= i <= j < |e| && e[i] > 0.0
      ensures Fall(e[i], e[j]) <= d
    {
      PeakAtBounds(e, i, j);
      FallMonotone(e[i], PeakAt(e, j), e[j]);
      assert Drops(e)[j] == Fall(PeakAt(e, j), e[j]);
    }
    var j :| 0 <= j < |e| && Drops(e)[j] == d;
    var i := PeakAtReached(e, j);
    PeakAtBounds(e, 0, j);
    assert d == Fall(e[i], e[j]);
  }

  lemma MaxFallUnique(e: seq<real>, d: real, d': real)
    requires IsMaxFall(e, d) && IsMaxFall(e, d')
    ensures d == d'
  {
  }

  lemma {:induction false} DropsPrefix(e: seq<real>)
    requires |e| >= 2 && e[0] > 0.0
    ensures Drops(e)[..|e| - 1] == Drops(e[..|e| - 1])
  {
    var n := |e| - 1;
    forall j | 0 <= j < n
      ensures PeakAt(e, j) == PeakAt(e[..n], j)
    {
      PeakAtPrefix(e, n, j);
    }
  }

  lemma {:induction false} LargestStep(xs: seq<real>)
    requires |xs| >= 2
    ensures Largest(xs) == Max(Largest(xs[..|xs| - 1]), xs[|xs| - 1])
  {
  }

  lemma {:induction false} PeakStep(e: seq<real>)
    requires |e| >= 2 && e[0] > 0.0
    ensures var n := |e| - 1; PeakAt(e, n) == Max(PeakAt(e[..n], n - 1), e[n]) && PeakAt(e, n) > 0.0
  {
    var n := |e| - 1;
    PeakAtBounds(e, 0, n);
    PeakAtPrefix(e, n, n - 1);
  }

  lemma {:induction false} LastDrop(e: seq<real>)
    requires e != [] && e[0] > 0.0 && PeakAt(e, |e| - 1) > 0.0
    ensures Drops(e)[|e| - 1] == Fall(PeakAt(e, |e| - 1), e[|e| - 1])
  {
  }

  lemma {:induction false} LargestDropStep(e: seq<real>, ds: seq<real>)
    requires |e| >= 2 && e[0] > 0.0 && PeakAt(e, |e| - 1) > 0.0 && ds == Drops(e)
    ensures Largest(ds) == Max(Largest(Drops(e[..|e| - 1])), Fall(PeakAt(e, |e| - 1), e[|e| - 1]))
  {
    var n := |e| - 1;
    LastDrop(e);
    DropsPrefix(e);
    LargestStep(ds);
    assert ds[..n] == Drops(e[..n]) && ds[n] == Fall(PeakAt(e, n), e[n]);
  }

  lemma {:induction false} TwoPassStep(e: seq<real>)
    requires |e| >= 2 && e[0] > 0.0
    ensures var n := |e| - 1;
      && PeakAt(e, n) == Max(PeakAt(e[..n], n - 1), e[n]) && PeakAt(e, n) > 0.0
      && Largest(Drops(e)) == Max(Largest(Drops(e[..n])), Fall(PeakAt(e, n), e[n]))
  {
    PeakStep(e);
    LargestDropStep(e, Drops(e));
  }

  lemma {:induction false} OnePassIsTwoPass(initial: real, pnls: seq<real>)
    requires initial > 0.0 && !MonteCarlo.Ruined(initial, pnls)
    ensures MonteCarlo.MaxDrawdown(initial, pnls) == TwoPass(initial, pnls)
    ensures MonteCarlo.Peak(initial, pnls) == PeakAt(Curve(initial, pnls), |pnls|)
  {
    var e := Curve(initial, pnls);
    CurveIsRaw(initial, pnls, 0);
    if pnls == [] {
      assert e == [initial];
      assert Drops(e) == [0.0];
    } else {
      var n := |pnls|;
      var init := pnls[..n - 1];
      MonteCarlo.RuinedStep(initial, pnls);
      OnePassIsTwoPass(initial, init);
      MonteCarlo.SolventPathIsRaw(initial, pnls);
      CurveIsRaw(initial, pnls, n);
      assert pnls[..n] == pnls;
      assert e[..n] == Curve(initial, init) by {
        assert ([initial] + pnls)[..n] == [initial] + init;
      }
      TwoPassStep(e);
    }
  }

  /**
   * While the running equity stays non-negative, the backtest's drawdown, the
   * Monte Carlo path's drawdown on the same list and the largest fall agree.
   */
  lemma DrawdownAgreement(initial: real, pnls: seq<real>, d: real)
    requires initial > 0.0
    requires forall k :: 0 <= k <= |pnls| ==> MonteCarlo.Raw(initial, pnls[..k]) >= 0.0
    ensures MonteCarlo.MaxDrawdown(initial, pnls) == TwoPass(initial, pnls)
    ensures IsMaxFall(Curve(initial, pnls), d) <==> d == TwoPass(initial, pnls)
  {
    var e := Curve(initial, pnls);
    OnePassIsTwoPass(initial, pnls);
    forall k | 0 <= k < |e|
      ensures e[k] >= 0.0
    {
      CurveIsRaw(initial, pnls, k);
    }
    CurveIsRaw(initial, pnls, 0);
    TwoPassIsMaxFall(e);
    if IsMaxFall(e, d) {
      MaxFallUnique(e, d, TwoPass(initial, pnls));
    }
  }

  /** The backtest's figure passes 1 on the same paths as the Monte Carlo one. */
  lemma TwoPassAboveOneIffRuined(initial: real, pnls: seq<real>)
    requires initial > 0.0
    ensures TwoPass(initial, pnls) > 1.0 <==> MonteCarlo.Ruined(initial, pnls)
  {
    var e := Curve(initial, pnls);
    forall j | 0 <= j < |e|
      ensures e[j] == MonteCarlo.Raw(initial, pnls[..j])
      ensures e[0] > 0.0 ==> (Drops(e)[j] > 1.0 <==> e[j] < 0.0)
    {
      CurveIsRaw(initial, pnls, 0);
      CurveIsRaw(initial, pnls, j);
      PeakAtBounds(e, 0, j);
      MonteCarlo.QuotientAboveOne(PeakAt(e, j) - e[j], PeakAt(e, j));
    }
    if MonteCarlo.Ruined(initial, pnls) {
      var k :| 1 <= k <= |pnls| && MonteCarlo.Raw(initial, pnls[..k]) < 0.0;
      assert Drops(e)[k] > 1.0;
    }
  }

  /** On every path the two figures agree, or both say that more than everything was lost. */
  lemma DrawdownsDifferOnlyInRuin(initial: real, pnls: seq<real>)
    requires initial > 0.0
    ensures var one, two := MonteCarlo.MaxDrawdown(initial, pnls), TwoPass(initial, pnls);
      one == two || (one > 1.0 && two > 1.0)
  {
    if MonteCarlo.Ruined(initial, pnls) {
      MonteCarlo.DrawdownAboveOneIffRuined(initial, pnls);
      TwoPassAboveOneIffRuined(initial, pnls);
    } else {
      OnePassIsTwoPass(initial, pnls);
    }
  }

  // ---------------------------------------------------------------- the parametric path

  /** The equity after each of the outcomes, the start included. */
  function WalkCurve(outcomes: seq<bool>, p: MonteCarlo.Params): (e: seq<real>)
    ensures |e| == |outcomes| + 1
  {
    seq(|outcomes| + 1, k requires 0 <= k <= |outcomes| => MonteCarlo.ParamWalk(outcomes[..k], p).equity)
  }

  lemma {:induction false} WalkCurveOneMore(outcomes: seq<bool>, p: MonteCarlo.Params)
    requires outcomes != []
    ensures var n := |outcomes|;
      && WalkCurve(outcomes, p)[..n] == WalkCurve(outcomes[..n - 1], p)
      && WalkCurve(outcomes, p)[n] == MonteCarlo.ParamWalk(outcomes, p).equity
  {
    var n := |outcomes|;
    assert outcomes[..n] == outcomes;
    forall k | 0 <= k < n
      ensures WalkCurve(outcomes, p)[k] == WalkCurve(outcomes[..n - 1], p)[k]
    {
      assert outcomes[..n - 1][..k] == outcomes[..k];
    }
  }

  /** The loop's peak is the running maximum of its curve, and its drawdown the largest fall from it. */
  lemma {:induction false} WalkIsTwoPass(outcomes: seq<bool>, p: MonteCarlo.Params)
    requires MonteCarlo.Tradable(p)
    ensures var w, e := MonteCarlo.ParamWalk(outcomes, p), WalkCurve(outcomes, p);
      && e[0] == p.capital && w.peak == PeakAt(e, |outcomes|) && w.maxDrawdown == Largest(Drops(e))
  {
    var e := WalkCurve(outcomes, p);
    if outcomes == [] {
      assert e == [p.capital];
      assert Drops(e) == [0.0];
    } else {
      var n := |outcomes|;
      var init := outcomes[..n - 1];
      WalkIsTwoPass(init, p);
      MonteCarlo.NeverBroke(init, p);
      MonteCarlo.NeverBroke(outcomes, p);
      WalkCurveOneMore(outcomes, p);
      assert e[0] == e[..n][0];
      TwoPassStep(e);
    }
  }

  /** The parametric path reports the largest fall of its own equity curve. */
  lemma {:induction false} WalkDrawdownIsMaxFall(outcomes: seq<bool>, p: MonteCarlo.Params)
    requires MonteCarlo.Tradable(p)
    ensures IsMaxFall(WalkCurve(outcomes, p), MonteCarlo.ParamWalk(outcomes, p).maxDrawdown)
  {
    var e := WalkCurve(outcomes, p);
    WalkIsTwoPass(outcomes, p);
    forall k | 0 <= k <= |outcomes|
      ensures e[k] >= 0.0
    {
      MonteCarlo.NeverBroke(outcomes[..k], p);
    }
    TwoPassIsMaxFall(e);
  }

  // ---------------------------------------------------------------- in ruin

  /** The two falls measured after the same trade: the one-pass peak is no lower and the fall from it no deeper. */
  lemma FallCompare(m: real, v: real, m': real, v': real)
    requires m' >= m > 0.0 && 0.0 <= m' - v' <= m - v
    ensures Fall(m', v') <= Fall(m, v)
    ensures Fall(m', v') == Fall(m, v) && Fall(m, v) > 0.0 ==> m' == m && v' == v
  {
    Quotients(m - v, m, m' - v', m', Fall(m, v), Fall(m', v'));
  }

  lemma Quotients(h: real, m: real, g: real, m': real, y: real, x: real)
    requires m' >= m > 0.0 && 0.0 <= g <= h && x * m' == g && y * m == h
    ensures x <= y
    ensures x == y && y > 0.0 ==> m' == m && g == h
  {
    TimesOrder(m', x, 0.0);
    assert x * (m' - m) >= 0.0;
    assert x * m' - x * m == x * (m' - m);
    TimesOrder(m, y, x);
    if x > 0.0 {
      TimesOrder(x, m, m');
    }
  }

  lemma CurvePrefix(initial: real, pnls: seq<real>, j: nat)
    requires j <= |pnls|
    ensures Curve(initial, pnls)[..j + 1] == Curve(initial, pnls[..j])
  {
    forall k | 0 <= k <= j
      ensures Curve(initial, pnls)[k] == Curve(initial, pnls[..j])[k]
    {
      CurveIsRaw(initial, pnls, k);
      CurveIsRaw(initial, pnls[..j], k);
      assert pnls[..j][..k] == pnls[..k];
    }
  }

  /** What the last trade adds to each of the curves. */
  lemma CurveStep(initial: real, pnls: seq<real>)
    requires pnls != [] && initial > 0.0
    ensures var n, e, e' := |pnls|, Curve(initial, pnls), Curve(initial, pnls[..|pnls| - 1]);
      && e[n] == MonteCarlo.Raw(initial, pnls) && e[0] == e'[0] == initial
      && PeakAt(e, n) == Max(PeakAt(e', n - 1), e[n]) && PeakAt(e, n) > 0.0
      && TwoPass(initial, pnls) == Max(TwoPass(initial, pnls[..n - 1]), Fall(PeakAt(e, n), e[n]))
  {
    var n := |pnls|;
    assert pnls[..n] == pnls;
    CurveIsRaw(initial, pnls, n);
    CurveIsRaw(initial, pnls, 0);
    CurveIsRaw(initial, pnls[..n - 1], 0);
    CurvePrefix(initial, pnls, n - 1);
    TwoPassStep(Curve(initial, pnls));
  }

  lemma {:induction false} OnePassAbove(initial: real, pnls: seq<real>)
    requires initial > 0.0
    ensures var peak := PeakAt(Curve(initial, pnls), |pnls|);
      && MonteCarlo.Peak(initial, pnls) >= peak > 0.0
      && MonteCarlo.Clamped(initial, pnls) >= MonteCarlo.Raw(initial, pnls)
      && MonteCarlo.Peak(initial, pnls) - MonteCarlo.Clamped(initial, pnls) <= peak - MonteCarlo.Raw(initial, pnls)
    ensures pnls != [] ==>
      var peak, candidate := MonteCarlo.Peak(initial, pnls), MonteCarlo.Candidate(initial, pnls);
      0.0 <= peak - candidate <= PeakAt(Curve(initial, pnls), |pnls|) - MonteCarlo.Raw(initial, pnls)
  {
    if pnls == [] {
      CurveIsRaw(initial, pnls, 0);
    } else {
      OnePassAbove(initial, pnls[..|pnls| - 1]);
      CurveStep(initial, pnls);
    }
  }

  lemma {:induction false} OnlySolventIsRaw(initial: real, pnls: seq<real>)
    requires initial > 0.0 && MonteCarlo.Clamped(initial, pnls) == MonteCarlo.Raw(initial, pnls)
    ensures !MonteCarlo.Ruined(initial, pnls)
  {
    if pnls != [] {
      MonteCarlo.ReflectionLaw(initial, pnls);
    }
  }

  /** The falls after the last trade: the one-pass fall is no deeper, and as deep only if ruin had not come before. */
  lemma LastFalls(initial: real, pnls: seq<real>)
    requires initial > 0.0 && pnls != []
    ensures var n, e := |pnls|, Curve(initial, pnls);
      var one := MonteCarlo.Drop(MonteCarlo.Peak(initial, pnls), MonteCarlo.Candidate(initial, pnls));
      && PeakAt(e, n) > 0.0
      && one <= Fall(PeakAt(e, n), e[n])
      && (one == Fall(PeakAt(e, n), e[n]) && one > 0.0 ==> !MonteCarlo.Ruined(initial, pnls[..n - 1]))
      && (!MonteCarlo.Ruined(initial, pnls[..n - 1]) ==> one == Fall(PeakAt(e, n), e[n]))
  {
    var n, e := |pnls|, Curve(initial, pnls);
    var init := pnls[..n - 1];
    var one := MonteCarlo.Drop(MonteCarlo.Peak(initial, pnls), MonteCarlo.Candidate(initial, pnls));
    OnePassAbove(initial, pnls);
    CurveStep(initial, pnls);
    FallCompare(PeakAt(e, n), e[n], MonteCarlo.Peak(initial, pnls), MonteCarlo.Candidate(initial, pnls));
    if one == Fall(PeakAt(e, n), e[n]) && one > 0.0 {
      OnlySolventIsRaw(initial, init);
    }
    if !MonteCarlo.Ruined(initial, init) {
      OnePassIsTwoPass(initial, init);
      MonteCarlo.SolventPathIsRaw(initial, init);
    }
  }

  /** On every path the Monte Carlo figure is at most the backtest's. */
  lemma {:induction false} OnePassAtMostTwoPass(initial: real, pnls: seq<real>)
    requires initial > 0.0
    ensures 0.0 <= MonteCarlo.MaxDrawdown(initial, pnls) <= TwoPass(initial, pnls)
  {
    if pnls == [] {
      OnePassIsTwoPass(initial, pnls);
    } else {
      OnePassAtMostTwoPass(initial, pnls[..|pnls| - 1]);
      CurveStep(initial, pnls);
      LastFalls(initial, pnls);
    }
  }

  lemma {:induction false} DrawdownGrows(initial: real, pnls: seq<real>, j: nat)
    requires j <= |pnls|
    ensures MonteCarlo.MaxDrawdown(initial, pnls[..j]) <= MonteCarlo.MaxDrawdown(initial, pnls)
  {
    if j == |pnls| {
      assert pnls[..j] == pnls;
    } else {
      var init := pnls[..|pnls| - 1];
      DrawdownGrows(initial, init, j);
      assert init[..j] == pnls[..j];
    }
  }

  /** The trade after which the one-pass figure was reached; 0 is the start. */
  lemma {:induction false} OnePassReached(initial: real, pnls: seq<real>) returns (j: nat)
    ensures j <= |pnls|
    ensures j == 0 ==> MonteCarlo.MaxDrawdown(initial, pnls) == 0.0
    ensures j > 0 ==>
      MonteCarlo.MaxDrawdown(initial, pnls) == OnePassDrop(initial, pnls, j)
  {
    j := 0;
    if pnls != [] {
      var n := |pnls|;
      var init := pnls[..n - 1];
      assert pnls[..n] == pnls;
      j := OnePassReached(initial, init);
      assert init[..j] == pnls[..j];
      if MonteCarlo.MaxDrawdown(initial, pnls) != MonteCarlo.MaxDrawdown(initial, init) {
        j := n;
      }
    }
  }

  /** The backtest's fall after `j` trades, on the path and on its prefix. */
  lemma DropOfPrefix(initial: real, pnls: seq<real>, j: nat)
    requires initial > 0.0 && j <= |pnls|
    ensures var e, e' := Curve(initial, pnls), Curve(initial, pnls[..j]);
      && e[0] == initial && PeakAt(e', j) > 0.0
      && Drops(e)[j] == Fall(PeakAt(e', j), e'[j]) && Drops(e)[j] <= TwoPass(initial, pnls)
  {
    var e := Curve(initial, pnls);
    CurveIsRaw(initial, pnls, 0);
    CurvePrefix(initial, pnls, j);
    PeakAtPrefix(e, j + 1, j);
    PeakAtBounds(e, 0, j);
  }

  /** The one-pass fall after `j` trades. */
  function OnePassDrop(initial: real, pnls: seq<real>, j: nat): real
    requires 0 < j <= |pnls|
  {
    MonteCarlo.Drop(MonteCarlo.Peak(initial, pnls[..j]), MonteCarlo.Candidate(initial, pnls[..j]))
  }

  /** The two-pass fall after `j` trades. */
  function TwoPassDrop(initial: real, pnls: seq<real>, j: nat): real
    requires initial > 0.0 && j <= |pnls|
  {
    CurveIsRaw(initial, pnls, 0);
    Drops(Curve(initial, pnls))[j]
  }

  lemma {:induction false} FallsCompare(initial: real, pnls: seq<real>, j: nat)
    requires initial > 0.0 && 0 < j <= |pnls|
    ensures var one, two := OnePassDrop(initial, pnls, j), TwoPassDrop(initial, pnls, j);
      && one <= two <= TwoPass(initial, pnls)
      && (one == two && one > 0.0 ==> !MonteCarlo.Ruined(initial, pnls[..j - 1]))
      && (!MonteCarlo.Ruined(initial, pnls[..j - 1]) ==> one == two)
  {
    DropOfPrefix(initial, pnls, j);
    LastFalls(initial, pnls[..j]);
    assert pnls[..j][..j - 1] == pnls[..j - 1];
  }

  /** The backtest's figure is reached after `j` trades, before the last of which no running sum was negative. */
  ghost predicate ReachedBy(initial: real, pnls: seq<real>, j: nat)
    requires initial > 0.0 && j <= |pnls|
  {
    TwoPassDrop(initial, pnls, j) == TwoPass(initial, pnls) && (j == 0 || !MonteCarlo.Ruined(initial, pnls[..j - 1]))
  }

  ghost predicate DeepestByRuin(initial: real, pnls: seq<real>)
    requires initial > 0.0
  {
    exists j :: 0 <= j <= |pnls| && ReachedBy(initial, pnls, j)
  }

  lemma {:induction false} DropAtStart(initial: real, pnls: seq<real>)
    requires initial > 0.0
    ensures TwoPassDrop(initial, pnls, 0) == 0.0
  {
    CurveIsRaw(initial, pnls, 0);
  }

  /**
   * On every path the two figures agree exactly when the backtest's largest
   * fall came no later than the first negative running sum.
   */
  lemma {:induction false} DrawdownsAgreeExactlyWhen(initial: real, pnls: seq<real>)
    requires initial > 0.0
    ensures MonteCarlo.MaxDrawdown(initial, pnls) == TwoPass(initial, pnls) <==> DeepestByRuin(initial, pnls)
  {
    OnePassAtMostTwoPass(initial, pnls);
    DropAtStart(initial, pnls);
    if MonteCarlo.MaxDrawdown(initial, pnls) == TwoPass(initial, pnls) {
      DeepestWhereReached(initial, pnls);
    } else if DeepestByRuin(initial, pnls) {
      var j :| 0 <= j <= |pnls| && ReachedBy(initial, pnls, j);
      if j > 0 {
        FallsCompare(initial, pnls, j);
        DrawdownGrows(initial, pnls, j);
      }
    }
  }

  lemma {:induction false} DeepestWhereReached(initial: real, pnls: seq<real>)
    requires initial > 0.0 && MonteCarlo.MaxDrawdown(initial, pnls) == TwoPass(initial, pnls)
    ensures DeepestByRuin(initial, pnls)
  {
    var j := OnePassReached(initial, pnls);
    DropAtStart(initial, pnls);
    if j == 0 || TwoPass(initial, pnls) == 0.0 {
      assert ReachedBy(initial, pnls, 0);
    } else {
      OnePassAtMostTwoPass(initial, pnls);
      FallsCompare(initial, pnls, j);
      assert ReachedBy(initial, pnls, j);
    }
  }

  lemma {:induction false} PathStep(initial: real, ps: seq<real>, x: real)
    ensures var qs, v := ps + [x], MonteCarlo.Clamped(initial, ps) + x;
      var peak := Max(MonteCarlo.Peak(initial, ps), v);
      && MonteCarlo.Clamped(initial, qs) == Max(0.0, v) && MonteCarlo.Peak(initial, qs) == peak
      && MonteCarlo.MaxDrawdown(initial, qs) == Max(MonteCarlo.MaxDrawdown(initial, ps), MonteCarlo.Drop(peak, v))
  {
    assert (ps + [x])[..|ps|] == ps;
  }

  lemma {:induction false} CumSumStep(xs: seq<real>, x: real)
    requires xs != []
    ensures CumSum(xs + [x]) == CumSum(xs) + [CumSum(xs)[|xs| - 1] + x]
  {
    assert (xs + [x])[..|xs|] == xs;
  }

  lemma TwoPassInRuin()
    ensures Curve(1.0, [-2.0, 1.0, -3.0]) == [1.0, -1.0, 0.0, -3.0]
  {
    CumSumStep([1.0], -2.0);
    CumSumStep([1.0, -2.0], 1.0);
    CumSumStep([1.0, -2.0, 1.0], -3.0);
    assert [1.0] + [-2.0] == [1.0, -2.0] && [1.0, -2.0] + [1.0] == [1.0, -2.0, 1.0];
    assert [1.0, -2.0, 1.0] + [-3.0] == [1.0] + [-2.0, 1.0, -3.0];
  }

  lemma OnePassInRuin()
    ensures MonteCarlo.MaxDrawdown(1.0, [-2.0, 1.0, -3.0]) == 3.0
  {
    PathStep(1.0, [], -2.0);
    PathStep(1.0, [-2.0], 1.0);
    PathStep(1.0, [-2.0, 1.0], -3.0);
    assert [] + [-2.0] == [-2.0] && [-2.0] + [1.0] == [-2.0, 1.0] && [-2.0, 1.0] + [-3.0] == [-2.0, 1.0, -3.0];
  }

  /** A ruined path on which they differ: the clamp forgives the first loss, the running sum does not. */
  lemma DrawdownsDifferInRuin()
    ensures MonteCarlo.MaxDrawdown(1.0, [-2.0, 1.0, -3.0]) == 3.0
    ensures TwoPass(1.0, [-2.0, 1.0, -3.0]) == 4.0
  {
    OnePassInRuin();
    TwoPassInRuin();
    var e := [1.0, -1.0, 0.0, -3.0];
    assert PeakAt(e, 0) == PeakAt(e, 1) == PeakAt(e, 2) == PeakAt(e, 3) == 1.0;
    assert Drops(e) == [0.0, 2.0, 1.0, 4.0];
  }
}
