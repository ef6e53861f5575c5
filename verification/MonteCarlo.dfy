// The two path loops of the Monte Carlo simulator. Sampled profits and win/loss
// outcomes are arbitrary inputs.
module MonteCarlo {
  import opened Common

  // ---------------------------------------------------------------- simulate

  /** The raw running sum after all of `ps`. */
  function Raw(initial: real, ps: seq<real>): real {
    if ps == [] then initial else Raw(initial, ps[..|ps| - 1]) + ps[|ps| - 1]
  }

  /** The clamped recursion of the equity curve. */
  function Clamped(initial: real, ps: seq<real>): real
    decreases ps, 1
  {
    if ps == [] then initial else Max(0.0, Candidate(initial, ps))
  }

  /** The value before the clamp, on which peak and drawdown are measured. */
  function Candidate(initial: real, ps: seq<real>): real
    requires ps != []
    decreases ps, 0
  {
    Clamped(initial, ps[..|ps| - 1]) + ps[|ps| - 1]
  }

  function Peak(initial: real, ps: seq<real>): real {
    if ps == [] then initial else Max(Peak(initial, ps[..|ps| - 1]), Candidate(initial, ps))
  }

  function Drop(peak: real, value: real): real {
    if peak > 0.0 then Fall(peak, value) else 0.0
  }

  function MaxDrawdown(initial: real, ps: seq<real>): real {
    if ps == [] then 0.0
    else Max(MaxDrawdown(initial, ps[..|ps| - 1]), Drop(Peak(initial, ps), Candidate(initial, ps)))
  }

  /** The least running sum after at least one trade. */
  function Lowest(initial: real, ps: seq<real>): (m: real)
    requires ps != []
    ensures forall k :: 1 <= k <= |ps| ==> m <= Raw(initial, ps[..k])
    ensures exists k :: 1 <= k <= |ps| && m == Raw(initial, ps[..k])
  {
    assert ps[..|ps|] == ps;
    if |ps| == 1 then Raw(initial, ps)
    else
      var init := ps[..|ps| - 1];
      assert forall k :: 1 <= k <= |init| ==> init[..k] == ps[..k];
      Min(Lowest(initial, init), Raw(initial, ps))
  }

  /**
   * Reflection: from the first trade on, the clamped curve is the running sum
   * lifted by its deepest excursion below zero.
   */
  lemma {:induction false} ReflectionLaw(initial: real, ps: seq<real>)
    requires ps != []
    ensures Clamped(initial, ps) == Raw(initial, ps) - Min(0.0, Lowest(initial, ps))
  {
    if |ps| > 1 {
      ReflectionLaw(initial, ps[..|ps| - 1]);
    } else {
      assert Raw(initial, ps[..0]) == Clamped(initial, ps[..0]) == initial;
    }
  }

  /** With capital to start from, the minimum may as well include the start. */
  lemma ReflectionFromStart(initial: real, ps: seq<real>, m: real)
    requires initial >= 0.0
    requires forall k :: 0 <= k <= |ps| ==> m <= Raw(initial, ps[..k])
    requires exists k :: 0 <= k <= |ps| && m == Raw(initial, ps[..k])
    ensures Clamped(initial, ps) == Raw(initial, ps) - Min(0.0, m)
  {
    assert Raw(initial, ps[..0]) == initial;
    if ps != [] {
      ReflectionLaw(initial, ps);
      var k :| 1 <= k <= |ps| && Lowest(initial, ps) == Raw(initial, ps[..k]);
    }
  }

  /** Some prefix of `ps` has a running sum below zero. */
  ghost predicate Ruined(initial: real, ps: seq<real>) {
    exists k :: 1 <= k <= |ps| && Raw(initial, ps[..k]) < 0.0
  }

  lemma {:induction false} RuinedStep(initial: real, ps: seq<real>)
    requires ps != []
    ensures Ruined(initial, ps) <==> Ruined(initial, ps[..|ps| - 1]) || Raw(initial, ps) < 0.0
  {
    var init := ps[..|ps| - 1];
    assert ps[..|ps|] == ps;
    if Ruined(initial, init) {
      var k :| 1 <= k <= |init| && Raw(initial, init[..k]) < 0.0;
      assert ps[..k] == init[..k];
    }
    if Ruined(initial, ps) {
      var k :| 1 <= k <= |ps| && Raw(initial, ps[..k]) < 0.0;
      if k < |ps| {
        assert init[..k] == ps[..k];
      }
    }
  }

  /** Before ruin the clamp never acts. */
  lemma {:induction false} SolventPathIsRaw(initial: real, ps: seq<real>)
    requires !Ruined(initial, ps)
    ensures Clamped(initial, ps) == Raw(initial, ps)
    ensures ps != [] ==> Candidate(initial, ps) == Raw(initial, ps)
  {
    if ps != [] {
      RuinedStep(initial, ps);
      SolventPathIsRaw(initial, ps[..|ps| - 1]);
    }
  }

  lemma {:induction false} PeakPositive(initial: real, ps: seq<real>)
    requires initial > 0.0
    ensures Peak(initial, ps) >= initial
  {
    if ps != [] {
      PeakPositive(initial, ps[..|ps| - 1]);
    }
  }

  lemma QuotientAboveOne(x: real, y: real)
    requires y > 0.0
    ensures x / y > 1.0 <==> x > y
    ensures x / y < 1.0 <==> x < y
    ensures x >= 0.0 ==> x / y >= 0.0
  {
    var q := x / y;
    assert q * y == x;
  }

  lemma DropAboveOne(peak: real, value: real)
    ensures Drop(peak, value) > 1.0 <==> peak > 0.0 && value < 0.0
  {
    if peak > 0.0 {
      QuotientAboveOne(peak - value, peak);
    }
  }

  /** For any starting capital: drawdown passes 1 at a candidate below zero under a positive peak. */
  lemma {:induction false} DrawdownAboveOne(initial: real, ps: seq<real>)
    ensures MaxDrawdown(initial, ps) > 1.0 <==>
      exists k :: 1 <= k <= |ps| && Peak(initial, ps[..k]) > 0.0 && Candidate(initial, ps[..k]) < 0.0
  {
    if ps != [] {
      var init := ps[..|ps| - 1];
      DrawdownAboveOne(initial, init);
      DropAboveOne(Peak(initial, ps), Candidate(initial, ps));
      assert ps[..|ps|] == ps;
      assert forall k :: 1 <= k <= |init| ==> init[..k] == ps[..k];
      if k :| 1 <= k <= |init| && Peak(initial, init[..k]) > 0.0 && Candidate(initial, init[..k]) < 0.0 {
        assert Peak(initial, ps[..k]) > 0.0 && Candidate(initial, ps[..k]) < 0.0;
      }
    }
  }

  /** With positive capital: the reported drawdown exceeds 1 exactly when the raw path is ruined. */
  lemma {:induction false} DrawdownAboveOneIffRuined(initial: real, ps: seq<real>)
    requires initial > 0.0
    ensures MaxDrawdown(initial, ps) > 1.0 <==> Ruined(initial, ps)
  {
    if ps != [] {
      var init := ps[..|ps| - 1];
      DrawdownAboveOneIffRuined(initial, init);
      RuinedStep(initial, ps);
      PeakPositive(initial, ps);
      DropAboveOne(Peak(initial, ps), Candidate(initial, ps));
      if !Ruined(initial, init) {
        SolventPathIsRaw(initial, init);
      }
    }
  }

  /** One path of `simulate`. */
  method SimulatePath(sampled: seq<real>, initial: real) returns (equity: seq<real>, maxDrawdown: real)
    ensures |equity| == |sampled| + 1 && equity[0] == initial
    ensures forall k :: 1 <= k <= |sampled| ==>
      equity[k] == Raw(initial, sampled[..k]) - Min(0.0, Lowest(initial, sampled[..k]))
    ensures maxDrawdown == MaxDrawdown(initial, sampled)
    ensures initial > 0.0 ==> (maxDrawdown > 1.0 <==> Ruined(initial, sampled))
  {
    equity := [initial];
    var peak := initial;
    maxDrawdown := 0.0;
    for i := 0 to |sampled|
      invariant |equity| == i + 1
      invariant forall k :: 0 <= k <= i ==> equity[k] == Clamped(initial, sampled[..k])
      invariant peak == Peak(initial, sampled[..i])
      invariant maxDrawdown == MaxDrawdown(initial, sampled[..i])
    {
      assert sampled[..i + 1][..i] == sampled[..i];
      var value := equity[|equity| - 1] + sampled[i];
      equity := equity + [Max(0.0, value)];
      peak := Max(peak, value);
      maxDrawdown := Max(maxDrawdown, Drop(peak, value));
    }
    assert sampled[..|sampled|] == sampled;
    forall k | 1 <= k <= |sampled|
      ensures equity[k] == Raw(initial, sampled[..k]) - Min(0.0, Lowest(initial, sampled[..k]))
    {
      ReflectionLaw(initial, sampled[..k]);
    }
    if initial > 0.0 {
      DrawdownAboveOneIffRuined(initial, sampled);
    }
  }

  // ---------------------------------------------------------------- simulate_with_params

  datatype Params = Params(avgWin: real, avgLoss: real, capital: real, risk: real) {
    /** What a won trade earns per unit risked. */
    function Payoff(): real {
      if avgLoss > 0.0 then avgWin / avgLoss else 1.0
    }

    function Growth(won: bool): real {
      if won then 1.0 + risk * Payoff() else 1.0 - risk
    }
  }

  /** `broke`: the loop left early because nothing was left. */
  datatype Walk = Walk(equity: real, peak: real, maxDrawdown: real, trades: nat, broke: bool)

  /** What one trade earns or loses on the amount put at risk. */
  function Pnl(equity: real, won: bool, p: Params): real {
    var amount := equity * p.risk;
    if won then (if p.avgLoss > 0.0 then amount * (p.avgWin / p.avgLoss) else amount) else -amount
  }

  function WalkStep(w: Walk, won: bool, p: Params): Walk {
    var equity := Max(0.0, w.equity + Pnl(w.equity, won, p));
    var peak := Max(w.peak, equity);
    Walk(equity, peak, Max(w.maxDrawdown, Drop(peak, equity)), w.trades + 1, equity <= 0.0)
  }

  function ParamWalk(outcomes: seq<bool>, p: Params): Walk {
    if outcomes == [] then Walk(p.capital, p.capital, 0.0, 0, false)
    else
      var w := ParamWalk(outcomes[..|outcomes| - 1], p);
      if w.broke then w else WalkStep(w, outcomes[|outcomes| - 1], p)
  }

  lemma {:induction false} BrokeStays(outcomes: seq<bool>, i: nat, p: Params)
    requires i <= |outcomes| && ParamWalk(outcomes[..i], p).broke
    ensures ParamWalk(outcomes, p) == ParamWalk(outcomes[..i], p)
  {
    if i == |outcomes| {
      assert outcomes[..i] == outcomes;
    } else {
      var init := outcomes[..|outcomes| - 1];
      assert init[..i] == outcomes[..i];
      BrokeStays(init, i, p);
    }
  }

  function Pow(x: real, n: nat): real {
    if n == 0 then 1.0 else x * Pow(x, n - 1)
  }

  /** `c` multiplied by `g` for each win and by `l` for each loss, in order. */
  function Multiplied(outcomes: seq<bool>, c: real, g: real, l: real): real {
    if outcomes == [] then c
    else Times(Multiplied(outcomes[..|outcomes| - 1], c, g, l), if outcomes[|outcomes| - 1] then g else l)
  }

  function Compounded(c: real, g: real, l: real, wins: nat, losses: nat): real {
    c * Pow(g, wins) * Pow(l, losses)
  }

  lemma CompoundedStep(c: real, g: real, l: real, wins: nat, losses: nat)
    ensures Compounded(c, g, l, wins + 1, losses) == Times(Compounded(c, g, l, wins, losses), g)
    ensures Compounded(c, g, l, wins, losses + 1) == Times(Compounded(c, g, l, wins, losses), l)
  {
    var x, y := Pow(g, wins), Pow(l, losses);
    Rearrange(c, g, x, y);
    Rearrange(c, l, y, x);
    assert c * x * y == c * y * x;
    assert c * x * (l * y) == c * (l * y) * x;
  }

  lemma Rearrange(c: real, g: real, x: real, y: real)
    ensures c * (g * x) * y == c * x * y * g
  {
    assert c * (g * x) == c * x * g;
    assert c * x * g * y == c * x * y * g;
  }

  lemma {:induction false} MultipliedIsCompounded(outcomes: seq<bool>, c: real, g: real, l: real)
    ensures Multiplied(outcomes, c, g, l)
         == Compounded(c, g, l, multiset(outcomes)[true], multiset(outcomes)[false])
  {
    if outcomes == [] {
      assert Pow(g, 0) == Pow(l, 0) == 1.0;
    } else {
      var init, won := outcomes[..|outcomes| - 1], outcomes[|outcomes| - 1];
      assert outcomes == init + [won];
      MultipliedIsCompounded(init, c, g, l);
      var wins, losses := multiset(init)[true], multiset(init)[false];
      CompoundedStep(c, g, l, wins, losses);
    }
  }

  /** The scenario the closed form is about: money to lose, and no bet above the whole of it. */
  predicate Tradable(p: Params) {
    p.capital > 0.0 && p.Payoff() >= 0.0 && 0.0 <= p.risk < 1.0
  }

  lemma WinGrows(equity: real, p: Params)
    requires equity > 0.0 && p.Payoff() >= 0.0 && 0.0 <= p.risk
    ensures equity + Pnl(equity, true, p) == equity * p.Growth(true) && Pnl(equity, true, p) >= 0.0
  {
    var amount, extra := equity * p.risk, p.risk * p.Payoff();
    assert extra >= 0.0;
    assert Pnl(equity, true, p) == amount * p.Payoff() == equity * extra;
    assert equity * extra >= 0.0;
  }

  lemma LossShrinks(equity: real, p: Params)
    requires equity > 0.0 && 0.0 <= p.risk
    ensures equity + Pnl(equity, false, p) == equity * p.Growth(false)
    ensures p.risk < 1.0 <==> equity + Pnl(equity, false, p) > 0.0
  {
    var left := 1.0 - p.risk;
    assert equity + Pnl(equity, false, p) == equity * left;
    if left > 0.0 {
      assert equity * left > 0.0;
    } else {
      assert equity * left <= 0.0;
    }
  }

  lemma StepMultiplies(w: Walk, won: bool, p: Params, g: real)
    requires w.equity > 0.0 && p.Payoff() >= 0.0 && 0.0 <= p.risk && g == p.Growth(won)
    ensures won || p.risk < 1.0 ==>
      WalkStep(w, won, p).equity == Times(w.equity, g) && WalkStep(w, won, p).equity > 0.0
    ensures !won && p.risk >= 1.0 ==> WalkStep(w, won, p).equity == 0.0
  {
    if won {
      WinGrows(w.equity, p);
    } else {
      LossShrinks(w.equity, p);
    }
  }

  /** A step from a solvent walk keeps equity under its peak and the drawdown under 1. */
  lemma StepKeepsDrawdown(w: Walk, won: bool, p: Params)
    requires 0.0 <= w.maxDrawdown < 1.0
    requires WalkStep(w, won, p).equity > 0.0
    ensures var w' := WalkStep(w, won, p); w'.equity <= w'.peak && 0.0 <= w'.maxDrawdown < 1.0
  {
    var w' := WalkStep(w, won, p);
    QuotientAboveOne(w'.peak - w'.equity, w'.peak);
  }

  /** Every trade is taken; equity stays positive and the drawdown below 1. */
  lemma {:induction false} NeverBroke(outcomes: seq<bool>, p: Params)
    requires Tradable(p)
    ensures var w := ParamWalk(outcomes, p);
      !w.broke && w.trades == |outcomes| && 0.0 < w.equity <= w.peak && 0.0 <= w.maxDrawdown < 1.0
  {
    if outcomes != [] {
      var init, won := outcomes[..|outcomes| - 1], outcomes[|outcomes| - 1];
      NeverBroke(init, p);
      StepMultiplies(ParamWalk(init, p), won, p, p.Growth(won));
      StepKeepsDrawdown(ParamWalk(init, p), won, p);
    }
  }

  lemma {:induction false} WalkMultiplies(outcomes: seq<bool>, p: Params, g: real, l: real)
    requires Tradable(p) && g == p.Growth(true) && l == p.Growth(false)
    ensures ParamWalk(outcomes, p).equity == Multiplied(outcomes, p.capital, g, l)
  {
    if outcomes != [] {
      var init, won := outcomes[..|outcomes| - 1], outcomes[|outcomes| - 1];
      WalkMultiplies(init, p, g, l);
      NeverBroke(init, p);
      StepMultiplies(ParamWalk(init, p), won, p, if won then g else l);
    }
  }

  /** The final equity depends only on how many trades were won and how many lost. */
  lemma ClosedForm(outcomes: seq<bool>, p: Params)
    requires Tradable(p)
    ensures ParamWalk(outcomes, p).equity
         == Compounded(p.capital, p.Growth(true), p.Growth(false),
                       multiset(outcomes)[true], multiset(outcomes)[false])
  {
    WalkMultiplies(outcomes, p, p.Growth(true), p.Growth(false));
    MultipliedIsCompounded(outcomes, p.capital, p.Growth(true), p.Growth(false));
  }

  lemma ClosedFormWith(outcomes: seq<bool>, p: Params, g: real, l: real)
    requires Tradable(p) && g == p.Growth(true) && l == p.Growth(false)
    ensures ParamWalk(outcomes, p).equity
         == Compounded(p.capital, g, l, multiset(outcomes)[true], multiset(outcomes)[false])
  {
    ClosedForm(outcomes, p);
  }

  lemma GrowthMeans(p: Params)
    ensures p.avgLoss > 0.0 ==> p.Growth(true) == 1.0 + p.risk * (p.avgWin / p.avgLoss)
    ensures p.avgLoss <= 0.0 ==> p.Growth(true) == 1.0 + p.risk
    ensures p.Growth(false) == 1.0 - p.risk
    ensures p.avgLoss > 0.0 && p.avgWin >= 0.0 ==> p.Payoff() >= 0.0
  {
    if p.avgLoss > 0.0 {
      QuotientAboveOne(p.avgWin, p.avgLoss);
    } else {
      assert p.Payoff() == 1.0 && p.risk * 1.0 == p.risk;
    }
  }

  /** The same in the rates of the scenario; without an average loss a win earns what was put at risk. */
  lemma ClosedFormInRates(outcomes: seq<bool>, p: Params, gain: real)
    requires p.capital > 0.0 && 0.0 <= p.risk < 1.0 && p.avgWin >= 0.0
    requires gain == if p.avgLoss > 0.0 then 1.0 + p.risk * (p.avgWin / p.avgLoss) else 1.0 + p.risk
    ensures ParamWalk(outcomes, p).equity
         == Compounded(p.capital, gain, 1.0 - p.risk, multiset(outcomes)[true], multiset(outcomes)[false])
  {
    GrowthMeans(p);
    ClosedFormWith(outcomes, p, gain, 1.0 - p.risk);
  }

  lemma OrderIndependent(outcomes: seq<bool>, reordered: seq<bool>, p: Params)
    requires Tradable(p) && multiset(outcomes) == multiset(reordered)
    ensures ParamWalk(outcomes, p).equity == ParamWalk(reordered, p).equity
  {
    ClosedForm(outcomes, p);
    ClosedForm(reordered, p);
  }

  /** The early exit is taken exactly when a whole-account bet is lost. */
  lemma {:induction false} BreaksExactlyWhen(outcomes: seq<bool>, p: Params)
    requires p.capital > 0.0 && p.Payoff() >= 0.0 && p.risk >= 0.0
    ensures var w := ParamWalk(outcomes, p);
      && (w.broke <==> p.risk >= 1.0 && false in outcomes)
      && (if w.broke then w.equity == 0.0 else w.equity > 0.0)
  {
    if outcomes != [] {
      var init, won := outcomes[..|outcomes| - 1], outcomes[|outcomes| - 1];
      BreaksExactlyWhen(init, p);
      assert outcomes == init + [won];
      if !ParamWalk(init, p).broke {
        StepMultiplies(ParamWalk(init, p), won, p, p.Growth(won));
      }
    }
  }

  /** One path of `simulate_with_params`. */
  method SimulateParamPath(outcomes: seq<bool>, p: Params) returns (equity: real, maxDrawdown: real)
    ensures equity == ParamWalk(outcomes, p).equity && maxDrawdown == ParamWalk(outcomes, p).maxDrawdown
    ensures Tradable(p) ==>
      && 0.0 < equity && 0.0 <= maxDrawdown < 1.0
      && equity == Compounded(p.capital, p.Growth(true), p.Growth(false),
                              multiset(outcomes)[true], multiset(outcomes)[false])
  {
    if Tradable(p) {
      NeverBroke(outcomes, p);
      ClosedForm(outcomes, p);
    }
    equity := p.capital;
    var peak := p.capital;
    maxDrawdown := 0.0;
    for i := 0 to |outcomes|
      invariant ParamWalk(outcomes[..i], p) == Walk(equity, peak, maxDrawdown, i, false)
    {
      assert outcomes[..i + 1][..i] == outcomes[..i];
      equity := Max(0.0, equity + Pnl(equity, outcomes[i], p));
      peak := Max(peak, equity);
      maxDrawdown := Max(maxDrawdown, Drop(peak, equity));
      if equity <= 0.0 {
        BrokeStays(outcomes, i + 1, p);
        return;
      }
    }
    assert outcomes[..|outcomes|] == outcomes;
  }
}
