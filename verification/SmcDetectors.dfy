// The index-loop detectors of the SMC module: fair-value gaps, liquidity sweeps
// and candle-range breakouts, and how their lists change as bars are appended.
module SmcDetectors {
  import opened Common

  datatype Bar = Bar(high: real, low: real, close: real)

  /** `results[-10:]`. */
  function LastTen<T>(s: seq<T>): (r: seq<T>)
    ensures |r| == (if |s| < 10 then |s| else 10) && r == s[|s| - |r|..]
  {
    if |s| > 10 then s[|s| - 10..] else s
  }

  function ToList<T>(o: Option<T>): seq<T> {
    if o.Some? then [o.value] else []
  }

  /** The lowest low of `bars[lo..hi]`. */
  function Lowest(bars: seq<Bar>, lo: nat, hi: nat): real
    requires lo < hi <= |bars|
    decreases hi
  {
    if hi == lo + 1 then bars[lo].low else Min(Lowest(bars, lo, hi - 1), bars[hi - 1].low)
  }

  /** The highest high of `bars[lo..hi]`. */
  function Highest(bars: seq<Bar>, lo: nat, hi: nat): real
    requires lo < hi <= |bars|
    decreases hi
  {
    if hi == lo + 1 then bars[lo].high else Max(Highest(bars, lo, hi - 1), bars[hi - 1].high)
  }

  lemma {:induction false} LowestIsLeast(bars: seq<Bar>, lo: nat, hi: nat)
    requires lo < hi <= |bars|
    ensures forall j :: lo <= j < hi ==> Lowest(bars, lo, hi) <= bars[j].low
    ensures exists j :: lo <= j < hi && Lowest(bars, lo, hi) == bars[j].low
    decreases hi
  {
    if hi == lo + 1 {
      assert Lowest(bars, lo, hi) == bars[lo].low;
    } else {
      LowestIsLeast(bars, lo, hi - 1);
      assert Lowest(bars, lo, hi) == Lowest(bars, lo, hi - 1) || Lowest(bars, lo, hi) == bars[hi - 1].low;
    }
  }

  lemma {:induction false} HighestIsGreatest(bars: seq<Bar>, lo: nat, hi: nat)
    requires lo < hi <= |bars|
    ensures forall j :: lo <= j < hi ==> Highest(bars, lo, hi) >= bars[j].high
    ensures exists j :: lo <= j < hi && Highest(bars, lo, hi) == bars[j].high
    decreases hi
  {
    if hi == lo + 1 {
      assert Highest(bars, lo, hi) == bars[lo].high;
    } else {
      HighestIsGreatest(bars, lo, hi - 1);
      assert Highest(bars, lo, hi) == Highest(bars, lo, hi - 1) || Highest(bars, lo, hi) == bars[hi - 1].high;
    }
  }

  lemma {:induction false} ExtremesOfPrefix(bars: seq<Bar>, b: Bar, lo: nat, hi: nat)
    requires lo < hi <= |bars|
    ensures Lowest(bars + [b], lo, hi) == Lowest(bars, lo, hi)
    ensures Highest(bars + [b], lo, hi) == Highest(bars, lo, hi)
    decreases hi
  {
    if hi > lo + 1 {
      ExtremesOfPrefix(bars, b, lo, hi - 1);
    }
  }

  // ---------------------------------------------------------------- fair-value gaps

  datatype Gap = Gap(bullish: bool, top: real, bottom: real, barIndex: int, filled: real)

  /** `min(1.0, max(0.0, x / size))`, guarded as in the source. */
  function Fraction(x: real, size: real): real {
    if size > 0.0 then Min(1.0, Max(0.0, x / size)) else 0.0
  }

  lemma FractionFacts(x: real, y: real, size: real)
    requires size > 0.0
    ensures 0.0 <= Fraction(x, size) <= 1.0
    ensures x <= y ==> Fraction(x, size) <= Fraction(y, size)
    ensures Fraction(x, size) == 1.0 <==> x >= size
  {
    Ratio(x, y, size);
    Ratio(x, size, size);
    Ratio(size, x, size);
  }

  lemma Ratio(x: real, y: real, size: real)
    requires size > 0.0
    ensures x <= y ==> x / size <= y / size
    ensures size / size == 1.0
    ensures x / size >= 1.0 ==> x >= size
  {
  }

  /** How far the bars after `i` reached into a gap that opened at bar `i`. */
  function Filled(bars: seq<Bar>, i: nat, bullish: bool, top: real, bottom: real): real
    requires i < |bars|
  {
    if i + 1 < |bars| then
      var reach := if bullish then top - Lowest(bars, i + 1, |bars|) else Highest(bars, i + 1, |bars|) - bottom;
      Fraction(reach, top - bottom)
    else 0.0
  }

  function GapAt(bars: seq<Bar>, i: nat): Option<Gap>
    requires 2 <= i < |bars|
  {
    if bars[i].low > bars[i - 2].high then
      var top, bottom := bars[i].low, bars[i - 2].high;
      Some(Gap(true, top, bottom, i - 1, Filled(bars, i, true, top, bottom)))
    else if bars[i].high < bars[i - 2].low then
      var top, bottom := bars[i - 2].low, bars[i].high;
      Some(Gap(false, top, bottom, i - 1, Filled(bars, i, false, top, bottom)))
    else None
  }

  /** The gaps that open before bar `n`. */
  function Gaps(bars: seq<Bar>, n: nat): seq<Gap>
    requires n <= |bars|
  {
    if n <= 2 then [] else Gaps(bars, n - 1) + ToList(GapAt(bars, n - 1))
  }

  method DetectFairValueGaps(bars: seq<Bar>) returns (r: seq<Gap>)
    ensures r == LastTen(Gaps(bars, |bars|))
  {
    var results: seq<Gap> := [];
    if |bars| < 3 {
      return results;
    }
    for i := 2 to |bars|
      invariant results == Gaps(bars, i)
    {
      if bars[i].low > bars[i - 2].high {
        var top, bottom := bars[i].low, bars[i - 2].high;
        results := results + [Gap(true, top, bottom, i - 1, Filled(bars, i, true, top, bottom))];
      } else if bars[i].high < bars[i - 2].low {
        var top, bottom := bars[i - 2].low, bars[i].high;
        results := results + [Gap(false, top, bottom, i - 1, Filled(bars, i, false, top, bottom))];
      }
    }
    r := LastTen(results);
  }

  /** Same gap, filled at least as far. */
  ghost predicate Grew(g: Gap, g': Gap) {
    g'.(filled := g.filled) == g && g.filled <= g'.filled
  }

  lemma GapGrows(bars: seq<Bar>, b: Bar, i: nat)
    requires 2 <= i < |bars|
    ensures var g, g' := GapAt(bars, i), GapAt(bars + [b], i);
      (g.Some? <==> g'.Some?) && (g.Some? ==> Grew(g.value, g'.value))
  {
    var bars' := bars + [b];
    var g := GapAt(bars, i);
    if g.Some? {
      var top, bottom := g.value.top, g.value.bottom;
      var reach' := if g.value.bullish then top - Lowest(bars', i + 1, |bars'|)
                    else Highest(bars', i + 1, |bars'|) - bottom;
      FractionFacts(reach', reach', top - bottom);
      if i + 1 < |bars| {
        ExtremesOfPrefix(bars, b, i + 1, |bars|);
        var reach := if g.value.bullish then top - Lowest(bars, i + 1, |bars|)
                     else Highest(bars, i + 1, |bars|) - bottom;
        assert reach <= reach';
        FractionFacts(reach, reach', top - bottom);
      }
    }
  }

  /** An appended bar keeps every earlier gap, never less filled, and opens at most one. */
  lemma {:induction false} GapsExtend(bars: seq<Bar>, b: Bar, n: nat)
    requires n <= |bars|
    ensures |Gaps(bars + [b], n)| == |Gaps(bars, n)|
    ensures forall k :: 0 <= k < |Gaps(bars, n)| ==> Grew(Gaps(bars, n)[k], Gaps(bars + [b], n)[k])
  {
    if n > 2 {
      GapsExtend(bars, b, n - 1);
      GapGrows(bars, b, n - 1);
    }
  }

  lemma GapsStable(bars: seq<Bar>, b: Bar)
    ensures var g, g' := Gaps(bars, |bars|), Gaps(bars + [b], |bars| + 1);
      && |g| <= |g'| <= |g| + 1
      && forall k :: 0 <= k < |g| ==> Grew(g[k], g'[k])
  {
    GapsExtend(bars, b, |bars|);
  }

  predicate ReachedFarEdge(g: Gap, b: Bar) {
    if g.bullish then b.low <= g.bottom else b.high >= g.top
  }

  /** A gap reads fully filled exactly when some later bar reached its far edge. */
  lemma FullyFilledExactly(bars: seq<Bar>, i: nat)
    requires 2 <= i < |bars| && GapAt(bars, i).Some?
    ensures var g := GapAt(bars, i).value;
      && 0.0 <= g.filled <= 1.0
      && (g.filled == 1.0 <==> exists j :: i < j < |bars| && ReachedFarEdge(g, bars[j]))
  {
    var g := GapAt(bars, i).value;
    if i + 1 < |bars| {
      var low, high := Lowest(bars, i + 1, |bars|), Highest(bars, i + 1, |bars|);
      LowestIsLeast(bars, i + 1, |bars|);
      HighestIsGreatest(bars, i + 1, |bars|);
      FractionFacts(if g.bullish then g.top - low else high - g.bottom, 0.0, g.top - g.bottom);
    }
  }

  /** How deep the bar reached into the gap, as a fraction of its width cut to [0, 1]. */
  function Depth(g: Gap, b: Bar): real
    requires g.top > g.bottom
  {
    var reach := if g.bullish then (g.top - b.low) / (g.top - g.bottom) else (b.high - g.bottom) / (g.top - g.bottom);
    if reach < 0.0 then 0.0 else if reach > 1.0 then 1.0 else reach
  }

  lemma FractionIsDepth(g: Gap, b: Bar)
    requires g.top > g.bottom
    ensures Depth(g, b) == Fraction(if g.bullish then g.top - b.low else b.high - g.bottom, g.top - g.bottom)
  {
  }

  /** A gap is filled as deep as the deepest of the bars after it, and not at all before there is one. */
  lemma {:induction false} FilledMeans(bars: seq<Bar>, i: nat)
    requires 2 <= i < |bars| && GapAt(bars, i).Some?
    ensures var g := GapAt(bars, i).value;
      && g.top > g.bottom
      && (forall j :: i < j < |bars| ==> Depth(g, bars[j]) <= g.filled)
      && (i + 1 == |bars| ==> g.filled == 0.0)
      && (i + 1 < |bars| ==> exists j :: i < j < |bars| && g.filled == Depth(g, bars[j]))
  {
    var g := GapAt(bars, i).value;
    if i + 1 < |bars| {
      var size := g.top - g.bottom;
      var low, high := Lowest(bars, i + 1, |bars|), Highest(bars, i + 1, |bars|);
      LowestIsLeast(bars, i + 1, |bars|);
      HighestIsGreatest(bars, i + 1, |bars|);
      forall j | i < j < |bars|
        ensures Depth(g, bars[j]) <= g.filled
      {
        FractionIsDepth(g, bars[j]);
        FractionFacts(if g.bullish then g.top - bars[j].low else bars[j].high - g.bottom,
                      if g.bullish then g.top - low else high - g.bottom, size);
      }
      var j :| i < j < |bars| && if g.bullish then bars[j].low == low else bars[j].high == high;
      FractionIsDepth(g, bars[j]);
    }
  }

  predicate Touches(b: Bar, x: real) {
    b.low <= x <= b.high
  }

  ghost predicate Untouched(b: Bar, lo: real, hi: real) {
    forall x :: lo < x < hi ==> !Touches(b, x)
  }

  /**
   * A gap opens exactly where two bars with one between them share no price; it
   * is the widest open interval of prices that neither touched.
   */
  lemma GapMeans(bars: seq<Bar>, i: nat)
    requires 2 <= i < |bars| && bars[i - 2].low <= bars[i - 2].high && bars[i].low <= bars[i].high
    ensures GapAt(bars, i).Some? <==> forall x :: !(Touches(bars[i - 2], x) && Touches(bars[i], x))
    ensures GapAt(bars, i).Some? ==>
      var g := GapAt(bars, i).value;
      && g.bottom < g.top && Untouched(bars[i - 2], g.bottom, g.top) && Untouched(bars[i], g.bottom, g.top)
      && (if g.bullish then Touches(bars[i - 2], g.bottom) && Touches(bars[i], g.top)
          else Touches(bars[i], g.bottom) && Touches(bars[i - 2], g.top))
  {
    var shared := Max(bars[i - 2].low, bars[i].low);
    if GapAt(bars, i).None? {
      assert Touches(bars[i - 2], shared) && Touches(bars[i], shared);
    } else {
      var g := GapAt(bars, i).value;
      assert Untouched(bars[i - 2], g.bottom, g.top) && Untouched(bars[i], g.bottom, g.top);
    }
  }

  predicate IsGap(bars: seq<Bar>, n: nat, g: Gap)
    requires n <= |bars|
  {
    1 <= g.barIndex < n - 1 && GapAt(bars, g.barIndex + 1) == Some(g)
  }

  /** The list holds every gap once, in the order of its middle bar, and nothing else. */
  lemma {:induction false} GapsExact(bars: seq<Bar>, n: nat)
    requires n <= |bars|
    ensures forall g :: g in Gaps(bars, n) <==> IsGap(bars, n, g)
    ensures forall j, k :: 0 <= j < k < |Gaps(bars, n)| ==> Gaps(bars, n)[j].barIndex < Gaps(bars, n)[k].barIndex
  {
    if n > 2 {
      GapsExact(bars, n - 1);
      var init, last := Gaps(bars, n - 1), GapAt(bars, n - 1);
      forall k | 0 <= k < |init|
        ensures init[k].barIndex < n - 2
      {
        assert IsGap(bars, n - 1, init[k]);
      }
      forall g
        ensures g in Gaps(bars, n) <==> IsGap(bars, n, g)
      {
        assert g in Gaps(bars, n) <==> g in init || (last.Some? && g == last.value);
      }
    }
  }

  // ---------------------------------------------------------------- liquidity sweeps

  datatype Sweep = Sweep(bullish: bool, price: real, level: real, barIndex: nat)

  function SweepAt(bars: seq<Bar>, i: nat, lookback: nat): Option<Sweep>
    requires 0 < lookback <= i < |bars|
  {
    var prevHigh, prevLow := Highest(bars, i - lookback, i), Lowest(bars, i - lookback, i);
    if bars[i].low < prevLow && bars[i].close > prevLow then Some(Sweep(true, bars[i].low, prevLow, i))
    else if bars[i].high > prevHigh && bars[i].close < prevHigh then Some(Sweep(false, bars[i].high, prevHigh, i))
    else None
  }

  function Sweeps(bars: seq<Bar>, n: nat, lookback: nat): seq<Sweep>
    requires n <= |bars| && lookback > 0
  {
    if n <= lookback then [] else Sweeps(bars, n - 1, lookback) + ToList(SweepAt(bars, n - 1, lookback))
  }

  /** The last bar is not looked at. */
  function AllSweeps(bars: seq<Bar>, lookback: nat): seq<Sweep>
    requires lookback > 0
  {
    if bars == [] then [] else Sweeps(bars, |bars| - 1, lookback)
  }

  method DetectLiquiditySweep(bars: seq<Bar>, lookback: nat) returns (r: seq<Sweep>)
    requires lookback > 0
    ensures r == LastTen(AllSweeps(bars, lookback))
  {
    var results: seq<Sweep> := [];
    if |bars| < lookback + 2 {
      return results;
    }
    for i := lookback to |bars| - 1
      invariant results == Sweeps(bars, i, lookback)
    {
      var prevHigh, prevLow := Highest(bars, i - lookback, i), Lowest(bars, i - lookback, i);
      if bars[i].low < prevLow && bars[i].close > prevLow {
        results := results + [Sweep(true, bars[i].low, prevLow, i)];
      } else if bars[i].high > prevHigh && bars[i].close < prevHigh {
        results := results + [Sweep(false, bars[i].high, prevHigh, i)];
      }
    }
    r := LastTen(results);
  }

  lemma {:induction false} SweepsOfPrefix(bars: seq<Bar>, b: Bar, n: nat, lookback: nat)
    requires n <= |bars| && lookback > 0
    ensures Sweeps(bars + [b], n, lookback) == Sweeps(bars, n, lookback)
  {
    if n > lookback {
      SweepsOfPrefix(bars, b, n - 1, lookback);
      ExtremesOfPrefix(bars, b, n - 1 - lookback, n - 1);
    }
  }

  /** An appended bar only extends the sweep list, by at most one entry. */
  lemma SweepsStable(bars: seq<Bar>, b: Bar, lookback: nat)
    requires lookback > 0
    ensures var s, s' := AllSweeps(bars, lookback), AllSweeps(bars + [b], lookback);
      s <= s' && |s'| <= |s| + 1
  {
    SweepsOfPrefix(bars, b, |bars|, lookback);
  }

  /** The lowest low or the highest high of the window before bar `i`. */
  ghost predicate IsLevel(bars: seq<Bar>, i: nat, lookback: nat, level: real, lows: bool)
    requires lookback <= i <= |bars|
  {
    && (exists j :: i - lookback <= j < i && level == if lows then bars[j].low else bars[j].high)
    && (forall j :: i - lookback <= j < i ==> if lows then level <= bars[j].low else level >= bars[j].high)
  }

  /**
   * A bullish sweep undercuts every low of the window and closes back above one
   * of them; a bearish sweep mirrors it where the first does not apply.
   */
  lemma SweepMeans(bars: seq<Bar>, i: nat, lookback: nat)
    requires 0 < lookback <= i < |bars|
    ensures var s := SweepAt(bars, i, lookback);
      var undercuts := (forall j :: i - lookback <= j < i ==> bars[i].low < bars[j].low)
                    && (exists j :: i - lookback <= j < i && bars[i].close > bars[j].low);
      var overshoots := (forall j :: i - lookback <= j < i ==> bars[i].high > bars[j].high)
                     && (exists j :: i - lookback <= j < i && bars[i].close < bars[j].high);
      && (s.Some? && s.value.bullish <==> undercuts)
      && (s.Some? && !s.value.bullish <==> overshoots && !undercuts)
      && (s.Some? ==> s.value.barIndex == i)
      && (s.Some? && s.value.bullish ==>
            s.value.price == bars[i].low && IsLevel(bars, i, lookback, s.value.level, true))
      && (s.Some? && !s.value.bullish ==>
            s.value.price == bars[i].high && IsLevel(bars, i, lookback, s.value.level, false))
  {
    LowestIsLeast(bars, i - lookback, i);
    HighestIsGreatest(bars, i - lookback, i);
  }

  predicate IsSweep(bars: seq<Bar>, lookback: nat, n: nat, s: Sweep)
    requires n <= |bars| && lookback > 0
  {
    lookback <= s.barIndex < n && SweepAt(bars, s.barIndex, lookback) == Some(s)
  }

  /** The list holds every sweep once, in bar order, and nothing else. */
  lemma {:induction false} SweepsExact(bars: seq<Bar>, n: nat, lookback: nat)
    requires n <= |bars| && lookback > 0
    ensures forall s :: s in Sweeps(bars, n, lookback) <==> IsSweep(bars, lookback, n, s)
    ensures forall j, k :: 0 <= j < k < |Sweeps(bars, n, lookback)| ==>
      Sweeps(bars, n, lookback)[j].barIndex < Sweeps(bars, n, lookback)[k].barIndex
  {
    if n > lookback {
      SweepsExact(bars, n - 1, lookback);
      var init, last := Sweeps(bars, n - 1, lookback), SweepAt(bars, n - 1, lookback);
      forall k | 0 <= k < |init|
        ensures init[k].barIndex < n - 1
      {
        assert IsSweep(bars, lookback, n - 1, init[k]);
      }
      forall s
        ensures s in Sweeps(bars, n, lookback) <==> IsSweep(bars, lookback, n, s)
      {
        assert s in Sweeps(bars, n, lookback) <==> s in init || (last.Some? && s == last.value);
      }
    }
  }

  /** Every sweep of the series but one at its last bar. */
  lemma {:induction false} AllSweepsExact(bars: seq<Bar>, lookback: nat, s: Sweep)
    requires lookback > 0
    ensures s in AllSweeps(bars, lookback) <==>
      lookback <= s.barIndex && s.barIndex + 1 < |bars| && SweepAt(bars, s.barIndex, lookback) == Some(s)
  {
    if bars != [] {
      SweepsExact(bars, |bars| - 1, lookback);
      assert s in AllSweeps(bars, lookback) <==> IsSweep(bars, lookback, |bars| - 1, s);
    }
  }

  // ---------------------------------------------------------------- candle range

  datatype Crt = Crt(bullish: bool, motherHigh: real, motherLow: real, breakoutClose: real, barIndex: nat)

  function CrtAt(bars: seq<Bar>, i: nat): Option<Crt>
    requires 1 <= i < |bars| - 1
  {
    var mother := bars[i - 1];
    if bars[i].high <= mother.high && bars[i].low >= mother.low then
      if bars[i + 1].close > mother.high then Some(Crt(true, mother.high, mother.low, bars[i + 1].close, i))
      else if bars[i + 1].close < mother.low then Some(Crt(false, mother.high, mother.low, bars[i + 1].close, i))
      else None
    else None
  }

  function Crts(bars: seq<Bar>, n: nat): seq<Crt>
    requires n < |bars| || n == 0
  {
    if n <= 1 then [] else Crts(bars, n - 1) + ToList(CrtAt(bars, n - 1))
  }

  function AllCrts(bars: seq<Bar>): seq<Crt> {
    if bars == [] then [] else Crts(bars, |bars| - 1)
  }

  method DetectCrt(bars: seq<Bar>) returns (r: seq<Crt>)
    ensures r == LastTen(AllCrts(bars))
  {
    var results: seq<Crt> := [];
    if |bars| < 3 {
      return results;
    }
    for i := 1 to |bars| - 1
      invariant results == Crts(bars, i)
    {
      if bars[i].high <= bars[i - 1].high && bars[i].low >= bars[i - 1].low {
        if bars[i + 1].close > bars[i - 1].high {
          results := results + [Crt(true, bars[i - 1].high, bars[i - 1].low, bars[i + 1].close, i)];
        } else if bars[i + 1].close < bars[i - 1].low {
          results := results + [Crt(false, bars[i - 1].high, bars[i - 1].low, bars[i + 1].close, i)];
        }
      }
    }
    r := LastTen(results);
  }

  lemma {:induction false} CrtsOfPrefix(bars: seq<Bar>, b: Bar, n: nat)
    requires n < |bars|
    ensures Crts(bars + [b], n) == Crts(bars, n)
  {
    if n > 1 {
      CrtsOfPrefix(bars, b, n - 1);
    }
  }

  /** An appended bar only extends the breakout list, by at most one entry. */
  lemma CrtsStable(bars: seq<Bar>, b: Bar)
    ensures var c, c' := AllCrts(bars), AllCrts(bars + [b]);
      c <= c' && |c'| <= |c| + 1
  {
    if bars != [] {
      CrtsOfPrefix(bars, b, |bars| - 1);
    }
  }

  predicate IsCrt(bars: seq<Bar>, n: nat, c: Crt)
    requires n < |bars|
  {
    1 <= c.barIndex < n && CrtAt(bars, c.barIndex) == Some(c)
  }

  /** The list holds every breakout once, in bar order, and nothing else. */
  lemma {:induction false} CrtsExact(bars: seq<Bar>, n: nat)
    requires n < |bars|
    ensures forall c :: c in Crts(bars, n) <==> IsCrt(bars, n, c)
    ensures forall j, k :: 0 <= j < k < |Crts(bars, n)| ==> Crts(bars, n)[j].barIndex < Crts(bars, n)[k].barIndex
  {
    if n > 1 {
      CrtsExact(bars, n - 1);
      var init, last := Crts(bars, n - 1), CrtAt(bars, n - 1);
      forall k | 0 <= k < |init|
        ensures init[k].barIndex < n - 1
      {
        assert IsCrt(bars, n - 1, init[k]);
      }
      forall c
        ensures c in Crts(bars, n) <==> IsCrt(bars, n, c)
      {
        assert c in Crts(bars, n) <==> c in init || (last.Some? && c == last.value);
      }
    }
  }

  /**
   * A breakout: the bar touches only prices its mother bar touched, and the bar
   * after it closes outside them.
   */
  lemma CrtMeans(bars: seq<Bar>, i: nat)
    requires 1 <= i < |bars| - 1 && bars[i].low <= bars[i].high && bars[i - 1].low <= bars[i - 1].high
    ensures var close := bars[i + 1].close;
      && (CrtAt(bars, i).Some? <==>
            (forall x :: Touches(bars[i], x) ==> Touches(bars[i - 1], x)) && !Touches(bars[i - 1], close))
      && (CrtAt(bars, i).Some? ==>
            var c := CrtAt(bars, i).value;
            && (c.bullish <==> close > bars[i - 1].high)
            && c == Crt(c.bullish, bars[i - 1].high, bars[i - 1].low, close, i))
  {
    assert Touches(bars[i], bars[i].low) && Touches(bars[i], bars[i].high);
    assert Touches(bars[i - 1], bars[i - 1].low) && Touches(bars[i - 1], bars[i - 1].high);
  }

  /** Every breakout of the series, its last bar confirming the last. */
  lemma {:induction false} AllCrtsExact(bars: seq<Bar>, c: Crt)
    ensures c in AllCrts(bars) <==>
      1 <= c.barIndex && c.barIndex + 1 < |bars| && CrtAt(bars, c.barIndex) == Some(c)
  {
    if bars != [] {
      CrtsExact(bars, |bars| - 1);
      assert c in AllCrts(bars) <==> IsCrt(bars, |bars| - 1, c);
    }
  }
}
