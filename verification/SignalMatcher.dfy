// The one-pass matcher that turns a signal sequence into round-trip trades, and
// the optimality of its choice.
module SignalMatcher {
  import opened Common

  datatype Kind = BUY | SELL | NEUTRAL | ALERT

  datatype Signal = Signal(kind: Kind, price: real, date: int, reason: string)

  datatype Trade = Trade(
    code: string, entryDate: int, entryPrice: real, exitDate: int, exitPrice: real,
    shares: int, pnl: real, pnlPct: real, cost: real, holdDays: int, exitReason: string)

  const TOTAL_COST_RATE: real := 0.00685

  /** Index pairs (entry, exit) of the trades taken, and the entry still open. */
  datatype Match = Match(pairs: seq<(nat, nat)>, open: Option<nat>)

  function Greedy(signals: seq<Signal>): Match {
    if signals == [] then Match([], None)
    else
      var i := |signals| - 1;
      var m := Greedy(signals[..i]);
      if signals[i].kind.BUY? && m.open.None? then m.(open := Some(i))
      else if signals[i].kind.SELL? && m.open.Some? then Match(m.pairs + [(m.open.value, i)], None)
      else m
  }

  function RoundTrip(code: string, entryPrice: real, entryDate: int, exit: Signal, includeCost: bool): Trade {
    var cost := if includeCost then (entryPrice + exit.price) * TOTAL_COST_RATE / 2.0 * 1000.0 else 0.0;
    Trade(code, entryDate, entryPrice, exit.date, exit.price, 1000,
          (exit.price - entryPrice) * 1000.0 - cost,
          if entryPrice != 0.0 then (exit.price - entryPrice) / entryPrice * 100.0 else 0.0,
          cost, exit.date - entryDate, exit.reason)
  }

  /** Strictly alternating, non-overlapping BUY-before-SELL pairs of the sequence. */
  ghost predicate IsSelection(signals: seq<Signal>, ps: seq<(nat, nat)>) {
    && (forall k :: 0 <= k < |ps| ==>
          ps[k].0 < ps[k].1 < |signals| && signals[ps[k].0].kind.BUY? && signals[ps[k].1].kind.SELL?)
    && (forall k, l :: 0 <= k < l < |ps| ==> ps[k].1 < ps[l].0)
  }

  /** A BUY at `b`, after every exit of the selection. */
  ghost predicate TrailingBuy(signals: seq<Signal>, ps: seq<(nat, nat)>, b: nat) {
    b < |signals| && signals[b].kind.BUY? && forall k :: 0 <= k < |ps| ==> ps[k].1 < b
  }

  lemma {:induction false} GreedyIsSelection(signals: seq<Signal>)
    ensures var m := Greedy(signals);
      && IsSelection(signals, m.pairs)
      && (m.open.Some? ==> TrailingBuy(signals, m.pairs, m.open.value))
  {
    if signals != [] {
      GreedyIsSelection(signals[..|signals| - 1]);
    }
  }

  function Holding(m: Match): nat {
    if m.open.Some? then 1 else 0
  }

  lemma {:induction false} SelectionWithoutLast(signals: seq<Signal>, ps: seq<(nat, nat)>)
    requires IsSelection(signals, ps) && ps != [] && ps[|ps| - 1].1 == |signals| - 1
    ensures var init, last := signals[..|signals| - 1], |ps| - 1;
      IsSelection(init, ps[..last]) && TrailingBuy(init, ps[..last], ps[last].0)
  {
  }

  lemma {:induction false} SelectionEarlier(signals: seq<Signal>, ps: seq<(nat, nat)>)
    requires IsSelection(signals, ps) && signals != [] && (ps == [] || ps[|ps| - 1].1 < |signals| - 1)
    ensures IsSelection(signals[..|signals| - 1], ps)
  {
    forall k | 0 <= k < |ps|
      ensures ps[k].1 < |signals| - 1
    {
      assert ps[k].1 <= ps[|ps| - 1].1;
    }
  }

  /**
   * The two halves of the optimality argument: a selection is no longer than
   * the greedy one, and a selection with a BUY to spare is paid for by a greedy
   * trade more or by an open entry.
   */
  lemma {:induction false} GreedyKeepsUp(signals: seq<Signal>, ps: seq<(nat, nat)>, b: Option<nat>)
    requires IsSelection(signals, ps)
    requires b.Some? ==> TrailingBuy(signals, ps, b.value)
    ensures b.None? ==> |ps| <= |Greedy(signals).pairs|
    ensures b.Some? ==> |ps| + 1 <= |Greedy(signals).pairs| + Holding(Greedy(signals))
    decreases |signals|
  {
    if signals != [] {
      var n := |signals| - 1;
      var init := signals[..n];
      if b.Some? && b.value == n {
        SelectionEarlier(signals, ps);
        GreedyKeepsUp(init, ps, None);
      } else if ps != [] && ps[|ps| - 1].1 == n {
        var last := |ps| - 1;
        SelectionWithoutLast(signals, ps);
        GreedyKeepsUp(init, ps[..last], Some(ps[last].0));
      } else {
        SelectionEarlier(signals, ps);
        GreedyKeepsUp(init, ps, b);
      }
    }
  }

  lemma GreedyOptimal(signals: seq<Signal>, ps: seq<(nat, nat)>)
    requires IsSelection(signals, ps)
    ensures |ps| <= |Greedy(signals).pairs|
  {
    GreedyKeepsUp(signals, ps, None);
  }

  lemma SelectionPrefix(signals: seq<Signal>, ps: seq<(nat, nat)>, k: nat)
    requires IsSelection(signals, ps) && k < |ps|
    ensures IsSelection(signals[..ps[k].1 + 1], ps[..k + 1])
  {
    forall j | 0 <= j < k
      ensures ps[j].1 < ps[k].0
    {
    }
  }

  /** The greedy exits come no later than those of any other selection. */
  lemma GreedyExitsEarliest(signals: seq<Signal>, ps: seq<(nat, nat)>, k: nat)
    requires IsSelection(signals, ps) && k < |ps|
    ensures k < |Greedy(signals).pairs| && Greedy(signals).pairs[k].1 <= ps[k].1
  {
    var n := ps[k].1 + 1;
    var m := Greedy(signals[..n]);
    SelectionPrefix(signals, ps, k);
    GreedyOptimal(signals[..n], ps[..k + 1]);
    GreedyIsSelection(signals[..n]);
    assert m.pairs[k].1 < n;
    GreedyGrows(signals, n);
  }

  /** More signals only add trades after those already taken. */
  lemma {:induction false} GreedyGrows(signals: seq<Signal>, i: nat)
    requires i <= |signals|
    ensures Greedy(signals[..i]).pairs <= Greedy(signals).pairs
  {
    if i < |signals| {
      GreedyGrows(signals[..|signals| - 1], i);
      assert signals[..|signals| - 1][..i] == signals[..i];
    } else {
      assert signals[..i] == signals;
    }
  }

  ghost predicate DateSorted(signals: seq<Signal>) {
    forall i, j :: 0 <= i <= j < |signals| ==> signals[i].date <= signals[j].date
  }

  function Trades(code: string, signals: seq<Signal>, includeCost: bool): (ts: seq<Trade>)
    ensures |ts| == |Greedy(signals).pairs|
  {
    GreedyIsSelection(signals);
    var m := Greedy(signals);
    seq(|m.pairs|, k requires 0 <= k < |m.pairs| =>
      RoundTrip(code, signals[m.pairs[k].0].price, signals[m.pairs[k].0].date, signals[m.pairs[k].1], includeCost))
  }

  /** On date-sorted signals trades are held for no negative time and follow one another. */
  lemma TradesInOrder(code: string, signals: seq<Signal>, includeCost: bool)
    requires DateSorted(signals)
    ensures var ts := Trades(code, signals, includeCost);
      && (forall k :: 0 <= k < |ts| ==> ts[k].holdDays >= 0 && ts[k].entryDate <= ts[k].exitDate)
      && (forall k, l :: 0 <= k < l < |ts| ==> ts[k].exitDate <= ts[l].entryDate)
  {
    GreedyIsSelection(signals);
  }

  // ---------------------------------------------------------------- what a trade says

  /** The trade of a matched pair, in its two signals. */
  ghost predicate TradeOfPair(code: string, buy: Signal, sell: Signal, includeCost: bool, t: Trade) {
    && t.code == code && t.shares == 1000
    && t.entryPrice == buy.price && t.entryDate == buy.date
    && t.exitPrice == sell.price && t.exitDate == sell.date && t.exitReason == sell.reason
    && t.holdDays == sell.date - buy.date
    && t.cost == (if includeCost then 6.85 * ((buy.price + sell.price) / 2.0) else 0.0)
    && t.pnl == 1000.0 * (sell.price - buy.price) - t.cost
    && t.pnlPct == if buy.price != 0.0 then 100.0 * (sell.price / buy.price - 1.0) else 0.0
  }

  ghost predicate TradesOfPairs(code: string, signals: seq<Signal>, includeCost: bool, ts: seq<Trade>) {
    var pairs := Greedy(signals).pairs;
    && |ts| == |pairs|
    && forall k :: 0 <= k < |ts| ==>
         && pairs[k].0 < |signals| && pairs[k].1 < |signals|
         && TradeOfPair(code, signals[pairs[k].0], signals[pairs[k].1], includeCost, ts[k])
  }

  lemma SameQuotient(x: real, y: real, n: real)
    requires n != 0.0 && x * n == y * n
    ensures x == y
  {
    assert (x - y) * n == 0.0;
  }

  lemma GrowthInPercent(entry: real, exit: real)
    requires entry != 0.0
    ensures (exit - entry) / entry * 100.0 == 100.0 * (exit / entry - 1.0)
  {
    var q, g := exit / entry, (exit - entry) / entry;
    assert q * entry == exit && g * entry == exit - entry;
    assert (q - 1.0) * entry == q * entry - entry;
    SameQuotient(g, q - 1.0, entry);
  }

  lemma RoundTripMeans(code: string, buy: Signal, sell: Signal, includeCost: bool)
    ensures TradeOfPair(code, buy, sell, includeCost, RoundTrip(code, buy.price, buy.date, sell, includeCost))
  {
    if buy.price != 0.0 {
      GrowthInPercent(buy.price, sell.price);
    }
  }

  /** The `k`-th trade is that of the `k`-th pair. */
  lemma {:induction false} TradesMean(code: string, signals: seq<Signal>, includeCost: bool)
    ensures TradesOfPairs(code, signals, includeCost, Trades(code, signals, includeCost))
  {
    var pairs := Greedy(signals).pairs;
    GreedyIsSelection(signals);
    forall k | 0 <= k < |pairs|
      ensures var buy, sell := signals[pairs[k].0], signals[pairs[k].1];
        TradeOfPair(code, buy, sell, includeCost, Trades(code, signals, includeCost)[k])
    {
      RoundTripMeans(code, signals[pairs[k].0], signals[pairs[k].1], includeCost);
    }
  }

  function PnlTotal(ts: seq<Trade>): real {
    if ts == [] then 0.0 else PnlTotal(ts[..|ts| - 1]) + ts[|ts| - 1].pnl
  }

  function CostTotal(ts: seq<Trade>): real {
    if ts == [] then 0.0 else CostTotal(ts[..|ts| - 1]) + ts[|ts| - 1].cost
  }

  /** What the exits brought per share less what the entries took. */
  function Spread(signals: seq<Signal>, pairs: seq<(nat, nat)>): real
    requires IsSelection(signals, pairs)
  {
    if pairs == [] then 0.0
    else
      var last := pairs[|pairs| - 1];
      Spread(signals, pairs[..|pairs| - 1]) + signals[last.1].price - signals[last.0].price
  }

  lemma {:induction false} PnlsAddUp(
      code: string, signals: seq<Signal>, includeCost: bool, pairs: seq<(nat, nat)>, ts: seq<Trade>)
    requires IsSelection(signals, pairs) && |ts| == |pairs|
    requires forall k :: 0 <= k < |ts| ==>
      TradeOfPair(code, signals[pairs[k].0], signals[pairs[k].1], includeCost, ts[k])
    ensures PnlTotal(ts) == 1000.0 * Spread(signals, pairs) - CostTotal(ts)
    ensures !includeCost ==> CostTotal(ts) == 0.0
  {
    if ts != [] {
      var n := |ts| - 1;
      PnlsAddUp(code, signals, includeCost, pairs[..n], ts[..n]);
      assert TradeOfPair(code, signals[pairs[n].0], signals[pairs[n].1], includeCost, ts[n]);
    }
  }

  /**
   * The profits of the greedy pairs add up to a thousand times their spread, less
   * the costs; a trade gains exactly if its exit is worth more than its entry
   * and its cost; and including costs lowers each profit by its cost.
   */
  lemma {:induction false} TradeTotals(code: string, signals: seq<Signal>, includeCost: bool, ts: seq<Trade>)
    requires TradesOfPairs(code, signals, includeCost, ts)
    ensures IsSelection(signals, Greedy(signals).pairs)
    ensures PnlTotal(ts) == 1000.0 * Spread(signals, Greedy(signals).pairs) - CostTotal(ts)
    ensures !includeCost ==> CostTotal(ts) == 0.0
    ensures forall k :: 0 <= k < |ts| ==>
      && (ts[k].pnl > 0.0 <==> 1000.0 * (ts[k].exitPrice - ts[k].entryPrice) > ts[k].cost)
      && (!includeCost ==> (ts[k].pnl > 0.0 <==> ts[k].exitPrice > ts[k].entryPrice))
  {
    GreedyIsSelection(signals);
    PnlsAddUp(code, signals, includeCost, Greedy(signals).pairs, ts);
  }

  lemma {:induction false} CostLowers(code: string, signals: seq<Signal>, with: seq<Trade>, without: seq<Trade>)
    requires TradesOfPairs(code, signals, true, with) && TradesOfPairs(code, signals, false, without)
    ensures |with| == |without|
    ensures forall k :: 0 <= k < |with| ==>
      with[k] == without[k].(pnl := without[k].pnl - with[k].cost, cost := with[k].cost)
  {
  }

  /** `_signals_to_trades`. */
  method SignalsToTrades(code: string, signals: seq<Signal>, includeCost: bool) returns (trades: seq<Trade>)
    ensures trades == Trades(code, signals, includeCost)
    ensures TradesOfPairs(code, signals, includeCost, trades)
    ensures forall ps :: IsSelection(signals, ps) ==> |ps| <= |trades|
    ensures DateSorted(signals) ==> forall k :: 0 <= k < |trades| ==> trades[k].holdDays >= 0
  {
    trades := MatchSignals(code, signals, includeCost);
    TradesMean(code, signals, includeCost);
    forall ps | IsSelection(signals, ps)
      ensures |ps| <= |trades|
    {
      GreedyOptimal(signals, ps);
    }
    if DateSorted(signals) {
      TradesInOrder(code, signals, includeCost);
    }
  }

  /** The loop over the signals. */
  method MatchSignals(code: string, signals: seq<Signal>, includeCost: bool) returns (trades: seq<Trade>)
    ensures trades == Trades(code, signals, includeCost)
  {
    trades := [];
    var positionOpen := false;
    var entryPrice, entryDate := 0.0, 0;
    for i := 0 to |signals|
      invariant var m := Greedy(signals[..i]);
        && trades == Trades(code, signals[..i], includeCost)
        && positionOpen == m.open.Some?
        && (m.open.Some? ==> m.open.value < i)
        && (m.open.Some? ==> (entryPrice, entryDate) == (signals[m.open.value].price, signals[m.open.value].date))
    {
      var sig := signals[i];
      assert signals[..i + 1][..i] == signals[..i];
      if sig.kind.BUY? && !positionOpen {
        entryPrice, entryDate := sig.price, sig.date;
        positionOpen := true;
      } else if sig.kind.SELL? && positionOpen {
        trades := trades + [RoundTrip(code, entryPrice, entryDate, sig, includeCost)];
        positionOpen := false;
      }
      TradesStep(code, signals, includeCost, i);
    }
    assert signals[..|signals|] == signals;
  }

  lemma TradesStep(code: string, signals: seq<Signal>, includeCost: bool, i: nat)
    requires i < |signals|
    ensures var m, sig := Greedy(signals[..i]), signals[i];
      && (m.open.Some? ==> m.open.value < i)
      && Trades(code, signals[..i + 1], includeCost)
           == if sig.kind.SELL? && m.open.Some?
              then Trades(code, signals[..i], includeCost)
                     + [RoundTrip(code, signals[m.open.value].price, signals[m.open.value].date, sig, includeCost)]
              else Trades(code, signals[..i], includeCost)
  {
    assert signals[..i + 1][..i] == signals[..i];
    GreedyIsSelection(signals[..i]);
    GreedyIsSelection(signals[..i + 1]);
  }
}
