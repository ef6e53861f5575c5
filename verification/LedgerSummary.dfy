// The summary a paper-trading run reports, and what its figures count.
module LedgerSummary {
  import opened Ledger
  import opened LedgerLifecycle
  import opened LedgerConservation

  datatype Summary = Summary(
    running: bool, capital: real, available: real, totalOrders: nat, filledOrders: nat,
    totalPnl: real, returnPct: real, tradeCount: nat)

  /** The sum of the `pnl` entries of the trade log. */
  function LoggedPnl(log: seq<Trade>): real {
    if log == [] then 0.0 else LoggedPnl(log[..|log| - 1]) + log[|log| - 1].pnl
  }

  function ReturnPct(pnl: real, capital: real): real {
    if capital != 0.0 then pnl / capital * 100.0 else 0.0
  }

  function SummaryOf(a: Account): Summary {
    var pnl := LoggedPnl(a.log);
    Summary(a.started, a.capital, a.cash, |a.book| + |a.fills|, |a.fills|, pnl, ReturnPct(pnl, a.capital), |a.log|)
  }

  /** Commission and tax of the SELL fills. */
  function SaleCharges(r: Rates, os: seq<Order>): real {
    if os == [] then 0.0
    else
      var o := os[|os| - 1];
      SaleCharges(r, os[..|os| - 1]) + if o.req.side.Sell? then ChargeOf(r, o) else 0.0
  }

  lemma {:induction false} CountConcat(xs: seq<Order>, ys: seq<Order>, id: nat)
    ensures Count(xs + ys, id) == Count(xs, id) + Count(ys, id)
  {
    if ys == [] {
      assert xs + ys == xs;
    } else {
      CountConcat(xs, ys[..|ys| - 1], id);
      assert (xs + ys)[..|xs + ys| - 1] == xs + ys[..|ys| - 1];
    }
  }

  lemma {:induction false} LengthWithout(os: seq<Order>, id: nat)
    ensures |Without(os, id)| == |os| - Count(os, id)
  {
    if os != [] {
      LengthWithout(os[..|os| - 1], id);
    }
  }

  lemma {:induction false} SomeId(os: seq<Order>)
    ensures os == [] || exists id: nat :: Count(os, id) > 0
  {
    if os != [] {
      CountMember(os, os[|os| - 1]);
    }
  }

  /** A list with one entry for each id below `n` has `n` entries. */
  lemma {:induction false} OneEach(os: seq<Order>, n: nat)
    requires forall id: nat :: Count(os, id) == if id < n then 1 else 0
    ensures |os| == n
    decreases n
  {
    if n == 0 {
      SomeId(os);
    } else {
      var rest := Without(os, n - 1);
      forall id: nat
        ensures Count(rest, id) == if id < n - 1 then 1 else 0
      {
        CountWithout(os, n - 1, id);
      }
      OneEach(rest, n - 1);
      LengthWithout(os, n - 1);
    }
  }

  lemma {:induction false} PnlIsCharges(os: seq<Order>, log: seq<Trade>, r: Rates)
    requires |log| == |os| && forall i :: 0 <= i < |log| ==> RecordOf(os[i], log[i], r)
    ensures LoggedPnl(log) == -SaleCharges(r, os)
  {
    if os != [] {
      var n := |os| - 1;
      PnlIsCharges(os[..n], log[..n], r);
      assert RecordOf(os[n], log[n], r);
    }
  }

  /**
   * After every run the total counts each order ever placed once, fills and
   * trades are as many, and the profit reported is only what the sales were
   * charged: no gain or loss of a position enters it.
   */
  lemma SummaryOfRun(capital: real, cs: seq<Command>, r: Rates)
    ensures var a := Run(Open(capital), cs, r);
      var s := SummaryOf(a);
      && s.totalOrders == a.nextOrder && s.filledOrders == s.tradeCount
      && s.totalPnl == -SaleCharges(r, a.fills)
  {
    var a := Run(Open(capital), cs, r);
    RunKeepsLifecycle(capital, cs, r);
    forall id: nat
      ensures Count(a.book + a.fills, id) == if id < a.nextOrder then 1 else 0
    {
      CountConcat(a.book, a.fills, id);
      assert Count(a.book, id) + Count(a.fills, id) == if id < a.nextOrder then 1 else 0;
    }
    OneEach(a.book + a.fills, a.nextOrder);
    PnlIsCharges(a.fills, a.log, r);
  }

  /** The other figures are those of the account; the return is the profit in percent of the capital. */
  lemma SummaryFigures(a: Account)
    ensures var s := SummaryOf(a);
      && s.running == a.started && s.capital == a.capital && s.available == a.cash
      && (if a.capital != 0.0 then s.returnPct * a.capital == 100.0 * s.totalPnl else s.returnPct == 0.0)
  {
    ReturnMeans(LoggedPnl(a.log), a.capital);
  }

  lemma ReturnMeans(pnl: real, capital: real)
    ensures if capital != 0.0 then ReturnPct(pnl, capital) * capital == 100.0 * pnl else ReturnPct(pnl, capital) == 0.0
  {
    if capital != 0.0 {
      var q := pnl / capital;
      assert q * capital == pnl;
      assert (q * 100.0) * capital == 100.0 * (q * capital);
    }
  }
}
