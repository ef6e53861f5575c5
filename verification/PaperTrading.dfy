// The objects of the paper-trading engine, updated in place as the source
// updates them, and proved to compute the functions of module Ledger. Each
// container carries a ghost field with the values its objects stand for.
module PaperTrading {
  import opened Common
  import opened Ledger
  import opened LedgerLifecycle
  import opened LedgerSummary

  // ---------------------------------------------------------------- orders

  class PaperOrder {
    const id: nat
    const req: Request
    var status: Status
    var fillPrice: Option<real>
    var reason: string

    constructor (id: nat, req: Request)
      ensures Value() == Order(id, req, Pending, None, req.reason)
      ensures this.id == id
    {
      this.id := id;
      this.req := req;
      status := Pending;
      fillPrice := None;
      reason := req.reason;
    }

    function Value(): Order
      reads this
    {
      Order(id, req, status, fillPrice, reason)
    }
  }

  /** The objects `os` stand for the values `vs`, one by one. */
  ghost predicate Mirrors(os: seq<PaperOrder>, vs: seq<Order>)
    reads os
  {
    && |os| == |vs|
    && forall i :: 0 <= i < |os| ==>
         && os[i].id == vs[i].id && os[i].req == vs[i].req && os[i].status == vs[i].status
         && os[i].fillPrice == vs[i].fillPrice && os[i].reason == vs[i].reason
  }

  function OrderWithout(os: seq<PaperOrder>, id: nat): seq<PaperOrder> {
    if os == [] then []
    else
      var init, last := OrderWithout(os[..|os| - 1], id), os[|os| - 1];
      if last.id == id then init else init + [last]
  }

  function LookUp(os: seq<PaperOrder>, id: nat): (r: Option<PaperOrder>)
    ensures r.Some? ==> r.value in os && r.value.id == id
    ensures r.None? ==> forall o <- os :: o.id != id
  {
    if os == [] then None
    else if os[|os| - 1].id == id then Some(os[|os| - 1])
    else LookUp(os[..|os| - 1], id)
  }

  /** A dictionary: one entry per key. */
  ghost predicate Keyed(os: seq<PaperOrder>) {
    forall i, j :: 0 <= i < j < |os| ==> os[i].id != os[j].id
  }

  lemma {:induction false} OrderWithoutMembers(os: seq<PaperOrder>, id: nat)
    ensures forall o <- OrderWithout(os, id) :: o in os && o.id != id
    ensures forall o <- os :: o.id != id ==> o in OrderWithout(os, id)
    ensures Keyed(os) ==> Keyed(OrderWithout(os, id))
  {
    if os != [] {
      OrderWithoutMembers(os[..|os| - 1], id);
      assert os == os[..|os| - 1] + [os[|os| - 1]];
    }
  }

  lemma {:induction false} WithoutMirrors(os: seq<PaperOrder>, vs: seq<Order>, id: nat)
    requires Mirrors(os, vs)
    ensures Mirrors(OrderWithout(os, id), Without(vs, id))
  {
    if os != [] {
      WithoutMirrors(os[..|os| - 1], vs[..|vs| - 1], id);
    }
  }

  ghost predicate Settled(os: seq<PaperOrder>)
    reads os
  {
    forall i :: 0 <= i < |os| ==> !os[i].status.Pending?
  }

  lemma MirrorsConcat(os: seq<PaperOrder>, vs: seq<Order>, os': seq<PaperOrder>, vs': seq<Order>)
    requires Mirrors(os, vs) && Mirrors(os', vs')
    ensures Mirrors(os + os', vs + vs')
  {
  }

  lemma {:induction false} LookUpMirrors(os: seq<PaperOrder>, vs: seq<Order>, id: nat)
    requires Mirrors(os, vs)
    ensures FindOrder(vs, id) == if LookUp(os, id).Some? then Some(LookUp(os, id).value.Value()) else None
  {
    if os != [] {
      LookUpMirrors(os[..|os| - 1], vs[..|vs| - 1], id);
    }
  }

  /** What is known under an id of a dictionary is the one entry with that id. */
  lemma {:induction false} OneEntry(os: seq<PaperOrder>, vs: seq<Order>, id: nat)
    requires Keyed(os) && Mirrors(os, vs)
    ensures forall o <- vs :: o.id == id ==> FindOrder(vs, id) == Some(o)
  {
    forall o | o in vs && o.id == id
      ensures FindOrder(vs, id) == Some(o)
    {
      var i :| 0 <= i < |vs| && vs[i] == o;
      var found := FindOrder(vs, id).value;
      var j :| 0 <= j < |vs| && vs[j] == found;
      assert os[i].id == os[j].id;
    }
  }

  // ---------------------------------------------------------------- positions

  /** Positions are kept as values: only the store that owns them ever touches one. */
  class PortfolioManager {
    var positions: seq<Position>
    var closed: seq<Position>
    var nextJournal: nat

    constructor ()
      ensures positions == [] && closed == [] && nextJournal == 0
    {
      positions, closed, nextJournal := [], [], 0;
    }

    method AddPosition(p: Position) returns (id: nat)
      requires p.journalId == nextJournal
      modifies this
      ensures id == p.journalId && nextJournal == old(nextJournal) + 1
      ensures positions == old(positions) + [p] && closed == old(closed)
    {
      id := nextJournal;
      nextJournal := nextJournal + 1;
      positions := positions + [p];
    }

    method ClosePosition(id: nat, price: real, why: string)
      modifies this
      ensures nextJournal == old(nextJournal)
      ensures positions == WithoutPosition(old(positions), id)
      ensures var p := FindPosition(old(positions), id);
        closed == old(closed) +
          if p.None? then [] else [Exited(p.value, price, why)]
    {
      var p := FindPosition(positions, id);
      positions := WithoutPosition(positions, id);
      if p.Some? {
        closed := closed + [Exited(p.value, price, why)];
      }
    }

    /** The open positions of one market, or of all. */
    method GetOpenPositions(market: Option<Market>) returns (r: seq<Position>)
      ensures r == Listed(positions, market)
    {
      r := [];
      for i := 0 to |positions|
        invariant r == Listed(positions[..i], market)
      {
        assert positions[..i + 1][..i] == positions[..i];
        if market.None? || positions[i].market == market.value {
          r := r + [positions[i]];
        }
      }
      assert positions[..|positions|] == positions;
    }
  }

  function Listed(ps: seq<Position>, market: Option<Market>): seq<Position> {
    if ps == [] then []
    else
      var init, p := Listed(ps[..|ps| - 1], market), ps[|ps| - 1];
      if market.None? || p.market == market.value then init + [p] else init
  }

  lemma {:induction false} AllListed(ps: seq<Position>)
    ensures Listed(ps, None) == ps
  {
    if ps != [] {
      AllListed(ps[..|ps| - 1]);
    }
  }

  predicate InMarket(p: Position, market: Option<Market>) {
    market.Some? ==> p.market == market.value
  }

  /**
   * The list is the positions of that market, or all, each once and in order:
   * the `k`-th one listed stands at `at[k]`, and nothing of the market is left out.
   */
  lemma {:induction false} ListedMeans(ps: seq<Position>, market: Option<Market>) returns (at: seq<nat>)
    ensures |at| == |Listed(ps, market)|
    ensures forall k :: 0 <= k < |at| ==> at[k] < |ps| && Listed(ps, market)[k] == ps[at[k]]
    ensures forall j, k :: 0 <= j < k < |at| ==> at[j] < at[k]
    ensures forall i :: 0 <= i < |ps| ==> (i in at <==> InMarket(ps[i], market))
  {
    at := [];
    if ps != [] {
      at := ListedMeans(ps[..|ps| - 1], market);
      if InMarket(ps[|ps| - 1], market) {
        at := at + [|ps| - 1];
      }
    }
  }

  lemma {:induction false} NothingWithout(ps: seq<Position>, id: nat)
    requires FindPosition(ps, id).None?
    ensures WithoutPosition(ps, id) == ps
  {
    if ps != [] {
      NothingWithout(ps[..|ps| - 1], id);
    }
  }

  // ---------------------------------------------------------------- the engine

  class PaperTradingEngine {
    const rates: Rates
    const portfolio: PortfolioManager
    var started: bool
    var capital: real
    var cash: real
    var orders: seq<PaperOrder>
    var fills: seq<PaperOrder>
    var log: seq<Trade>
    var nextOrder: nat
    /** The account these objects stand for. */
    ghost var view: Account

    constructor (portfolio: PortfolioManager, capital: real, rates: Rates)
      requires portfolio.positions == [] && portfolio.closed == []
      requires portfolio.nextJournal == 0
      ensures Valid() && view == Open(capital) && this.rates == rates && this.portfolio == portfolio
    {
      this.portfolio := portfolio;
      this.rates := rates;
      this.started := false;
      this.capital := capital;
      this.cash := capital;
      orders, fills, log, nextOrder := [], [], [], 0;
      view := Open(capital);
    }

    ghost predicate Valid()
      reads this, portfolio, orders, fills
    {
      && Keyed(orders)
      && (forall o <- orders :: o.id < nextOrder && !o.status.Filled?)
      && (forall f <- fills :: f.status.Filled?)
      && Mirrors(orders, view.book)
      && Mirrors(fills, view.fills)
      && view == Account(started, capital, cash, view.book, view.fills, log,
                         portfolio.positions, portfolio.closed, nextOrder, portfolio.nextJournal)
    }

    method Start(initial: Option<real>)
      requires Valid()
      modifies this
      ensures Valid() && view == StartWith(old(view), initial)
    {
      if initial.Some? && initial.value != 0.0 {
        capital := initial.value;
        cash := initial.value;
      }
      started := true;
      view := StartWith(view, initial);
    }

    method Stop() returns (s: Summary)
      requires Valid()
      modifies this
      ensures Valid() && view == old(view).(started := false)
      ensures s == SummaryOf(view)
    {
      started := false;
      view := view.(started := false);
      s := GetSummary();
    }

    method GetSummary() returns (s: Summary)
      requires Valid()
      ensures s == SummaryOf(view)
    {
      var pnl := 0.0;
      for i := 0 to |log|
        invariant pnl == LoggedPnl(log[..i])
      {
        assert log[..i + 1][..i] == log[..i];
        pnl := pnl + log[i].pnl;
      }
      assert log[..|log|] == log;
      s := Summary(started, capital, cash, |orders| + |fills|, |fills|, pnl, ReturnPct(pnl, capital), |log|);
    }

    method CancelOrder(id: nat) returns (ok: bool)
      requires Valid()
      modifies this`view, orders
      ensures Valid() && view == Cancel(old(view), id)
      ensures ok <==> exists o <- old(view).book :: o.id == id && o.status.Pending?
    {
      LookUpMirrors(orders, view.book, id);
      OneEntry(orders, view.book, id);
      var found := LookUp(orders, id);
      ok := found.Some? && found.value.status.Pending?;
      if ok {
        MarkCancelled(found.value);
      }
    }

    method MarkCancelled(order: PaperOrder)
      requires Valid() && order in orders
      modifies this`view, order
      ensures Valid() && view == old(view).(book := Replace(old(view).book, old(order.Value()).(status := Cancelled)))
    {
      order.status := Cancelled;
      view := view.(book := Replace(view.book, order.Value()));
    }

    /** `_fill_order`. */
    method FillOrder(order: PaperOrder, price: real)
      requires Valid() && order in orders
      modifies this, order, portfolio
      ensures Valid()
      ensures Placed(view, order.Value()) == Fill(old(view), old(order.Value()), price, rates)
      ensures forall o <- old(orders) :: o != order ==> o in orders
    {
      var c := ChargesOf(order.Value(), price, rates);
      if order.req.side.Buy? {
        if c.cost + c.commission > cash {
          RejectOrder(order, INSUFFICIENT);
          return;
        }
        TakePosition(order, price, c.cost + c.commission);
      } else {
        TakeProceeds(c.cost - c.commission - c.tax);
      }
      CompleteOrder(order, price, c);
    }

    method TakeProceeds(amount: real)
      requires Valid()
      modifies this`cash, this`view
      ensures Valid() && view == old(view).(cash := old(view).cash + amount)
    {
      cash := cash + amount;
      view := view.(cash := cash);
    }

    method RejectOrder(order: PaperOrder, why: string)
      requires Valid() && order in orders
      modifies this`view, order
      ensures Valid()
      ensures Placed(view, order.Value()) == Reject(old(view), old(order.Value()), why)
    {
      order.status := Rejected;
      order.reason := why;
      view := view.(book := Replace(view.book, order.Value()));
    }

    /** The cash leaves and the position is added. */
    method TakePosition(order: PaperOrder, price: real, total: real)
      requires Valid() && order in orders
      modifies this`cash, this`view, portfolio
      ensures Valid()
      ensures var a := old(view);
        view == a.(cash := a.cash - total,
                   open := a.open + [OpenFor(order.Value(), price, a.nextJournal)],
                   nextJournal := a.nextJournal + 1)
    {
      var held := OpenFor(order.Value(), price, portfolio.nextJournal);
      cash := cash - total;
      var _ := portfolio.AddPosition(held);
      view := view.(cash := cash, open := view.open + [held], nextJournal := view.nextJournal + 1);
    }

    /** The order leaves the book; the fill and its trade record are appended. */
    method CompleteOrder(order: PaperOrder, price: real, c: Charges)
      requires Valid() && order in orders
      modifies this`orders, this`fills, this`log, this`view, order
      ensures Valid()
      ensures Placed(view, order.Value()) == Complete(old(view), old(order.Value()), price, c)
      ensures forall o <- old(orders) :: o != order ==> o in orders
    {
      PopOrder(order);
      AppendFill(order, price, c);
    }

    method PopOrder(order: PaperOrder)
      requires Valid() && order in orders
      modifies this`orders, this`view
      ensures Valid() && order !in orders
      ensures view == old(view).(book := Without(old(view).book, order.id))
      ensures forall o <- old(orders) :: o != order ==> o in orders
    {
      WithoutMirrors(orders, view.book, order.id);
      OrderWithoutMembers(orders, order.id);
      orders := OrderWithout(orders, order.id);
      view := view.(book := Without(view.book, order.id));
    }

    method AppendFill(order: PaperOrder, price: real, c: Charges)
      requires Valid() && order !in orders && !order.status.Filled?
      modifies this`fills, this`log, this`view, order
      ensures Valid()
      ensures var o := old(order.Value());
        && order.Value() == o.(status := Filled, fillPrice := Some(price))
        && view == old(view).(fills := old(view).fills + [order.Value()],
                              log := old(view).log + [TradeOf(o, price, c)])
    {
      order.status := Filled;
      order.fillPrice := Some(price);
      fills := fills + [order];
      log := log + [TradeOf(order.Value(), price, c)];
      view := view.(fills := view.fills + [order.Value()], log := log);
    }

    /** `place_order`: an order of its own, filled at once if it is a market order. */
    method PlaceOrder(req: Request, q: Quotes) returns (r: Result<PaperOrder>)
      requires Valid()
      modifies this, portfolio
      ensures Valid()
      ensures r.Err? <==> !old(started)
      ensures r.Err? ==> view == old(view)
      ensures r.Ok? ==> fresh(r.value) && Placed(view, r.value.Value()) == Place(old(view), req, q, rates)
    {
      if !started {
        return Err("Paper trading not started");
      }
      var order := BookOrder(req);
      if req.limit.None? {
        FillMarketOrder(order, q);
      }
      r := Ok(order);
    }

    method BookOrder(req: Request) returns (order: PaperOrder)
      requires Valid()
      modifies this`orders, this`nextOrder, this`view
      ensures Valid() && fresh(order) && order in orders
      ensures order.Value() == NewOrder(old(view), req) && view == Booked(old(view), req)
    {
      order := new PaperOrder(nextOrder, req);
      orders := orders + [order];
      nextOrder := nextOrder + 1;
      view := Booked(view, req);
    }

    /** `_try_fill_market`. */
    method FillMarketOrder(order: PaperOrder, q: Quotes)
      requires Valid() && order in orders
      modifies this, order, portfolio
      ensures Valid()
      ensures Placed(view, order.Value()) == TryFillMarket(old(view), old(order.Value()), q, rates)
    {
      var key := (order.req.code, order.req.market);
      if key in q {
        FillOrder(order, q[key]);
      } else {
        RejectOrder(order, NO_QUOTE);
      }
    }

    /** `check_and_fill_pending`: both passes, or the error the second one left through. */
    method CheckAndFillPending(decide: Quotes, fill: Quotes) returns (r: Result<seq<PaperOrder>>)
      requires Valid()
      modifies this, portfolio, orders
      ensures Valid()
      ensures view == Sweep(old(view), decide, fill, rates).account
      ensures r.Err? <==> Sweep(old(view), decide, fill, rates).raised
      ensures r.Ok? ==> Mirrors(r.value, Sweep(old(view), decide, fill, rates).returned)
    {
      var filled := FillPending(decide);
      ghost var s := FillPass(old(view), old(view).book, decide, rates);
      StopPassAppends(s, view.open, decide, fill, rates);
      assert s.(returned := []) == Swept(view, [], false);
      var triggered := CheckStopTake(decide, fill);
      if triggered.Err? {
        return triggered;
      }
      MirrorsConcat(filled, s.returned, triggered.value,
                    StopPass(s.(returned := []), s.account.open, decide, fill, rates).returned);
      r := Ok(filled + triggered.value);
    }

    /** From `i` on, the snapshot is still in the book, with the values it had. */
    ghost predicate Ahead(snapshot: seq<PaperOrder>, values: seq<Order>, i: nat)
      reads this, snapshot
    {
      && |values| == |snapshot|
      && forall j :: i <= j < |snapshot| ==> snapshot[j] in orders && snapshot[j].Value() == values[j]
    }

    /** The limit-order loop, over a snapshot of the book. */
    method FillPending(q: Quotes) returns (filled: seq<PaperOrder>)
      requires Valid()
      modifies this, portfolio, orders
      ensures Valid()
      ensures var s := FillPass(old(view), old(view).book, q, rates);
        view == s.account && !s.raised && Mirrors(filled, s.returned)
    {
      filled := [];
      var snapshot := orders;
      ghost var values := view.book;
      ghost var s := Swept(view, [], false);
      for i := 0 to |snapshot|
        invariant Valid() && s == FillPass(old(view), values[..i], q, rates)
        invariant view == s.account && !s.raised && Mirrors(filled, s.returned)
        invariant Ahead(snapshot, values, i) && Settled(filled)
      {
        FillPassNext(old(view), values, i, q, rates);
        filled := FillIfDue(snapshot, i, q, filled, s, values);
        s := FillPass(old(view), values[..i + 1], q, rates);
      }
      assert values[..|snapshot|] == values;
    }

    method FillIfDue(snapshot: seq<PaperOrder>, i: nat, q: Quotes, filled: seq<PaperOrder>,
                     ghost s: Swept, ghost values: seq<Order>)
      returns (filled': seq<PaperOrder>)
      requires Valid() && Keyed(snapshot) && i < |snapshot|
      requires Ahead(snapshot, values, i) && Settled(filled)
      requires view == s.account && Mirrors(filled, s.returned)
      modifies this, portfolio, snapshot[i]
      ensures Valid()
      ensures Ahead(snapshot, values, i + 1) && Settled(filled')
      ensures var t := FillStep(s, values[i], q, rates);
        view == t.account && Mirrors(filled', t.returned)
    {
      filled' := filled;
      var order := snapshot[i];
      if Due(order.Value(), q) {
        FillOrder(order, q[(order.req.code, order.req.market)]);
        filled' := filled + [order];
      }
    }

    /** `_check_stop_take`, over copies of the open positions. */
    method CheckStopTake(decide: Quotes, fill: Quotes) returns (r: Result<seq<PaperOrder>>)
      requires Valid()
      modifies this, portfolio
      ensures Valid()
      ensures var t := StopPass(Swept(old(view), [], false), old(view).open, decide, fill, rates);
        && view == t.account
        && (r.Err? <==> t.raised)
        && (r.Ok? ==> Mirrors(r.value, t.returned))
    {
      var snapshot := portfolio.GetOpenPositions(None);
      AllListed(portfolio.positions);
      r := ExitBreached(snapshot, decide, fill);
    }

    method ExitBreached(snapshot: seq<Position>, decide: Quotes, fill: Quotes) returns (r: Result<seq<PaperOrder>>)
      requires Valid()
      modifies this, portfolio
      ensures Valid()
      ensures var t := StopPass(Swept(old(view), [], false), snapshot, decide, fill, rates);
        && view == t.account
        && (r.Err? <==> t.raised)
        && (r.Ok? ==> Mirrors(r.value, t.returned))
    {
      var triggered: seq<PaperOrder> := [];
      ghost var start := Swept(view, [], false);
      ghost var s := start;
      for i := 0 to |snapshot|
        invariant Valid() && s == StopPass(start, snapshot[..i], decide, fill, rates)
        invariant view == s.account && !s.raised && Mirrors(triggered, s.returned)
      {
        StopPassNext(start, snapshot, i, decide, fill, rates);
        var next := ExitIfBreached(snapshot[i], decide, fill, triggered, s);
        s := StopPass(start, snapshot[..i + 1], decide, fill, rates);
        if next.Err? {
          StopPassRaised(start, snapshot, i + 1, decide, fill, rates);
          return next;
        }
        triggered := next.value;
      }
      assert snapshot[..|snapshot|] == snapshot;
      r := Ok(triggered);
    }

    /** One position: the list with its exit order appended, if it is breached and the order fills. */
    method ExitIfBreached(
        pos: Position, decide: Quotes, fill: Quotes, triggered: seq<PaperOrder>, ghost s: Swept)
      returns (r: Result<seq<PaperOrder>>)
      requires Valid()
      requires view == s.account && !s.raised && Mirrors(triggered, s.returned)
      modifies this, portfolio
      ensures Valid()
      ensures var t := StopStep(s, pos, decide, fill, rates);
        && view == t.account
        && (r.Err? <==> t.raised)
        && (r.Ok? ==> Mirrors(r.value, t.returned))
    {
      r := Ok(triggered);
      if Breached(pos, decide) {
        var price := decide[(pos.code, pos.market)];
        var placed := ExitPosition(pos, price, Trigger(pos, price).value, fill);
        if placed.Err? {
          r := Err(placed.error);
        } else if placed.value.status.Filled? {
          r := Ok(triggered + [placed.value]);
        }
      }
    }

    /** The exit order of a breached position and, if it fills, the close. */
    method ExitPosition(pos: Position, price: real, why: string, q: Quotes) returns (r: Result<PaperOrder>)
      requires Valid()
      modifies this, portfolio
      ensures Valid()
      ensures r.Err? <==> !old(started)
      ensures r.Err? ==> view == old(view)
      ensures r.Ok? ==> var p := Place(old(view), ExitRequest(pos, why), q, rates);
        && r.value.Value() == p.order
        && view == if p.order.status.Filled? then Close(p.account, pos.journalId, price, why) else p.account
    {
      r := PlaceOrder(ExitRequest(pos, why), q);
      if r.Ok? && r.value.status.Filled? {
        CloseHeld(pos.journalId, price, why);
      }
    }

    method CloseHeld(id: nat, price: real, why: string)
      requires Valid()
      modifies this`view, portfolio
      ensures Valid() && view == Close(old(view), id, price, why)
    {
      if FindPosition(view.open, id).None? {
        NothingWithout(view.open, id);
      }
      portfolio.ClosePosition(id, price, why);
      view := Close(view, id, price, why);
    }
  }

  lemma {:induction false} StopPassRaised(
      s: Swept, ps: seq<Position>, i: nat, d: Quotes, f: Quotes, r: Rates)
    requires i <= |ps| && StopPass(s, ps[..i], d, f, r).raised
    ensures StopPass(s, ps, d, f, r) == StopPass(s, ps[..i], d, f, r)
  {
    if i == |ps| {
      assert ps[..i] == ps;
    } else {
      var init := ps[..|ps| - 1];
      assert init[..i] == ps[..i];
      StopPassRaised(s, init, i, d, f, r);
    }
  }

  /** The stop pass only appends to what the limit pass returned. */
  lemma {:induction false} StopPassAppends(s: Swept, ps: seq<Position>, d: Quotes, f: Quotes, r: Rates)
    ensures var t, u := StopPass(s.(returned := []), ps, d, f, r), StopPass(s, ps, d, f, r);
      u == t.(returned := s.returned + t.returned)
  {
    if ps != [] {
      StopPassAppends(s, ps[..|ps| - 1], d, f, r);
    }
  }
}
