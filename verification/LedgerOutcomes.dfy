// What the operations of the paper-trading ledger come to, order by order and
// position by position, in prices, shares and rates alone.
module LedgerOutcomes {
  import opened Common
  import opened Ledger
  import opened LedgerLifecycle
  import opened LedgerHistory
  import opened LedgerConservation
  import opened LedgerSweep

  /** What a BUY takes and a SELL brings at this price, charges included. */
  function Outlay(req: Request, price: real, r: Rates): real {
    price * req.shares as real * (1.0 + r.commission)
  }

  function Proceeds(req: Request, price: real, r: Rates): real {
    price * req.shares as real * (1.0 - r.commission - r.tax)
  }

  lemma ChargesAdd(cost: real, c: real, t: real)
    ensures cost + cost * c == cost * (1.0 + c)
    ensures cost - cost * c - cost * t == cost * (1.0 - c - t)
  {
  }

  lemma ChargesMean(o: Order, price: real, r: Rates)
    ensures o.req.side.Buy? ==> Cost(o, price) + Commission(o, price, r) == Outlay(o.req, price, r)
    ensures o.req.side.Sell? ==>
      Cost(o, price) - Commission(o, price, r) - Tax(o, price, r) == Proceeds(o.req, price, r)
  {
    ChargesAdd(Cost(o, price), r.commission, r.tax);
  }

  /** The position a BUY at this price opens. */
  function Opened(req: Request, price: real, journalId: nat, reason: string): Position {
    var stop := if req.stop.Some? && req.stop.value != 0.0 then req.stop.value else price * 0.95;
    Position(journalId, req.code, req.market, price, req.shares, stop, req.take, reason, None, "", true)
  }

  /** The record of a fill at this price; a SELL shows its charges as a loss. */
  function Recorded(id: nat, req: Request, price: real, r: Rates): Trade {
    var value := price * req.shares as real;
    var tax := if req.side.Sell? then value * r.tax else 0.0;
    Trade(id, req.code, req.side, req.shares, price, value * r.commission, tax,
          if req.side.Sell? then -(value * r.commission) - tax else 0.0)
  }

  // ---------------------------------------------------------------- one fill

  /** The order `o` after a fill at `price` took `a` to `b`. */
  ghost predicate BoughtAt(a: Account, b: Account, o: Order, o': Order, price: real, r: Rates) {
    && o' == Order(o.id, o.req, Filled, Some(price), o.reason)
    && b.cash == a.cash - Outlay(o.req, price, r)
    && b.open == a.open + [Opened(o.req, price, a.nextJournal, o.reason)]
    && b.fills == a.fills + [o'] && b.log == a.log + [Recorded(o.id, o.req, price, r)]
    && b.closed == a.closed && b.capital == a.capital && b.started == a.started
    && b.nextJournal == a.nextJournal + 1 && b.nextOrder == a.nextOrder
  }

  ghost predicate SoldAt(a: Account, b: Account, o: Order, o': Order, price: real, r: Rates) {
    && o' == Order(o.id, o.req, Filled, Some(price), o.reason)
    && b.cash == a.cash + Proceeds(o.req, price, r)
    && b.fills == a.fills + [o'] && b.log == a.log + [Recorded(o.id, o.req, price, r)]
    && b.open == a.open && b.closed == a.closed && b.capital == a.capital && b.started == a.started
    && b.nextJournal == a.nextJournal && b.nextOrder == a.nextOrder
  }

  /** Only the book differs. */
  ghost predicate TurnedAway(a: Account, b: Account, o: Order, o': Order, why: string) {
    && o' == Order(o.id, o.req, Rejected, o.fillPrice, why)
    && b == a.(book := b.book)
  }

  lemma {:induction false} FillOutcome(a: Account, o: Order, price: real, r: Rates)
    ensures var p := Fill(a, o, price, r);
      if o.req.side.Sell? then SoldAt(a, p.account, o, p.order, price, r)
      else if Outlay(o.req, price, r) <= a.cash then BoughtAt(a, p.account, o, p.order, price, r)
      else TurnedAway(a, p.account, o, p.order, "Insufficient capital")
    ensures var p := Fill(a, o, price, r);
      p.account.book == if p.order.status.Filled? then Without(a.book, o.id) else Replace(a.book, p.order)
  {
    ChargesMean(o, price, r);
    RecordMeans(o, price, r);
    OpeningMeans(o, price, a.nextJournal);
    var c := ChargesOf(o, price, r);
    var p := Fill(a, o, price, r);
    assert TradeOf(o, price, c) == Recorded(o.id, o.req, price, r);
    if o.req.side.Sell? {
      assert p.account.cash == a.cash + (c.cost - c.commission - c.tax);
    } else if c.cost + c.commission <= a.cash {
      assert p.account.cash == a.cash - (c.cost + c.commission);
    }
  }

  lemma RecordMeans(o: Order, price: real, r: Rates)
    ensures TradeOf(o, price, ChargesOf(o, price, r)) == Recorded(o.id, o.req, price, r)
  {
  }

  lemma OpeningMeans(o: Order, price: real, journalId: nat)
    ensures OpenFor(o, price, journalId) == Opened(o.req, price, journalId, o.reason)
  {
  }

  lemma {:induction false} NoneWithout(os: seq<Order>, id: nat)
    requires Count(os, id) == 0
    ensures Without(os, id) == os && forall o <- os :: o.id != id
  {
    if os != [] {
      NoneWithout(os[..|os| - 1], id);
      assert os == os[..|os| - 1] + [os[|os| - 1]];
    }
  }

  lemma {:induction false} NewestChanged(book: seq<Order>, o: Order, o': Order)
    requires o'.id == o.id && forall x <- book :: x.id != o.id
    ensures Replace(book + [o], o') == book + [o']
  {
    var changed := Replace(book + [o], o');
    assert changed[|book|] == o';
    forall i | 0 <= i < |book|
      ensures changed[i] == book[i]
    {
      assert book[i] in book && (book + [o])[i] == book[i];
    }
  }

  /** Dropping or changing the newest order of a book leaves the others. */
  lemma {:induction false} NewestOnly(book: seq<Order>, o: Order, o': Order)
    requires Count(book, o.id) == 0 && o'.id == o.id
    ensures Without(book + [o], o.id) == book
    ensures Replace(book + [o], o') == book + [o']
  {
    NoneWithout(book, o.id);
    NewestChanged(book, o, o');
    assert (book + [o])[..|book|] == book;
  }

  // ---------------------------------------------------------------- placing an order

  /** A limit order is put in the book and nothing else happens. */
  lemma {:induction false} LimitOrderWaits(a: Account, req: Request, q: Quotes, r: Rates)
    requires req.limit.Some?
    ensures var o := Order(a.nextOrder, req, Pending, None, req.reason);
      Place(a, req, q, r) == Placed(a.(book := a.book + [o], nextOrder := a.nextOrder + 1), o)
  {
  }

  /** The account with one order more handed out, and the order in question not yet in the book. */
  function Handed(a: Account): Account {
    a.(nextOrder := a.nextOrder + 1)
  }

  /**
   * A quoted market BUY fills at the quote exactly if the cash covers it with
   * its commission; otherwise it is rejected and stays in the book.
   */
  lemma {:induction false} MarketBuyOutcome(a: Account, req: Request, q: Quotes, r: Rates)
    requires OrdersPlacedOnce(a) && req.limit.None? && req.side.Buy? && (req.code, req.market) in q
    ensures var p, x := Place(a, req, q, r), q[(req.code, req.market)];
      var o := Order(a.nextOrder, req, Pending, None, req.reason);
      if Outlay(req, x, r) <= a.cash then
        BoughtAt(Handed(a), p.account, o, p.order, x, r) && p.account.book == a.book
      else
        && TurnedAway(Handed(a), p.account, o, p.order, "Insufficient capital")
        && p.account.book == a.book + [p.order]
  {
    MarketOutcome(a, req, q, r);
  }

  /** A quoted market SELL always fills at the quote. */
  lemma {:induction false} MarketSellOutcome(a: Account, req: Request, q: Quotes, r: Rates)
    requires OrdersPlacedOnce(a) && req.limit.None? && req.side.Sell? && (req.code, req.market) in q
    ensures var p, x := Place(a, req, q, r), q[(req.code, req.market)];
      var o := Order(a.nextOrder, req, Pending, None, req.reason);
      SoldAt(Handed(a), p.account, o, p.order, x, r) && p.account.book == a.book
  {
    MarketOutcome(a, req, q, r);
  }

  /** A market order is turned away for want of a quote exactly when there is none. */
  lemma {:induction false} NoQuoteOutcome(a: Account, req: Request, q: Quotes, r: Rates)
    requires OrdersPlacedOnce(a) && req.limit.None?
    ensures var p := Place(a, req, q, r);
      && (p.order.status.Rejected? && p.order.reason == NO_QUOTE <==> (req.code, req.market) !in q)
      && ((req.code, req.market) !in q ==>
            && TurnedAway(Handed(a), p.account, Order(a.nextOrder, req, Pending, None, req.reason), p.order, NO_QUOTE)
            && p.account.book == a.book + [p.order])
  {
    var o := NewOrder(a, req);
    assert Count(a.book, o.id) + Count(a.fills, o.id) == 0;
    NewestOnly(a.book, o, o.(status := Rejected, reason := NO_QUOTE));
    assert NO_QUOTE[0] != INSUFFICIENT[0];
    if OrderKey(o) in q {
      FillOutcome(Booked(a, req), o, q[OrderKey(o)], r);
      assert "Insufficient capital"[0] != NO_QUOTE[0];
    }
  }

  lemma {:induction false} MarketOutcome(a: Account, req: Request, q: Quotes, r: Rates)
    requires OrdersPlacedOnce(a) && req.limit.None? && (req.code, req.market) in q
    ensures var p, x := Place(a, req, q, r), q[(req.code, req.market)];
      var o := Order(a.nextOrder, req, Pending, None, req.reason);
      && (if req.side.Sell? then SoldAt(Handed(a), p.account, o, p.order, x, r)
          else if Outlay(req, x, r) <= a.cash then BoughtAt(Handed(a), p.account, o, p.order, x, r)
          else TurnedAway(Handed(a), p.account, o, p.order, "Insufficient capital"))
      && p.account.book == if p.order.status.Filled? then a.book else a.book + [p.order]
  {
    var o, x := NewOrder(a, req), q[(req.code, req.market)];
    var b := Booked(a, req);
    var p := Place(a, req, q, r);
    assert p == Fill(b, o, x, r);
    assert Count(a.book, o.id) + Count(a.fills, o.id) == 0;
    FillOutcome(b, o, x, r);
    NewestOnly(a.book, o, p.order);
  }

  // ---------------------------------------------------------------- cancelling and starting

  /** A PENDING order of the book ends CANCELLED, and nothing else changes. */
  lemma {:induction false} CancelOutcome(a: Account, i: nat)
    requires OrdersPlacedOnce(a) && i < |a.book| && a.book[i].status.Pending?
    ensures var o := a.book[i];
      Cancel(a, o.id) == a.(book := a.book[i := Order(o.id, o.req, Cancelled, o.fillPrice, o.reason)])
  {
    var o := a.book[i];
    var found := FindOrder(a.book, o.id).value;
    SameIdSameOrder(a, o, found);
    var o' := o.(status := Cancelled);
    forall j | 0 <= j < |a.book|
      ensures Replace(a.book, o')[j] == a.book[i := o'][j]
    {
      if j < i {
        IdsDiffer(a, j, i);
      } else if i < j {
        IdsDiffer(a, i, j);
      }
    }
    assert Replace(a.book, o') == a.book[i := o'];
  }

  /** An unknown id, and one whose order is no longer PENDING, change nothing. */
  lemma {:induction false} CancelSpares(a: Account, id: nat)
    requires OrdersPlacedOnce(a) && forall o <- a.book :: o.id == id ==> !o.status.Pending?
    ensures Cancel(a, id) == a
  {
  }

  /** A non-zero capital replaces the capital and the cash; otherwise only the flag is set. */
  lemma {:induction false} StartOutcome(a: Account, capital: Option<real>, r: Rates)
    ensures var b := Step(a, Start(capital), r);
      && b.started
      && (if capital.Some? && capital.value != 0.0 then b.capital == b.cash == capital.value
          else b.capital == a.capital && b.cash == a.cash)
      && b == a.(started := true, capital := b.capital, cash := b.cash)
  {
  }

  // ---------------------------------------------------------------- limit orders in a sweep

  /** The order's limit is met at this price. */
  predicate LimitMet(o: Order, price: real) {
    && o.req.limit.Some?
    && (o.req.side.Buy? ==> price <= o.req.limit.value)
    && (o.req.side.Sell? ==> price >= o.req.limit.value)
  }

  /** The `i`-th order of the book, at its turn in the limit pass. */
  lemma {:induction false} LimitTurnOutcome(a: Account, i: nat, q: Quotes, r: Rates)
    requires Lifecycle(a, r) && i < |a.book|
    ensures var o, s, t := a.book[i], FillPass(a, a.book[..i], q, r), FillPass(a, a.book[..i + 1], q, r);
      var key := (o.req.code, o.req.market);
      if o.status.Pending? && key in q && LimitMet(o, q[key]) then
        && |t.returned| == |s.returned| + 1 && t.returned[..|s.returned|] == s.returned
        && var o' := t.returned[|s.returned|];
           if o.req.side.Sell? then SoldAt(s.account, t.account, o, o', q[key], r)
           else if Outlay(o.req, q[key], r) <= s.account.cash then BoughtAt(s.account, t.account, o, o', q[key], r)
           else TurnedAway(s.account, t.account, o, o', "Insufficient capital") && o' in t.account.book
      else t == s
  {
    var o, s := a.book[i], FillPass(a, a.book[..i], q, r);
    FillPassReach(a, i + 1, q, r);
    if Due(o, q) {
      FillOutcome(s.account, o, q[OrderKey(o)], r);
      FillAccounts(s.account, o, q[OrderKey(o)], r);
    }
  }

  lemma {:induction false} FillPassLater(a: Account, i: nat, j: nat, q: Quotes, r: Rates)
    requires Lifecycle(a, r) && i <= j <= |a.book|
    ensures var s, t := FillPass(a, a.book[..i], q, r), FillPass(a, a.book[..j], q, r);
      Extends(s.account, t.account)
  {
    var s := FillPass(a, a.book[..i], q, r);
    if i == j {
      ExtendsSelf(s.account);
    } else {
      var t, u := FillPass(a, a.book[..j - 1], q, r), FillPass(a, a.book[..j], q, r);
      FillPassLater(a, i, j - 1, q, r);
      FillPassReach(a, j, q, r);
      FillStepExtends(t, a.book[j - 1], q, r);
      ExtendsTransitive(s.account, t.account, u.account);
    }
  }

  lemma {:induction false} SweepAfterTurn(a: Account, i: nat, d: Quotes, f: Quotes, r: Rates)
    requires Lifecycle(a, r) && i <= |a.book|
    ensures Extends(FillPass(a, a.book[..i], d, r).account, Sweep(a, d, f, r).account)
  {
    var s := FillPass(a, a.book, d, r);
    assert a.book[..|a.book|] == a.book;
    FillPassLater(a, i, |a.book|, d, r);
    FillPassKeeps(a, |a.book|, d, r);
    StopPassExtends(s, s.account.open, d, f, r);
    ExtendsTransitive(FillPass(a, a.book[..i], d, r).account, s.account, Sweep(a, d, f, r).account);
  }

  /**
   * A waiting order and a whole sweep: where its limit is met it is FILLED at the
   * quote, unless it is a BUY the cash at its turn does not cover, which is
   * REJECTED; everywhere else it stays as it is.
   */
  lemma {:induction false} SweepLimitOutcome(a: Account, i: nat, d: Quotes, f: Quotes, r: Rates)
    requires Lifecycle(a, r) && i < |a.book|
    ensures var o, b := a.book[i], Sweep(a, d, f, r).account;
      var key, cash := (o.req.code, o.req.market), FillPass(a, a.book[..i], d, r).account.cash;
      if o.status.Pending? && key in d && LimitMet(o, d[key]) then
        if o.req.side.Sell? || Outlay(o.req, d[key], r) <= cash
        then Order(o.id, o.req, Filled, Some(d[key]), o.reason) in b.fills
        else Order(o.id, o.req, Rejected, o.fillPrice, "Insufficient capital") in b.book
      else o in b.book
  {
    var o, s, t := a.book[i], FillPass(a, a.book[..i], d, r), FillPass(a, a.book[..i + 1], d, r);
    var b := Sweep(a, d, f, r).account;
    LimitTurnOutcome(a, i, d, r);
    SweepAfterTurn(a, i + 1, d, f, r);
    if !Due(o, d) {
      SweepSpares(a, d, f, r);
    } else if |t.account.fills| > |s.account.fills| {
      assert b.fills[|s.account.fills|] == t.account.fills[|s.account.fills|];
    }
  }

  /** Over every run, a filled limit order was filled no worse than its limit. */
  lemma {:induction false} RunRespectsLimits(capital: real, cs: seq<Command>, r: Rates)
    ensures forall o <- Run(Open(capital), cs, r).fills :: o.req.limit.Some? ==>
      && o.fillPrice.Some?
      && (o.req.side.Buy? ==> o.fillPrice.value <= o.req.limit.value)
      && (o.req.side.Sell? ==> o.fillPrice.value >= o.req.limit.value)
  {
    var a := Run(Open(capital), cs, r);
    RunKeepsLifecycle(capital, cs, r);
    forall o | o in a.fills && o.req.limit.Some?
      ensures o.fillPrice.Some? && LimitMet(o, o.fillPrice.value)
    {
      assert RespectsLimit(o);
    }
  }

  // ---------------------------------------------------------------- exits in a sweep

  predicate StopHit(p: Position, price: real) {
    p.stop != 0.0 && price <= p.stop
  }

  predicate TargetHit(p: Position, price: real) {
    p.target.Some? && p.target.value != 0.0 && price >= p.target.value
  }

  /** The position as an exit at this price leaves it. */
  function ClosedAs(p: Position, price: real, why: string): Position {
    Position(p.journalId, p.code, p.market, p.entry, p.shares, p.stop, p.target, p.entryReason,
             Some(price), why, false)
  }

  /** The stop goes before the target. */
  lemma TriggerMeans(p: Position, price: real)
    ensures Trigger(p, price)
         == if StopHit(p, price) then Some("stop_loss")
            else if TargetHit(p, price) then Some("take_profit")
            else None
  {
  }

  lemma {:induction false} CloseOutcome(a: Account, p: Position, price: real, why: string)
    requires PositionsHeldOnce(a) && p in a.open
    ensures var b := Close(a, p.journalId, price, why);
      && b.closed == a.closed + [ClosedAs(p, price, why)]
      && b == a.(open := b.open, closed := b.closed)
      && forall x :: x in b.open <==> x in a.open && x != p
  {
    CountPositionMember(a.open, p);
    assert CountPositions(a.open, p.journalId) + CountPositions(a.closed, p.journalId) <= 1;
    SameJournalSamePosition(a.open, FindPosition(a.open, p.journalId).value, p);
    WithoutPositionMembers(a.open, p.journalId);
    forall x | x in a.open && x.journalId == p.journalId
      ensures x == p
    {
      SameJournalSamePosition(a.open, x, p);
    }
  }

  /** The SELL that an exit places, as it comes back filled. */
  ghost predicate IsExitOrder(o: Order, p: Position, price: real, why: string) {
    && o.status.Filled? && o.fillPrice == Some(price)
    && o.req == Request(p.code, p.market, Sell, p.shares, None, None, None, why)
  }

  /** The stop pass only adds to the closed positions and to what it returns, and reopens nothing. */
  ghost predicate PassGrows(s: Swept, t: Swept) {
    && s.account.closed <= t.account.closed && s.returned <= t.returned
    && forall p <- t.account.open :: p in s.account.open
  }

  lemma {:induction false} StopStepGrows(s: Swept, p: Position, d: Quotes, f: Quotes, r: Rates)
    ensures PassGrows(s, StopStep(s, p, d, f, r))
  {
    if !s.raised && Breached(p, d) && s.account.started {
      var why := Trigger(p, d[PositionKey(p)]).value;
      ExitKeepsOpen(s.account, p, why, f, r);
      PlaceSales(s.account, ExitRequest(p, why), f, r, p.code);
      WithoutPositionMembers(s.account.open, p.journalId);
    }
  }

  lemma {:induction false} StopPassGrows(s: Swept, ps: seq<Position>, i: nat, d: Quotes, f: Quotes, r: Rates)
    requires i <= |ps|
    ensures PassGrows(StopPass(s, ps[..i], d, f, r), StopPass(s, ps, d, f, r))
  {
    if i == |ps| {
      assert ps[..i] == ps;
    } else {
      var init := ps[..|ps| - 1];
      StopPassGrows(s, init, i, d, f, r);
      assert init[..i] == ps[..i];
      StopStepGrows(StopPass(s, init, d, f, r), ps[|ps| - 1], d, f, r);
    }
  }

  /** One position whose turn has come, on a started engine. */
  lemma {:induction false} ExitTurnOutcome(s: Swept, p: Position, d: Quotes, f: Quotes, r: Rates)
    requires Lifecycle(s.account, r) && p in s.account.open && s.account.started && !s.raised
    requires var key := (p.code, p.market); key in d && (StopHit(p, d[key]) || TargetHit(p, d[key])) && key in f
    ensures var t, key := StopStep(s, p, d, f, r), (p.code, p.market);
      var why := if StopHit(p, d[key]) then "stop_loss" else "take_profit";
      && t.account.closed == s.account.closed + [ClosedAs(p, d[key], why)]
      && p !in t.account.open
      && |t.returned| == |s.returned| + 1 && IsExitOrder(t.returned[|s.returned|], p, f[key], why)
      && t.account.cash == s.account.cash
           + Proceeds(Request(p.code, p.market, Sell, p.shares, None, None, None, why), f[key], r)
  {
    var key := PositionKey(p);
    TriggerMeans(p, d[key]);
    var why := Trigger(p, d[key]).value;
    var placed := Place(s.account, ExitRequest(p, why), f, r);
    MarketSellOutcome(s.account, ExitRequest(p, why), f, r);
    PlaceKeeps(s.account, ExitRequest(p, why), f, r);
    CloseOutcome(placed.account, p, d[key], why);
  }

  /** What a sweep made of a position that was open when its second pass began. */
  ghost predicate SweptPosition(t: Swept, p: Position, d: Quotes, f: Quotes) {
    var key := (p.code, p.market);
    if key in d && (StopHit(p, d[key]) || TargetHit(p, d[key])) && key in f then
      var why := if StopHit(p, d[key]) then "stop_loss" else "take_profit";
      && ClosedAs(p, d[key], why) in t.account.closed && p !in t.account.open
      && exists o <- t.returned :: IsExitOrder(o, p, f[key], why)
    else p in t.account.open
  }

  /**
   * Every position of a started engine: at or under a non-zero stop it is closed
   * at the quote as "stop_loss"; failing that, at or over a non-zero target, as
   * "take_profit"; each against a SELL of its shares filled at the second
   * quote. In every other case, and where that second fetch fails, it is still
   * open, unchanged.
   */
  lemma {:induction false} SweepExits(a: Account, d: Quotes, f: Quotes, r: Rates, p: Position)
    requires Lifecycle(a, r) && a.started && p in FillPass(a, a.book, d, r).account.open
    ensures SweptPosition(Sweep(a, d, f, r), p, d, f)
  {
    var s, key := FillPass(a, a.book, d, r), (p.code, p.market);
    var ps := s.account.open;
    FillPassKeeps(a, |a.book|, d, r);
    assert a.book[..|a.book|] == a.book;
    FillPassQuiet(a, a.book, d, r);
    if key in d {
      TriggerMeans(p, d[key]);
    }
    if key in d && (StopHit(p, d[key]) || TargetHit(p, d[key])) && key in f {
      var i :| 0 <= i < |ps| && ps[i] == p;
      var t := StopPass(s, ps[..i], d, f, r);
      StopPassReach(s, i + 1, d, f, r);
      StopPassCompletes(s, ps[..i], d, f, r);
      ExitTurnOutcome(t, p, d, f, r);
      StopPassGrows(s, ps, i + 1, d, f, r);
      ExitStands(StopStep(t, p, d, f, r), StopPass(s, ps, d, f, r), |t.returned|);
    } else {
      UnsoldStay(s, d, f, r);
    }
  }

  lemma {:induction false} ExitStands(t: Swept, u: Swept, k: nat)
    requires PassGrows(t, u) && k < |t.returned|
    ensures t.returned[k] in u.returned
    ensures forall p <- t.account.closed :: p in u.account.closed
    ensures forall p :: p !in t.account.open ==> p !in u.account.open
  {
    assert t.returned[k] == u.returned[k];
  }

  /** That goes for every position open before the sweep. */
  lemma {:induction false} SweepExitsHeld(a: Account, d: Quotes, f: Quotes, r: Rates)
    requires Lifecycle(a, r) && a.started
    ensures forall p <- a.open :: SweptPosition(Sweep(a, d, f, r), p, d, f)
  {
    FillPassOpens(a, a.book, d, r);
    forall p | p in a.open
      ensures SweptPosition(Sweep(a, d, f, r), p, d, f)
    {
      SweepExits(a, d, f, r, p);
    }
  }

  /** At steady quotes every quoted position left open is above its stop and below its target. */
  lemma {:induction false} SweepLeavesSafe(a: Account, q: Quotes, r: Rates)
    requires Lifecycle(a, r) && a.started
    ensures forall p <- Sweep(a, q, q, r).account.open :: (p.code, p.market) in q ==>
      var x := q[(p.code, p.market)];
      && (p.stop == 0.0 || x > p.stop)
      && (p.target.None? || p.target.value == 0.0 || x < p.target.value)
  {
    SweepSettles(a, q, r);
    forall p | p in Sweep(a, q, q, r).account.open && (p.code, p.market) in q
      ensures !StopHit(p, q[(p.code, p.market)]) && !TargetHit(p, q[(p.code, p.market)])
    {
      assert !Breached(p, q);
      TriggerMeans(p, q[PositionKey(p)]);
    }
  }
}
