// The paper-trading ledger as values: what every operation of
// `PaperTradingEngine` does to the account it keeps together with
// `PortfolioManager`. The classes in PaperTrading.dfy are proved to compute
// exactly these functions.
module Ledger {
  import opened Common

  datatype Side = Buy | Sell

  datatype Status = Pending | Filled | Cancelled | Rejected

  datatype Request = Request(
    code: string, market: Market, side: Side, shares: int,
    limit: Option<real>, stop: Option<real>, take: Option<real>, reason: string)

  datatype Order = Order(
    id: nat, req: Request, status: Status, fillPrice: Option<real>, reason: string)

  datatype Trade = Trade(
    orderId: nat, code: string, side: Side, shares: int, price: real,
    commission: real, tax: real, pnl: real)

  datatype Position = Position(
    journalId: nat, code: string, market: Market, entry: real, shares: int,
    stop: real, target: Option<real>, entryReason: string,
    exit: Option<real>, exitReason: string, isOpen: bool)

  datatype Rates = Rates(commission: real, tax: real)

  /** `book` and `open` are insertion-ordered dictionaries, kept as sequences of their values. */
  datatype Account = Account(
    started: bool, capital: real, cash: real,
    book: seq<Order>, fills: seq<Order>, log: seq<Trade>,
    open: seq<Position>, closed: seq<Position>,
    nextOrder: nat, nextJournal: nat)

  /** What the quote adapter answers; a missing key is a fetch that raises. */
  type Quotes = map<(string, Market), real>

  datatype Placed = Placed(account: Account, order: Order)

  /** `raised`: the sweep left through the "not started" error of `place_order`. */
  datatype Swept = Swept(account: Account, returned: seq<Order>, raised: bool)

  const INSUFFICIENT: string := "Insufficient capital"
  const NO_QUOTE: string := "All sources failed"
  const STOP_LOSS: string := "stop_loss"
  const TAKE_PROFIT: string := "take_profit"

  // ---------------------------------------------------------------- dictionaries

  /** The dictionary without the key `id`. */
  function Without(book: seq<Order>, id: nat): seq<Order> {
    if book == [] then []
    else
      var init := Without(book[..|book| - 1], id);
      var last := book[|book| - 1];
      if last.id == id then init else init + [last]
  }

  /** The dictionary after the object stored under `o.id` has changed to `o`. */
  function Replace(book: seq<Order>, o: Order): seq<Order> {
    seq(|book|, i requires 0 <= i < |book| => if book[i].id == o.id then o else book[i])
  }

  function WithoutPosition(open: seq<Position>, id: nat): seq<Position> {
    if open == [] then []
    else
      var init := WithoutPosition(open[..|open| - 1], id);
      var last := open[|open| - 1];
      if last.journalId == id then init else init + [last]
  }

  function FindPosition(open: seq<Position>, id: nat): (r: Option<Position>)
    ensures r.Some? ==> r.value in open && r.value.journalId == id
    ensures r.None? <==> forall p <- open :: p.journalId != id
  {
    if open == [] then None
    else if open[|open| - 1].journalId == id then Some(open[|open| - 1])
    else FindPosition(open[..|open| - 1], id)
  }

  function FindOrder(book: seq<Order>, id: nat): (r: Option<Order>)
    ensures r.Some? ==> r.value in book && r.value.id == id
    ensures r.None? <==> forall o <- book :: o.id != id
  {
    if book == [] then None
    else if book[|book| - 1].id == id then Some(book[|book| - 1])
    else FindOrder(book[..|book| - 1], id)
  }

  // ---------------------------------------------------------------- operations

  function Cost(o: Order, price: real): real {
    price * o.req.shares as real
  }

  function Commission(o: Order, price: real, r: Rates): real {
    Cost(o, price) * r.commission
  }

  function Tax(o: Order, price: real, r: Rates): real {
    if o.req.side.Sell? then Cost(o, price) * r.tax else 0.0
  }

  /** The amounts `_fill_order` computes first. */
  datatype Charges = Charges(cost: real, commission: real, tax: real)

  function ChargesOf(o: Order, price: real, r: Rates): Charges {
    Charges(Cost(o, price), Commission(o, price, r), Tax(o, price, r))
  }

  function TradeOf(o: Order, price: real, c: Charges): Trade {
    Trade(o.id, o.req.code, o.req.side, o.req.shares, price, c.commission, c.tax,
          if o.req.side.Sell? then -c.commission - c.tax else 0.0)
  }

  /** An absent or zero level counts as "not given". */
  predicate Given(level: Option<real>) {
    level.Some? && level.value != 0.0
  }

  function StopFor(o: Order, price: real): real {
    if Given(o.req.stop) then o.req.stop.value else price * 0.95
  }

  function OpenFor(o: Order, price: real, journalId: nat): Position {
    Position(journalId, o.req.code, o.req.market, price, o.req.shares, StopFor(o, price),
             o.req.take, o.reason, None, "", true)
  }

  function Reject(a: Account, o: Order, why: string): Placed {
    var o' := o.(status := Rejected, reason := why);
    Placed(a.(book := Replace(a.book, o')), o')
  }

  function Complete(a: Account, o: Order, price: real, c: Charges): Placed {
    var o' := o.(status := Filled, fillPrice := Some(price));
    Placed(a.(fills := a.fills + [o'], book := Without(a.book, o.id),
              log := a.log + [TradeOf(o, price, c)]), o')
  }

  function Settle(a: Account, o: Order, price: real, c: Charges): Placed {
    if o.req.side.Buy? then
      if c.cost + c.commission > a.cash then Reject(a, o, INSUFFICIENT)
      else
        Complete(a.(cash := a.cash - (c.cost + c.commission),
                    open := a.open + [OpenFor(o, price, a.nextJournal)],
                    nextJournal := a.nextJournal + 1), o, price, c)
    else
      Complete(a.(cash := a.cash + (c.cost - c.commission - c.tax)), o, price, c)
  }

  /** `_fill_order`. */
  function Fill(a: Account, o: Order, price: real, r: Rates): Placed {
    Settle(a, o, price, ChargesOf(o, price, r))
  }

  function OrderKey(o: Order): (string, Market) { (o.req.code, o.req.market) }

  /** `_try_fill_market`. */
  function TryFillMarket(a: Account, o: Order, q: Quotes, r: Rates): Placed {
    if OrderKey(o) in q then Fill(a, o, q[OrderKey(o)], r) else Reject(a, o, NO_QUOTE)
  }

  function NewOrder(a: Account, req: Request): Order {
    Order(a.nextOrder, req, Pending, None, req.reason)
  }

  function Booked(a: Account, req: Request): Account {
    a.(book := a.book + [NewOrder(a, req)], nextOrder := a.nextOrder + 1)
  }

  function Place(a: Account, req: Request, q: Quotes, r: Rates): Placed {
    if req.limit.Some? then Placed(Booked(a, req), NewOrder(a, req))
    else TryFillMarket(Booked(a, req), NewOrder(a, req), q, r)
  }

  function Cancel(a: Account, id: nat): Account {
    var o := FindOrder(a.book, id);
    if o.None? || !o.value.status.Pending? then a
    else a.(book := Replace(a.book, o.value.(status := Cancelled)))
  }

  predicate Crosses(o: Order, price: real) {
    && o.req.limit.Some?
    && (if o.req.side.Buy? then price <= o.req.limit.value else price >= o.req.limit.value)
  }

  function PositionKey(p: Position): (string, Market) { (p.code, p.market) }

  /** The order is due for a fill at the quotes `q`. */
  predicate Due(o: Order, q: Quotes) {
    o.status.Pending? && OrderKey(o) in q && Crosses(o, q[OrderKey(o)])
  }

  function FillStep(s: Swept, o: Order, q: Quotes, r: Rates): Swept {
    if Due(o, q) then
      var p := Fill(s.account, o, q[OrderKey(o)], r);
      Swept(p.account, s.returned + [p.order], s.raised)
    else s
  }

  function FillPass(a: Account, snapshot: seq<Order>, q: Quotes, r: Rates): Swept {
    if snapshot == [] then Swept(a, [], false)
    else FillStep(FillPass(a, snapshot[..|snapshot| - 1], q, r), snapshot[|snapshot| - 1], q, r)
  }

  /** Why the position has to be sold at this price, if it has to. */
  function Trigger(p: Position, price: real): Option<string> {
    if p.stop != 0.0 && price <= p.stop then Some(STOP_LOSS)
    else if Given(p.target) && price >= p.target.value then Some(TAKE_PROFIT)
    else None
  }

  /** The position breaches its stop or its target at the quotes `q`. */
  predicate Breached(p: Position, q: Quotes) {
    PositionKey(p) in q && Trigger(p, q[PositionKey(p)]).Some?
  }

  /** The position as it stands in the closed list. */
  function Exited(p: Position, price: real, why: string): Position {
    p.(exit := Some(price), exitReason := why, isOpen := false)
  }

  function Close(a: Account, id: nat, price: real, why: string): Account {
    var p := FindPosition(a.open, id);
    if p.None? then a
    else
      a.(open := WithoutPosition(a.open, id), closed := a.closed + [Exited(p.value, price, why)])
  }

  function ExitRequest(p: Position, why: string): Request {
    Request(p.code, p.market, Sell, p.shares, None, None, None, why)
  }

  /**
   * One position of `_check_stop_take`: `decide` answers the fetch that looks
   * for a breach, `fill` the second fetch, made inside `place_order`.
   */
  function StopStep(s: Swept, p: Position, decide: Quotes, fill: Quotes, r: Rates): Swept {
    if s.raised || !Breached(p, decide) then s
    else if !s.account.started then s.(raised := true)
    else
      var price := decide[PositionKey(p)];
      var why := Trigger(p, price).value;
      var placed := Place(s.account, ExitRequest(p, why), fill, r);
      if placed.order.status.Filled? then
        Swept(Close(placed.account, p.journalId, price, why), s.returned + [placed.order], false)
      else s.(account := placed.account)
  }

  function StopPass(s: Swept, snapshot: seq<Position>, decide: Quotes, fill: Quotes, r: Rates): Swept {
    if snapshot == [] then s
    else StopStep(StopPass(s, snapshot[..|snapshot| - 1], decide, fill, r),
                  snapshot[|snapshot| - 1], decide, fill, r)
  }

  /** `check_and_fill_pending`. */
  function Sweep(a: Account, decide: Quotes, fill: Quotes, r: Rates): Swept {
    var s := FillPass(a, a.book, decide, r);
    StopPass(s, s.account.open, decide, fill, r)
  }

  // ---------------------------------------------------------------- runs

  datatype Command =
    | Start(capital: Option<real>)
    | Stop
    | PlaceOrder(req: Request, quotes: Quotes)
    | CancelOrder(id: nat)
    | CheckAndFill(decide: Quotes, fill: Quotes)

  function Open(capital: real): Account {
    Account(false, capital, capital, [], [], [], [], [], 0, 0)
  }

  function StartWith(a: Account, capital: Option<real>): Account {
    if Given(capital) then a.(started := true, capital := capital.value, cash := capital.value)
    else a.(started := true)
  }

  function Step(a: Account, c: Command, r: Rates): Account {
    match c
    case Start(capital) => StartWith(a, capital)
    case Stop => a.(started := false)
    case PlaceOrder(req, q) => if a.started then Place(a, req, q, r).account else a
    case CancelOrder(id) => Cancel(a, id)
    case CheckAndFill(d, f) => Sweep(a, d, f, r).account
  }

  function Run(a: Account, cs: seq<Command>, r: Rates): Account {
    if cs == [] then a else Step(Run(a, cs[..|cs| - 1], r), cs[|cs| - 1], r)
  }
}
