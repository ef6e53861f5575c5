// Conservation laws of the paper-trading ledger: where every unit of cash and
// every share of a run went.
module LedgerConservation {
  import opened Common
  import opened Ledger
  import opened LedgerLifecycle
  import opened LedgerHistory

  // ---------------------------------------------------------------- what is summed

  /** A quantity read off one filled order. */
  datatype Flow = Bought | Sold | SharesIn(code: string) | SharesOut(code: string)

  /** A quantity read off one position. */
  datatype Holding = EntryCost | ExitValue | Gain | Shares(code: string)

  function FlowOf(m: Flow, o: Order): real {
    var price := if o.fillPrice.Some? then o.fillPrice.value else 0.0;
    match m
    case Bought => if o.req.side.Buy? then Cost(o, price) else 0.0
    case Sold => if o.req.side.Sell? then Cost(o, price) else 0.0
    case SharesIn(code) => if o.req.side.Buy? && o.req.code == code then o.req.shares as real else 0.0
    case SharesOut(code) => if o.req.side.Sell? && o.req.code == code then o.req.shares as real else 0.0
  }

  /** Commission and tax of one filled order. */
  function ChargeOf(r: Rates, o: Order): real {
    var price := if o.fillPrice.Some? then o.fillPrice.value else 0.0;
    Commission(o, price, r) + Tax(o, price, r)
  }

  function HoldingOf(m: Holding, p: Position): real {
    var exit := if p.exit.Some? then p.exit.value else 0.0;
    match m
    case EntryCost => p.entry * p.shares as real
    case ExitValue => exit * p.shares as real
    case Gain => exit * p.shares as real - p.entry * p.shares as real
    case Shares(code) => if p.code == code then p.shares as real else 0.0
  }

  function Total(m: Flow, os: seq<Order>): real {
    if os == [] then 0.0 else Total(m, os[..|os| - 1]) + FlowOf(m, os[|os| - 1])
  }

  function Charges(r: Rates, os: seq<Order>): real {
    if os == [] then 0.0 else Charges(r, os[..|os| - 1]) + ChargeOf(r, os[|os| - 1])
  }

  function Sum(m: Holding, ps: seq<Position>): real {
    if ps == [] then 0.0 else Sum(m, ps[..|ps| - 1]) + HoldingOf(m, ps[|ps| - 1])
  }

  lemma TotalAppend(m: Flow, os: seq<Order>, o: Order)
    ensures Total(m, os + [o]) == Total(m, os) + FlowOf(m, o)
  {
    assert (os + [o])[..|os|] == os;
  }

  lemma ChargesAppend(r: Rates, os: seq<Order>, o: Order)
    ensures Charges(r, os + [o]) == Charges(r, os) + ChargeOf(r, o)
  {
    assert (os + [o])[..|os|] == os;
  }

  lemma SumAppend(m: Holding, ps: seq<Position>, p: Position)
    ensures Sum(m, ps + [p]) == Sum(m, ps) + HoldingOf(m, p)
  {
    assert (ps + [p])[..|ps|] == ps;
  }

  lemma {:induction false} WithoutAbsent(ps: seq<Position>, id: nat)
    requires CountPositions(ps, id) == 0
    ensures WithoutPosition(ps, id) == ps
  {
    if ps != [] {
      WithoutAbsent(ps[..|ps| - 1], id);
    }
  }

  lemma {:induction false} SumWithout(m: Holding, ps: seq<Position>, p: Position)
    requires p in ps && CountPositions(ps, p.journalId) == 1
    ensures Sum(m, WithoutPosition(ps, p.journalId)) == Sum(m, ps) - HoldingOf(m, p)
  {
    var init, last := ps[..|ps| - 1], ps[|ps| - 1];
    if last.journalId == p.journalId {
      WithoutAbsent(init, p.journalId);
      if last != p {
        assert p in init;
        CountPositionMember(init, p);
      }
    } else {
      assert p in init;
      SumWithout(m, init, p);
      SumAppend(m, WithoutPosition(init, p.journalId), last);
    }
  }

  lemma {:induction false} GainIsExitLessEntry(ps: seq<Position>)
    ensures Sum(Gain, ps) == Sum(ExitValue, ps) - Sum(EntryCost, ps)
  {
    if ps != [] {
      GainIsExitLessEntry(ps[..|ps| - 1]);
    }
  }

  // ---------------------------------------------------------------- the laws

  /** Cash with every fill on record taken back. */
  function Base(a: Account, r: Rates): real {
    a.cash + Total(Bought, a.fills) - Total(Sold, a.fills) + Charges(r, a.fills)
  }

  /** Open and closed positions together are what the BUY fills bought. */
  ghost predicate PositionsAreBuys(a: Account) {
    && Sum(EntryCost, a.open) + Sum(EntryCost, a.closed) == Total(Bought, a.fills)
    && forall code: string ::
         Sum(Shares(code), a.open) + Sum(Shares(code), a.closed) == Total(SharesIn(code), a.fills)
  }

  /** available = starting capital - open cost + realised gains - all charges. */
  ghost predicate Conserved(a: Account, capital: real, r: Rates) {
    a.cash == capital - Sum(EntryCost, a.open) + Sum(Gain, a.closed) - Charges(r, a.fills)
  }

  ghost predicate SalesMatchExits(a: Account) {
    Total(Sold, a.fills) == Sum(ExitValue, a.closed)
  }

  ghost predicate SharesSoldMatchClosed(a: Account, code: string) {
    Total(SharesOut(code), a.fills) == Sum(Shares(code), a.closed)
  }

  /** Per code: open shares = filled buy shares - filled sell shares. */
  ghost predicate SharesConserved(a: Account, code: string) {
    Sum(Shares(code), a.open) == Total(SharesIn(code), a.fills) - Total(SharesOut(code), a.fills)
  }

  // ---------------------------------------------------------------- one fill

  function AsFilled(o: Order, price: real): Order {
    o.(status := Filled, fillPrice := Some(price))
  }

  /** A fill either changes nothing but the book, or appends the completed order. */
  predicate FillsThrough(a: Account, o: Order, price: real, r: Rates) {
    o.req.side.Sell? || Cost(o, price) + Commission(o, price, r) <= a.cash
  }

  lemma FillAppends(a: Account, o: Order, price: real, r: Rates)
    ensures var b := Fill(a, o, price, r).account;
      && b.closed == a.closed
      && b.fills == (if FillsThrough(a, o, price, r) then a.fills + [AsFilled(o, price)] else a.fills)
      && b.open == (if FillsThrough(a, o, price, r) && o.req.side.Buy?
                    then a.open + [OpenFor(o, price, a.nextJournal)] else a.open)
  {
  }

  lemma FillCash(a: Account, o: Order, price: real, r: Rates)
    ensures var o' := AsFilled(o, price);
      Fill(a, o, price, r).account.cash
        == a.cash - (if FillsThrough(a, o, price, r)
                     then FlowOf(Bought, o') - FlowOf(Sold, o') + ChargeOf(r, o') else 0.0)
  {
    var o' := AsFilled(o, price);
    assert Cost(o', price) == Cost(o, price);
    assert Commission(o', price, r) == Commission(o, price, r);
    assert Tax(o', price, r) == Tax(o, price, r);
  }

  lemma FillBase(a: Account, o: Order, price: real, r: Rates)
    ensures Base(Fill(a, o, price, r).account, r) == Base(a, r)
  {
    FillAppends(a, o, price, r);
    FillCash(a, o, price, r);
    TotalAppend(Bought, a.fills, AsFilled(o, price));
    TotalAppend(Sold, a.fills, AsFilled(o, price));
    ChargesAppend(r, a.fills, AsFilled(o, price));
  }

  lemma FillPositions(a: Account, o: Order, price: real, r: Rates)
    requires PositionsAreBuys(a)
    ensures PositionsAreBuys(Fill(a, o, price, r).account)
  {
    FillAppends(a, o, price, r);
    var o' := AsFilled(o, price);
    var p := OpenFor(o, price, a.nextJournal);
    TotalAppend(Bought, a.fills, o');
    SumAppend(EntryCost, a.open, p);
    forall code: string
      ensures Total(SharesIn(code), a.fills + [o']) == Total(SharesIn(code), a.fills) + FlowOf(SharesIn(code), o')
      ensures Sum(Shares(code), a.open + [p]) == Sum(Shares(code), a.open) + HoldingOf(Shares(code), p)
    {
      TotalAppend(SharesIn(code), a.fills, o');
      SumAppend(Shares(code), a.open, p);
    }
    BuyBecomesPosition(o, price, a.nextJournal);
  }

  lemma BuyBecomesPosition(o: Order, price: real, id: nat)
    ensures var o', p := AsFilled(o, price), OpenFor(o, price, id);
      && (o.req.side.Buy? ==> FlowOf(Bought, o') == HoldingOf(EntryCost, p))
      && (o.req.side.Sell? ==> FlowOf(Bought, o') == 0.0)
      && forall code: string ::
           FlowOf(SharesIn(code), o') == if o.req.side.Buy? then HoldingOf(Shares(code), p) else 0.0
  {
  }

  /** What a fill adds to the sales side; a BUY adds nothing. */
  lemma FillSales(a: Account, o: Order, price: real, r: Rates, code: string)
    ensures var b := Fill(a, o, price, r).account;
      && b.closed == a.closed
      && Total(Sold, b.fills) == Total(Sold, a.fills) + (if o.req.side.Sell? then Cost(o, price) else 0.0)
      && Total(SharesOut(code), b.fills) == Total(SharesOut(code), a.fills)
           + (if o.req.side.Sell? && o.req.code == code then o.req.shares as real else 0.0)
  {
    var o' := o.(status := Filled, fillPrice := Some(price));
    TotalAppend(Sold, a.fills, o');
    TotalAppend(SharesOut(code), a.fills, o');
  }

  // ---------------------------------------------------------------- one close

  lemma CloseBalances(a: Account, p: Position, price: real, why: string, m: Holding)
    requires PositionsHeldOnce(a) && p in a.open
    ensures var b := Close(a, p.journalId, price, why);
      var p' := Exited(p, price, why);
      && Sum(m, b.open) == Sum(m, a.open) - HoldingOf(m, p)
      && Sum(m, b.closed) == Sum(m, a.closed) + HoldingOf(m, p')
      && b.fills == a.fills
  {
    CountPositionMember(a.open, p);
    assert CountPositions(a.open, p.journalId) + CountPositions(a.closed, p.journalId) <= 1;
    SumWithout(m, a.open, p);
    var found := FindPosition(a.open, p.journalId).value;
    SameJournalSamePosition(a.open, found, p);
    SumAppend(m, a.closed, Exited(p, price, why));
  }

  lemma {:induction false} SameJournalSamePosition(ps: seq<Position>, x: Position, y: Position)
    requires x in ps && y in ps && x.journalId == y.journalId && CountPositions(ps, x.journalId) == 1
    ensures x == y
  {
    var init, last := ps[..|ps| - 1], ps[|ps| - 1];
    if x in init {
      CountPositionMember(init, x);
    }
    if y in init {
      CountPositionMember(init, y);
    }
    if x in init && y in init {
      SameJournalSamePosition(init, x, y);
    }
  }

  /** A close moves the entry cost and the shares of the position, unchanged, to the closed list. */
  lemma CloseMoves(a: Account, p: Position, price: real, why: string, m: Holding)
    requires PositionsHeldOnce(a) && p in a.open && (m.EntryCost? || m.Shares?)
    ensures var b := Close(a, p.journalId, price, why);
      Sum(m, b.open) + Sum(m, b.closed) == Sum(m, a.open) + Sum(m, a.closed)
  {
    CloseBalances(a, p, price, why, m);
    ExitLeavesEntry(p, Exited(p, price, why), m);
  }

  lemma ExitLeavesEntry(p: Position, p': Position, m: Holding)
    requires (m.EntryCost? || m.Shares?) && p'.entry == p.entry && p'.shares == p.shares && p'.code == p.code
    ensures HoldingOf(m, p) == HoldingOf(m, p')
  {
  }

  /** The value of the position at this price. */
  function Value(p: Position, price: real): real {
    price * p.shares as real
  }

  lemma ExitedValue(p: Position, price: real, why: string)
    ensures HoldingOf(ExitValue, Exited(p, price, why)) == Value(p, price)
  {
  }

  lemma CloseRealises(a: Account, p: Position, price: real, why: string)
    requires PositionsHeldOnce(a) && p in a.open
    ensures Sum(ExitValue, Close(a, p.journalId, price, why).closed) == Sum(ExitValue, a.closed) + Value(p, price)
  {
    ExitedValue(p, price, why);
    CloseBalances(a, p, price, why, ExitValue);
  }

  lemma ClosePositions(a: Account, p: Position, price: real, why: string)
    requires PositionsHeldOnce(a) && p in a.open && PositionsAreBuys(a)
    ensures PositionsAreBuys(Close(a, p.journalId, price, why))
  {
    var b := Close(a, p.journalId, price, why);
    CloseMoves(a, p, price, why, EntryCost);
    forall code: string
      ensures Sum(Shares(code), b.open) + Sum(Shares(code), b.closed) == Total(SharesIn(code), b.fills)
    {
      CloseMoves(a, p, price, why, Shares(code));
    }
  }

  // ---------------------------------------------------------------- one placement

  lemma SameMoney(a: Account, b: Account, r: Rates)
    requires PositionsAreBuys(a)
    requires b.cash == a.cash && b.fills == a.fills && b.open == a.open && b.closed == a.closed
    ensures Base(b, r) == Base(a, r) && PositionsAreBuys(b)
  {
  }

  lemma PlaceLaws(a: Account, req: Request, q: Quotes, r: Rates)
    requires PositionsAreBuys(a)
    ensures Base(Place(a, req, q, r).account, r) == Base(a, r)
    ensures PositionsAreBuys(Place(a, req, q, r).account)
  {
    var b, o := Booked(a, req), NewOrder(a, req);
    SameMoney(a, b, r);
    if req.limit.None? {
      if OrderKey(o) in q {
        FillBase(b, o, q[OrderKey(o)], r);
        FillPositions(b, o, q[OrderKey(o)], r);
      } else {
        SameMoney(b, Reject(b, o, NO_QUOTE).account, r);
      }
    }
  }

  /** What a placed order sells at once: nothing unless it is a quoted market sale. */
  predicate SoldNow(req: Request, q: Quotes) {
    req.side.Sell? && req.limit.None? && (req.code, req.market) in q
  }

  /** What a placed order sells at once, in value and in shares of one code. */
  function SoldValue(req: Request, q: Quotes): real {
    if SoldNow(req, q) then q[(req.code, req.market)] * req.shares as real else 0.0
  }

  function SoldShares(req: Request, q: Quotes, code: string): real {
    if SoldNow(req, q) && req.code == code then req.shares as real else 0.0
  }

  lemma SoldIsCost(a: Account, req: Request, q: Quotes)
    requires req.limit.None? && (req.code, req.market) in q
    ensures SoldValue(req, q)
         == if req.side.Sell? then Cost(NewOrder(a, req), q[(req.code, req.market)]) else 0.0
  {
  }

  lemma PlaceSales(a: Account, req: Request, q: Quotes, r: Rates, code: string)
    ensures var b := Place(a, req, q, r).account;
      && b.closed == a.closed
      && Total(Sold, b.fills) == Total(Sold, a.fills) + SoldValue(req, q)
      && Total(SharesOut(code), b.fills) == Total(SharesOut(code), a.fills) + SoldShares(req, q, code)
  {
    var o := NewOrder(a, req);
    if req.limit.None? && OrderKey(o) in q {
      SoldIsCost(a, req, q);
      FillSales(Booked(a, req), o, q[OrderKey(o)], r, code);
    }
  }

  // ---------------------------------------------------------------- the two passes

  lemma {:induction false} FillPassLaws(a: Account, snapshot: seq<Order>, q: Quotes, r: Rates)
    requires PositionsAreBuys(a)
    ensures var b := FillPass(a, snapshot, q, r).account;
      Base(b, r) == Base(a, r) && PositionsAreBuys(b)
  {
    if snapshot != [] {
      var init, o := snapshot[..|snapshot| - 1], snapshot[|snapshot| - 1];
      FillPassLaws(a, init, q, r);
      if Due(o, q) {
        FillBase(FillPass(a, init, q, r).account, o, q[OrderKey(o)], r);
        FillPositions(FillPass(a, init, q, r).account, o, q[OrderKey(o)], r);
      }
    }
  }

  ghost predicate NoSaleWaits(os: seq<Order>) {
    forall o <- os :: o.status.Pending? ==> o.req.side.Buy?
  }

  lemma {:induction false} FillPassSales(a: Account, snapshot: seq<Order>, q: Quotes, r: Rates, code: string)
    requires NoSaleWaits(snapshot)
    ensures var b := FillPass(a, snapshot, q, r).account;
      && b.closed == a.closed && Total(Sold, b.fills) == Total(Sold, a.fills)
      && Total(SharesOut(code), b.fills) == Total(SharesOut(code), a.fills)
  {
    if snapshot != [] {
      var init, o := snapshot[..|snapshot| - 1], snapshot[|snapshot| - 1];
      FillPassSales(a, init, q, r, code);
      if Due(o, q) {
        FillSales(FillPass(a, init, q, r).account, o, q[OrderKey(o)], r, code);
      }
    }
  }

  /** Placing an exit order never touches the open positions. */
  lemma ExitKeepsOpen(a: Account, p: Position, why: string, f: Quotes, r: Rates)
    ensures Place(a, ExitRequest(p, why), f, r).account.open == a.open
    ensures Place(a, ExitRequest(p, why), f, r).order.status.Filled? <==> PositionKey(p) in f
  {
  }

  /** Positions the stop pass has not reached yet are still open. */
  lemma {:induction false} StopPassHolds(s: Swept, i: nat, d: Quotes, f: Quotes, r: Rates)
    requires PositionsHeldOnce(s.account) && i <= |s.account.open|
    ensures forall j :: i <= j < |s.account.open| ==>
              s.account.open[j] in StopPass(s, s.account.open[..i], d, f, r).account.open
  {
    var ps := s.account.open;
    if i > 0 {
      StopPassHolds(s, i - 1, d, f, r);
      assert ps[..i][..i - 1] == ps[..i - 1];
      var t := StopPass(s, ps[..i - 1], d, f, r);
      var p := ps[i - 1];
      if !t.raised && Breached(p, d) && t.account.started {
        var why := Trigger(p, d[PositionKey(p)]).value;
        ExitKeepsOpen(t.account, p, why, f, r);
        WithoutPositionMembers(t.account.open, p.journalId);
        forall j | i <= j < |ps|
          ensures ps[j].journalId != p.journalId
        {
          JournalsDiffer(s.account, i - 1, j);
        }
      }
    }
  }

  lemma JournalsDiffer(a: Account, i: nat, j: nat)
    requires PositionsHeldOnce(a) && i < j < |a.open|
    ensures a.open[i].journalId != a.open[j].journalId
  {
    var id := a.open[j].journalId;
    assert CountPositions(a.open, id) + CountPositions(a.closed, id) <= 1;
    CountPositionsPrefix(a.open, j + 1, id);
    assert a.open[..j + 1][..j] == a.open[..j];
    if a.open[i].journalId == id {
      assert a.open[i] in a.open[..j];
      CountPositionMember(a.open[..j], a.open[i]);
    }
  }

  lemma {:induction false} CountPositionsPrefix(ps: seq<Position>, i: nat, id: nat)
    requires i <= |ps|
    ensures CountPositions(ps[..i], id) <= CountPositions(ps, id)
  {
    if i < |ps| {
      CountPositionsPrefix(ps[..|ps| - 1], i, id);
      assert ps[..|ps| - 1][..i] == ps[..i];
    } else {
      assert ps[..i] == ps;
    }
  }

  lemma StopStepLaws(s: Swept, p: Position, d: Quotes, f: Quotes, r: Rates)
    requires Lifecycle(s.account, r) && PositionsAreBuys(s.account) && p in s.account.open
    ensures var b := StopStep(s, p, d, f, r).account;
      Base(b, r) == Base(s.account, r) && PositionsAreBuys(b)
  {
    if !s.raised && Breached(p, d) && s.account.started {
      var price := d[PositionKey(p)];
      var why := Trigger(p, price).value;
      var placed := Place(s.account, ExitRequest(p, why), f, r);
      PlaceLaws(s.account, ExitRequest(p, why), f, r);
      PlaceKeeps(s.account, ExitRequest(p, why), f, r);
      ExitKeepsOpen(s.account, p, why, f, r);
      ClosePositions(placed.account, p, price, why);
    }
  }

  /** The stop pass up to its `i`-th position, and that this one is still open when it is reached. */
  lemma {:induction false} StopPassReach(s: Swept, i: nat, d: Quotes, f: Quotes, r: Rates)
    requires Lifecycle(s.account, r) && 0 < i <= |s.account.open|
    ensures var p, t := s.account.open[i - 1], StopPass(s, s.account.open[..i - 1], d, f, r);
      && Lifecycle(t.account, r) && p in t.account.open
      && StopPass(s, s.account.open[..i], d, f, r) == StopStep(t, p, d, f, r)
  {
    var ps := s.account.open;
    StopPassHolds(s, i - 1, d, f, r);
    StopPassKeeps(s, ps[..i - 1], d, f, r);
    StopPassNext(s, ps, i - 1, d, f, r);
  }

  lemma {:induction false} StopPassLaws(s: Swept, i: nat, d: Quotes, f: Quotes, r: Rates)
    requires Lifecycle(s.account, r) && PositionsAreBuys(s.account) && i <= |s.account.open|
    ensures var b := StopPass(s, s.account.open[..i], d, f, r).account;
      Base(b, r) == Base(s.account, r) && PositionsAreBuys(b)
  {
    if i > 0 {
      StopPassLaws(s, i - 1, d, f, r);
      StopPassReach(s, i, d, f, r);
      StopStepLaws(StopPass(s, s.account.open[..i - 1], d, f, r), s.account.open[i - 1], d, f, r);
    }
  }

  /** From `a` to `b`, the shares sold of `code` grew as the shares of its closed positions did. */
  ghost predicate SharesKeepPace(a: Account, b: Account, code: string) {
    Total(SharesOut(code), b.fills) - Sum(Shares(code), b.closed)
      == Total(SharesOut(code), a.fills) - Sum(Shares(code), a.closed)
  }

  /** From `a` to `b`, the value sold grew as the exit value of the closed positions did. */
  ghost predicate ValueKeepsPace(a: Account, b: Account) {
    Total(Sold, b.fills) - Sum(ExitValue, b.closed) == Total(Sold, a.fills) - Sum(ExitValue, a.closed)
  }

  lemma CloseKeepsShares(a: Account, b: Account, p: Position, price: real, why: string, code: string)
    requires PositionsHeldOnce(b) && p in b.open && b.closed == a.closed
    requires Total(SharesOut(code), b.fills)
          == Total(SharesOut(code), a.fills) + (if p.code == code then p.shares as real else 0.0)
    ensures SharesKeepPace(a, Close(b, p.journalId, price, why), code)
  {
    CloseBalances(b, p, price, why, Shares(code));
  }

  lemma CloseKeepsValue(a: Account, b: Account, p: Position, price: real, why: string)
    requires PositionsHeldOnce(b) && p in b.open && b.closed == a.closed
    requires Total(Sold, b.fills) == Total(Sold, a.fills) + Value(p, price)
    ensures ValueKeepsPace(a, Close(b, p.journalId, price, why))
  {
    CloseBalances(b, p, price, why, ExitValue);
    CloseRealises(b, p, price, why);
  }

  lemma ExitSells(p: Position, why: string, f: Quotes)
    requires PositionKey(p) in f
    ensures SoldValue(ExitRequest(p, why), f) == Value(p, f[PositionKey(p)])
  {
  }

  lemma ExitSales(a: Account, p: Position, why: string, f: Quotes, r: Rates)
    requires PositionKey(p) in f
    ensures Total(Sold, Place(a, ExitRequest(p, why), f, r).account.fills)
         == Total(Sold, a.fills) + Value(p, f[PositionKey(p)])
    ensures Place(a, ExitRequest(p, why), f, r).account.closed == a.closed
  {
    PlaceSales(a, ExitRequest(p, why), f, r, p.code);
    ExitSells(p, why, f);
  }

  /** Share counts keep pace whatever the two fetches answer. */
  lemma StopStepShares(s: Swept, p: Position, d: Quotes, f: Quotes, r: Rates, code: string)
    requires Lifecycle(s.account, r) && p in s.account.open
    ensures SharesKeepPace(s.account, StopStep(s, p, d, f, r).account, code)
  {
    if !s.raised && Breached(p, d) && s.account.started {
      var why := Trigger(p, d[PositionKey(p)]).value;
      var c := Place(s.account, ExitRequest(p, why), f, r).account;
      PlaceSales(s.account, ExitRequest(p, why), f, r, code);
      ExitKeepsOpen(s.account, p, why, f, r);
      if PositionKey(p) in f {
        PlaceKeeps(s.account, ExitRequest(p, why), f, r);
        CloseKeepsShares(s.account, c, p, d[PositionKey(p)], why, code);
      }
    }
  }

  /** The account between an exit order and the close that follows it. */
  lemma ExitPlaced(a: Account, p: Position, why: string, q: Quotes, r: Rates)
    requires Lifecycle(a, r) && p in a.open && PositionKey(p) in q
    ensures var c := Place(a, ExitRequest(p, why), q, r).account;
      && PositionsHeldOnce(c) && p in c.open && c.closed == a.closed
      && Total(Sold, c.fills) == Total(Sold, a.fills) + Value(p, q[PositionKey(p)])
  {
    ExitSales(a, p, why, q, r);
    ExitKeepsOpen(a, p, why, q, r);
    PlaceKeeps(a, ExitRequest(p, why), q, r);
  }

  /** An exit order and the close that follows it, both at the price `q` answers. */
  lemma ExitKeepsValue(a: Account, c: Account, p: Position, price: real, why: string, q: Quotes, r: Rates)
    requires Lifecycle(a, r) && p in a.open && PositionKey(p) in q && price == q[PositionKey(p)]
    requires c == Place(a, ExitRequest(p, why), q, r).account
    ensures ValueKeepsPace(a, Close(c, p.journalId, price, why))
  {
    ExitPlaced(a, p, why, q, r);
    CloseKeepsValue(a, c, p, price, why);
  }

  /** Values keep pace when both fetches answer the same. */
  lemma StopStepValue(s: Swept, p: Position, q: Quotes, r: Rates)
    requires Lifecycle(s.account, r) && p in s.account.open
    ensures ValueKeepsPace(s.account, StopStep(s, p, q, q, r).account)
  {
    if !s.raised && Breached(p, q) && s.account.started {
      var why := Trigger(p, q[PositionKey(p)]).value;
      var c := Place(s.account, ExitRequest(p, why), q, r).account;
      ExitKeepsOpen(s.account, p, why, q, r);
      ExitKeepsValue(s.account, c, p, q[PositionKey(p)], why, q, r);
    }
  }

  /** What one position of the stop pass does to both paces. */
  lemma StopStepSales(a: Account, s: Swept, p: Position, d: Quotes, f: Quotes, r: Rates, code: string)
    requires Lifecycle(s.account, r) && p in s.account.open
    requires SharesKeepPace(a, s.account, code) && (d == f ==> ValueKeepsPace(a, s.account))
    ensures var b := StopStep(s, p, d, f, r).account;
      SharesKeepPace(a, b, code) && (d == f ==> ValueKeepsPace(a, b))
  {
    StopStepShares(s, p, d, f, r, code);
    if d == f {
      StopStepValue(s, p, d, r);
    }
  }

  lemma {:induction false} StopPassSales(s: Swept, i: nat, d: Quotes, f: Quotes, r: Rates, code: string)
    requires Lifecycle(s.account, r) && i <= |s.account.open|
    ensures var b := StopPass(s, s.account.open[..i], d, f, r).account;
      SharesKeepPace(s.account, b, code) && (d == f ==> ValueKeepsPace(s.account, b))
  {
    if i > 0 {
      StopPassSales(s, i - 1, d, f, r, code);
      StopPassReach(s, i, d, f, r);
      StopStepSales(s.account, StopPass(s, s.account.open[..i - 1], d, f, r), s.account.open[i - 1], d, f, r, code);
    }
  }

  lemma SweepLaws(a: Account, d: Quotes, f: Quotes, r: Rates)
    requires Lifecycle(a, r) && PositionsAreBuys(a)
    ensures var b := Sweep(a, d, f, r).account;
      Base(b, r) == Base(a, r) && PositionsAreBuys(b)
  {
    FillPassLaws(a, a.book, d, r);
    FillPassKeeps(a, |a.book|, d, r);
    assert a.book[..|a.book|] == a.book;
    var s := FillPass(a, a.book, d, r);
    StopPassLaws(s, |s.account.open|, d, f, r);
    assert s.account.open[..|s.account.open|] == s.account.open;
  }

  lemma SweepSales(a: Account, d: Quotes, f: Quotes, r: Rates, code: string)
    requires Lifecycle(a, r) && NoSaleWaits(a.book)
    ensures var b := Sweep(a, d, f, r).account;
      SharesKeepPace(a, b, code) && (d == f ==> ValueKeepsPace(a, b))
  {
    FillPassSales(a, a.book, d, r, code);
    FillPassKeeps(a, |a.book|, d, r);
    assert a.book[..|a.book|] == a.book;
    var s := FillPass(a, a.book, d, r);
    StopPassSales(s, |s.account.open|, d, f, r, code);
    assert s.account.open[..|s.account.open|] == s.account.open;
  }

  // ---------------------------------------------------------------- whole runs

  /** Cash put in (or taken out) by the capital resets of a run. */
  function Injected(a: Account, cs: seq<Command>, r: Rates): real {
    if cs == [] then 0.0
    else
      var c := cs[|cs| - 1];
      Injected(a, cs[..|cs| - 1], r)
        + if c.Start? && Given(c.capital) then c.capital.value - Run(a, cs[..|cs| - 1], r).cash else 0.0
  }

  lemma StepLaws(a: Account, c: Command, r: Rates)
    requires Lifecycle(a, r) && PositionsAreBuys(a)
    ensures var b := Step(a, c, r);
      && Base(b, r) == Base(a, r) + (if c.Start? && Given(c.capital) then c.capital.value - a.cash else 0.0)
      && PositionsAreBuys(b)
  {
    match c
    case Start(_) =>
    case Stop => SameMoney(a, Step(a, c, r), r);
    case PlaceOrder(req, q) => PlaceLaws(a, req, q, r);
    case CancelOrder(id) => SameMoney(a, Cancel(a, id), r);
    case CheckAndFill(d, f) => SweepLaws(a, d, f, r);
  }

  /** The cash and position laws for every run, manual sales and resets included. */
  lemma {:induction false} RunLaws(capital: real, cs: seq<Command>, r: Rates)
    ensures var a := Run(Open(capital), cs, r);
      Base(a, r) == capital + Injected(Open(capital), cs, r) && PositionsAreBuys(a)
  {
    if cs != [] {
      var init := cs[..|cs| - 1];
      RunLaws(capital, init, r);
      RunKeepsLifecycle(capital, init, r);
      StepLaws(Run(Open(capital), init, r), cs[|cs| - 1], r);
    }
  }

  ghost predicate NoReset(c: Command) {
    c.Start? ==> !Given(c.capital)
  }

  ghost predicate NoManualSale(c: Command) {
    c.PlaceOrder? ==> c.req.side.Buy?
  }

  ghost predicate SteadyQuotes(c: Command) {
    c.CheckAndFill? ==> c.decide == c.fill
  }

  lemma {:induction false} NothingInjected(capital: real, cs: seq<Command>, r: Rates)
    requires forall c <- cs :: NoReset(c)
    ensures Injected(Open(capital), cs, r) == 0.0
  {
    if cs != [] {
      NothingInjected(capital, cs[..|cs| - 1], r);
      assert NoReset(cs[|cs| - 1]);
    }
  }

  /**
   * The account balances, resets taken into account, exactly when every filled
   * sale is the exit of a closed position at the same price.
   */
  lemma ConservedExactlyWhenSalesMatch(capital: real, cs: seq<Command>, r: Rates)
    ensures var a := Run(Open(capital), cs, r);
      Conserved(a, capital + Injected(Open(capital), cs, r), r) <==> SalesMatchExits(a)
  {
    RunLaws(capital, cs, r);
    GainIsExitLessEntry(Run(Open(capital), cs, r).closed);
  }

  /** Shares balance exactly when the shares sold are the shares of the closed positions. */
  lemma SharesExactlyWhenSalesClose(capital: real, cs: seq<Command>, r: Rates, code: string)
    ensures var a := Run(Open(capital), cs, r);
      SharesConserved(a, code) <==> SharesSoldMatchClosed(a, code)
  {
    RunLaws(capital, cs, r);
  }

  lemma {:induction false} RunSales(capital: real, cs: seq<Command>, r: Rates, code: string)
    requires forall c <- cs :: NoManualSale(c)
    ensures var a := Run(Open(capital), cs, r);
      && NoSaleWaits(a.book)
      && SharesSoldMatchClosed(a, code)
      && ((forall c <- cs :: SteadyQuotes(c)) ==> SalesMatchExits(a))
  {
    if cs != [] {
      var init, c := cs[..|cs| - 1], cs[|cs| - 1];
      var a := Run(Open(capital), init, r);
      RunSales(capital, init, r, code);
      RunKeepsLifecycle(capital, init, r);
      assert NoManualSale(c);
      match c
      case Start(_) =>
      case Stop =>
      case PlaceOrder(req, q) =>
        PlaceSales(a, req, q, r, code);
        PlaceAddsPending(a, req, q, r);
      case CancelOrder(id) =>
      case CheckAndFill(d, f) =>
        SweepSales(a, d, f, r, code);
        SweepAddsNoPending(a, d, f, r);
        assert SteadyQuotes(c) ==> d == f;
    }
  }

  /** The ledger conservation law: cash to the last unit, shares per code. */
  lemma LedgerConservation(capital: real, cs: seq<Command>, r: Rates)
    requires forall c <- cs :: NoReset(c) && NoManualSale(c) && SteadyQuotes(c)
    ensures Conserved(Run(Open(capital), cs, r), capital, r)
    ensures forall code: string :: SharesConserved(Run(Open(capital), cs, r), code)
  {
    RunSales(capital, cs, r, "");
    ConservedExactlyWhenSalesMatch(capital, cs, r);
    NothingInjected(capital, cs, r);
    SharesConservation(capital, cs, r);
  }

  /** The share law needs neither steady quotes nor an untouched capital. */
  lemma SharesConservation(capital: real, cs: seq<Command>, r: Rates)
    requires forall c <- cs :: NoManualSale(c)
    ensures forall code: string :: SharesConserved(Run(Open(capital), cs, r), code)
  {
    forall code: string
      ensures SharesConserved(Run(Open(capital), cs, r), code)
    {
      RunSales(capital, cs, r, code);
      SharesExactlyWhenSalesClose(capital, cs, r, code);
    }
  }
}
