// What a run of the paper-trading ledger never undoes, and why its cash never
// goes negative.
module LedgerHistory {
  import opened Ledger
  import opened LedgerLifecycle

  // ---------------------------------------------------------------- nothing is rewritten

  /** The order is still known, under the same terms, in the book or among the fills. */
  ghost predicate Kept(o: Order, a: Account) {
    exists o' :: o' in a.book + a.fills && o'.id == o.id && o'.req == o.req
  }

  /**
   * `b` only adds to `a`: fills, trade records and closed positions are
   * appended, an order that is no longer PENDING stays exactly as it is, and a
   * PENDING one keeps its terms.
   */
  ghost predicate Extends(a: Account, b: Account) {
    && a.fills <= b.fills && a.log <= b.log && a.closed <= b.closed
    && (forall o <- a.book :: !o.status.Pending? ==> o in b.book)
    && (forall o <- a.book :: Kept(o, b))
  }

  lemma ExtendsTransitive(a: Account, b: Account, c: Account)
    requires Extends(a, b) && Extends(b, c)
    ensures Extends(a, c)
  {
    forall o | o in a.book
      ensures Kept(o, c)
    {
      var o' :| o' in b.book + b.fills && o'.id == o.id && o'.req == o.req;
      if o' in b.book {
        assert Kept(o', c);
        var o'' :| o'' in c.book + c.fills && o''.id == o'.id && o''.req == o'.req;
      } else {
        assert o' in c.book + c.fills;
      }
    }
  }

  lemma ExtendsSelf(a: Account)
    ensures Extends(a, a)
  {
    forall o | o in a.book
      ensures Kept(o, a)
    {
      assert o in a.book + a.fills;
    }
  }

  /** Under the lifecycle invariant an id names one order of the book. */
  lemma SameIdSameOrder(a: Account, x: Order, y: Order)
    requires OrdersPlacedOnce(a) && x in a.book && y in a.book && x.id == y.id
    ensures x == y
  {
    var i :| 0 <= i < |a.book| && a.book[i] == x;
    var j :| 0 <= j < |a.book| && a.book[j] == y;
    if i < j {
      IdsDiffer(a, i, j);
    } else if j < i {
      IdsDiffer(a, j, i);
    }
  }

  lemma UpdateExtends(a: Account, o: Order, o': Order)
    requires OrdersPlacedOnce(a) && o in a.book && o.status.Pending?
    requires o'.id == o.id && o'.req == o.req
    ensures Extends(a, a.(book := Replace(a.book, o')))
  {
    var b := a.(book := Replace(a.book, o'));
    forall x | x in a.book
      ensures Kept(x, b)
      ensures !x.status.Pending? ==> x in b.book
    {
      if x.id == o.id {
        SameIdSameOrder(a, x, o);
        var i :| 0 <= i < |a.book| && a.book[i] == o;
        assert Replace(a.book, o')[i] == o';
        assert o' in b.book + b.fills;
      } else {
        ReplaceMembers(a.book, o', x);
        assert x in b.book + b.fills;
      }
    }
  }

  lemma CompleteExtends(a: Account, o: Order, price: real, c: Charges)
    requires OrdersPlacedOnce(a) && o in a.book && o.status.Pending?
    ensures Extends(a, Complete(a, o, price, c).account)
  {
    var p := Complete(a, o, price, c);
    WithoutMembers(a.book, o.id);
    forall x | x in a.book
      ensures Kept(x, p.account)
      ensures !x.status.Pending? ==> x in p.account.book
    {
      if x.id == o.id {
        SameIdSameOrder(a, x, o);
        assert p.order in p.account.book + p.account.fills;
      } else {
        assert x in p.account.book + p.account.fills;
      }
    }
  }

  lemma SettleExtends(a: Account, o: Order, price: real, c: Charges)
    requires OrdersPlacedOnce(a) && o in a.book && o.status.Pending?
    ensures Extends(a, Settle(a, o, price, c).account)
  {
    if o.req.side.Buy? {
      if c.cost + c.commission > a.cash {
        UpdateExtends(a, o, o.(status := Rejected, reason := INSUFFICIENT));
      } else {
        var b := a.(cash := a.cash - (c.cost + c.commission),
                    open := a.open + [OpenFor(o, price, a.nextJournal)], nextJournal := a.nextJournal + 1);
        CompleteExtends(b, o, price, c);
        SameBook(a, b, Complete(b, o, price, c).account);
      }
    } else {
      var b := a.(cash := a.cash + (c.cost - c.commission - c.tax));
      CompleteExtends(b, o, price, c);
      SameBook(a, b, Complete(b, o, price, c).account);
    }
  }

  lemma FillExtends(a: Account, o: Order, price: real, r: Rates)
    requires OrdersPlacedOnce(a) && o in a.book && o.status.Pending?
    ensures Extends(a, Fill(a, o, price, r).account)
  {
    SettleExtends(a, o, price, ChargesOf(o, price, r));
  }

  lemma SameBook(a: Account, b: Account, c: Account)
    requires Extends(b, c)
    requires a.book == b.book && a.fills == b.fills && a.log == b.log && a.closed == b.closed
    ensures Extends(a, c)
  {
  }

  lemma BookingExtends(a: Account, req: Request)
    ensures Extends(a, Booked(a, req))
  {
    forall x | x in a.book
      ensures Kept(x, Booked(a, req))
    {
      assert x in Booked(a, req).book + Booked(a, req).fills;
    }
  }

  lemma PlaceExtends(a: Account, req: Request, q: Quotes, r: Rates)
    requires Lifecycle(a, r)
    ensures Extends(a, Place(a, req, q, r).account)
  {
    var b, o := Booked(a, req), NewOrder(a, req);
    BookingExtends(a, req);
    if req.limit.None? {
      BookKeeps(a, o, r);
      assert o in b.book;
      if OrderKey(o) in q {
        FillExtends(b, o, q[OrderKey(o)], r);
        ExtendsTransitive(a, b, Fill(b, o, q[OrderKey(o)], r).account);
      } else {
        UpdateExtends(b, o, o.(status := Rejected, reason := NO_QUOTE));
        ExtendsTransitive(a, b, Reject(b, o, NO_QUOTE).account);
      }
    }
  }

  lemma CloseExtends(a: Account, id: nat, price: real, why: string)
    ensures Extends(a, Close(a, id, price, why))
  {
    ExtendsSelf(a);
  }

  lemma FillStepExtends(s: Swept, o: Order, q: Quotes, r: Rates)
    requires OrdersPlacedOnce(s.account) && o in s.account.book
    ensures Extends(s.account, FillStep(s, o, q, r).account)
  {
    ExtendsSelf(s.account);
    if Due(o, q) {
      FillExtends(s.account, o, q[OrderKey(o)], r);
    }
  }

  lemma {:induction false} FillPassExtends(a: Account, i: nat, q: Quotes, r: Rates)
    requires Lifecycle(a, r) && i <= |a.book|
    ensures Extends(a, FillPass(a, a.book[..i], q, r).account)
  {
    if i == 0 {
      ExtendsSelf(a);
    } else {
      var s := FillPass(a, a.book[..i - 1], q, r);
      FillPassExtends(a, i - 1, q, r);
      FillPassReach(a, i, q, r);
      FillStepExtends(s, a.book[i - 1], q, r);
      ExtendsTransitive(a, s.account, FillStep(s, a.book[i - 1], q, r).account);
    }
  }

  lemma StopStepExtends(s: Swept, p: Position, d: Quotes, f: Quotes, r: Rates)
    requires Lifecycle(s.account, r)
    ensures Extends(s.account, StopStep(s, p, d, f, r).account)
  {
    ExtendsSelf(s.account);
    if !s.raised && Breached(p, d) && s.account.started {
      var price := d[PositionKey(p)];
      var why := Trigger(p, price).value;
      var placed := Place(s.account, ExitRequest(p, why), f, r);
      PlaceExtends(s.account, ExitRequest(p, why), f, r);
      CloseExtends(placed.account, p.journalId, price, why);
      ExtendsTransitive(s.account, placed.account, Close(placed.account, p.journalId, price, why));
    }
  }

  lemma {:induction false} StopPassExtends(s: Swept, ps: seq<Position>, d: Quotes, f: Quotes, r: Rates)
    requires Lifecycle(s.account, r)
    ensures Extends(s.account, StopPass(s, ps, d, f, r).account)
  {
    ExtendsSelf(s.account);
    if ps != [] {
      var init := ps[..|ps| - 1];
      StopPassExtends(s, init, d, f, r);
      StopPassKeeps(s, init, d, f, r);
      var t := StopPass(s, init, d, f, r);
      StopStepExtends(t, ps[|ps| - 1], d, f, r);
      ExtendsTransitive(s.account, t.account, StopPass(s, ps, d, f, r).account);
    }
  }

  lemma StepExtends(a: Account, c: Command, r: Rates)
    requires Lifecycle(a, r)
    ensures Extends(a, Step(a, c, r))
  {
    ExtendsSelf(a);
    match c
    case Start(_) =>
    case Stop =>
    case PlaceOrder(req, q) => PlaceExtends(a, req, q, r);
    case CancelOrder(id) =>
      var o := FindOrder(a.book, id);
      if o.Some? && o.value.status.Pending? {
        UpdateExtends(a, o.value, o.value.(status := Cancelled));
      }
    case CheckAndFill(d, f) =>
      FillPassExtends(a, |a.book|, d, r);
      FillPassKeeps(a, |a.book|, d, r);
      assert a.book[..|a.book|] == a.book;
      var s := FillPass(a, a.book, d, r);
      StopPassExtends(s, s.account.open, d, f, r);
      ExtendsTransitive(a, s.account, Step(a, c, r));
  }

  /** Between any two points of a run, the later account only adds to the earlier. */
  lemma {:induction false} RunExtends(capital: real, cs: seq<Command>, i: nat, r: Rates)
    requires i <= |cs|
    ensures Extends(Run(Open(capital), cs[..i], r), Run(Open(capital), cs, r))
  {
    if i == |cs| {
      assert cs[..i] == cs;
      ExtendsSelf(Run(Open(capital), cs, r));
    } else {
      var init := cs[..|cs| - 1];
      assert init[..i] == cs[..i];
      RunExtends(capital, init, i, r);
      RunKeepsLifecycle(capital, init, r);
      StepExtends(Run(Open(capital), init, r), cs[|cs| - 1], r);
      ExtendsTransitive(Run(Open(capital), cs[..i], r), Run(Open(capital), init, r), Run(Open(capital), cs, r));
    }
  }

  // ---------------------------------------------------------------- market orders settle at once

  /** Only limit orders wait in the book. */
  ghost predicate OnlyLimitsWait(a: Account) {
    forall o <- a.book :: o.status.Pending? ==> o.req.limit.Some?
  }

  /** Every PENDING order of `b` was already PENDING, unchanged, in `a`. */
  ghost predicate NoNewPending(a: Account, b: Account) {
    forall o <- b.book :: o.status.Pending? ==> o in a.book
  }

  lemma FillAddsNoPending(a: Account, o: Order, price: real, r: Rates)
    ensures NoNewPending(a, Fill(a, o, price, r).account)
    ensures forall x <- Fill(a, o, price, r).account.book :: x.id == o.id ==> !x.status.Pending?
  {
    WithoutMembers(a.book, o.id);
  }

  lemma PlaceAddsPending(a: Account, req: Request, q: Quotes, r: Rates)
    requires OrdersPlacedOnce(a)
    ensures forall o <- Place(a, req, q, r).account.book :: o.status.Pending? ==>
              o in a.book || (req.limit.Some? && o == NewOrder(a, req))
  {
    var o := NewOrder(a, req);
    if req.limit.None? && OrderKey(o) in q {
      FillAddsNoPending(Booked(a, req), o, q[OrderKey(o)], r);
    }
  }

  lemma {:induction false} FillPassAddsNoPending(a: Account, snapshot: seq<Order>, q: Quotes, r: Rates)
    ensures NoNewPending(a, FillPass(a, snapshot, q, r).account)
  {
    if snapshot != [] {
      var init, o := snapshot[..|snapshot| - 1], snapshot[|snapshot| - 1];
      FillPassAddsNoPending(a, init, q, r);
      if Due(o, q) {
        FillAddsNoPending(FillPass(a, init, q, r).account, o, q[OrderKey(o)], r);
      }
    }
  }

  lemma StopStepAddsNoPending(s: Swept, p: Position, d: Quotes, f: Quotes, r: Rates)
    requires Lifecycle(s.account, r)
    ensures NoNewPending(s.account, StopStep(s, p, d, f, r).account)
  {
    if !s.raised && Breached(p, d) && s.account.started {
      PlaceAddsPending(s.account, ExitRequest(p, Trigger(p, d[PositionKey(p)]).value), f, r);
    }
  }

  lemma {:induction false} StopPassAddsNoPending(s: Swept, ps: seq<Position>, d: Quotes, f: Quotes, r: Rates)
    requires Lifecycle(s.account, r)
    ensures NoNewPending(s.account, StopPass(s, ps, d, f, r).account)
  {
    if ps != [] {
      var init := ps[..|ps| - 1];
      StopPassAddsNoPending(s, init, d, f, r);
      StopPassKeeps(s, init, d, f, r);
      StopStepAddsNoPending(StopPass(s, init, d, f, r), ps[|ps| - 1], d, f, r);
    }
  }

  lemma SweepAddsNoPending(a: Account, d: Quotes, f: Quotes, r: Rates)
    requires Lifecycle(a, r)
    ensures NoNewPending(a, Sweep(a, d, f, r).account)
  {
    FillPassAddsNoPending(a, a.book, d, r);
    FillPassKeeps(a, |a.book|, d, r);
    assert a.book[..|a.book|] == a.book;
    var s := FillPass(a, a.book, d, r);
    StopPassAddsNoPending(s, s.account.open, d, f, r);
  }

  lemma {:induction false} RunMarketOrdersSettle(capital: real, cs: seq<Command>, r: Rates)
    ensures OnlyLimitsWait(Run(Open(capital), cs, r))
  {
    if cs != [] {
      var init, c := cs[..|cs| - 1], cs[|cs| - 1];
      var a := Run(Open(capital), init, r);
      RunMarketOrdersSettle(capital, init, r);
      RunKeepsLifecycle(capital, init, r);
      match c
      case Start(_) =>
      case Stop =>
      case PlaceOrder(req, q) => PlaceAddsPending(a, req, q, r);
      case CancelOrder(id) =>
      case CheckAndFill(d, f) => SweepAddsNoPending(a, d, f, r);
    }
  }

  // ---------------------------------------------------------------- solvency

  ghost predicate QuotesNonNegative(q: Quotes) {
    forall k <- q :: q[k] >= 0.0
  }

  /** Prices, share counts and reset amounts are not negative. */
  ghost predicate Sane(c: Command) {
    match c
    case Start(capital) => capital.Some? ==> capital.value >= 0.0
    case PlaceOrder(req, q) => req.shares >= 0 && QuotesNonNegative(q)
    case CheckAndFill(d, f) => QuotesNonNegative(d) && QuotesNonNegative(f)
    case _ => true
  }

  ghost predicate Solvent(a: Account) {
    && a.cash >= 0.0
    && (forall o <- a.book :: o.req.shares >= 0)
    && (forall p <- a.open :: p.shares >= 0)
  }

  /** What a sale brings in after its charges is not negative. */
  lemma ProceedsNonNegative(o: Order, price: real, r: Rates)
    requires price >= 0.0 && o.req.shares >= 0 && r.commission + r.tax <= 1.0
    ensures Cost(o, price) - Commission(o, price, r) - Tax(o, price, r) >= 0.0 || o.req.side.Buy?
  {
    var cost := Cost(o, price);
    assert cost >= 0.0;
    if o.req.side.Sell? {
      var keep := 1.0 - (r.commission + r.tax);
      assert cost - Commission(o, price, r) - Tax(o, price, r) == cost * keep;
      assert cost * keep >= 0.0;
    }
  }

  lemma FillSolvent(a: Account, o: Order, price: real, r: Rates)
    requires Solvent(a) && o.req.shares >= 0 && price >= 0.0 && r.commission + r.tax <= 1.0
    ensures Solvent(Fill(a, o, price, r).account)
  {
    WithoutMembers(a.book, o.id);
    ProceedsNonNegative(o, price, r);
  }

  lemma PlaceSolvent(a: Account, req: Request, q: Quotes, r: Rates)
    requires Solvent(a) && req.shares >= 0 && QuotesNonNegative(q) && r.commission + r.tax <= 1.0
    ensures Solvent(Place(a, req, q, r).account)
  {
    var o := NewOrder(a, req);
    if req.limit.None? && OrderKey(o) in q {
      FillSolvent(Booked(a, req), o, q[OrderKey(o)], r);
    }
  }

  lemma {:induction false} FillPassSolvent(a: Account, snapshot: seq<Order>, q: Quotes, r: Rates)
    requires Solvent(a) && QuotesNonNegative(q) && r.commission + r.tax <= 1.0
    requires forall o <- snapshot :: o.req.shares >= 0
    ensures Solvent(FillPass(a, snapshot, q, r).account)
  {
    if snapshot != [] {
      var init, o := snapshot[..|snapshot| - 1], snapshot[|snapshot| - 1];
      FillPassSolvent(a, init, q, r);
      if Due(o, q) {
        FillSolvent(FillPass(a, init, q, r).account, o, q[OrderKey(o)], r);
      }
    }
  }

  lemma {:induction false} StopPassSolvent(s: Swept, ps: seq<Position>, d: Quotes, f: Quotes, r: Rates)
    requires Solvent(s.account) && QuotesNonNegative(f) && r.commission + r.tax <= 1.0
    requires forall p <- ps :: p.shares >= 0
    ensures Solvent(StopPass(s, ps, d, f, r).account)
  {
    if ps != [] {
      var init, p := ps[..|ps| - 1], ps[|ps| - 1];
      StopPassSolvent(s, init, d, f, r);
      var t := StopPass(s, init, d, f, r);
      if !t.raised && Breached(p, d) && t.account.started {
        var why := Trigger(p, d[PositionKey(p)]).value;
        PlaceSolvent(t.account, ExitRequest(p, why), f, r);
        WithoutPositionMembers(Place(t.account, ExitRequest(p, why), f, r).account.open, p.journalId);
      }
    }
  }

  /** Available cash never goes negative, manual sales included. */
  lemma {:induction false} RunSolvent(capital: real, cs: seq<Command>, r: Rates)
    requires capital >= 0.0 && r.commission + r.tax <= 1.0
    requires forall c <- cs :: Sane(c)
    ensures Solvent(Run(Open(capital), cs, r))
  {
    if cs != [] {
      var init, c := cs[..|cs| - 1], cs[|cs| - 1];
      var a := Run(Open(capital), init, r);
      RunSolvent(capital, init, r);
      assert Sane(c);
      match c
      case Start(_) =>
      case Stop =>
      case PlaceOrder(req, q) => PlaceSolvent(a, req, q, r);
      case CancelOrder(id) =>
      case CheckAndFill(d, f) =>
        FillPassSolvent(a, a.book, d, r);
        var s := FillPass(a, a.book, d, r);
        StopPassSolvent(s, s.account.open, d, f, r);
    }
  }
}
