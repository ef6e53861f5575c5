// Order lifecycle, position lifecycle and solvency over every run of the
// paper-trading ledger.
module LedgerLifecycle {
  import opened Common
  import opened Ledger

  // ---------------------------------------------------------------- counting entries

  function Count(os: seq<Order>, id: nat): nat {
    if os == [] then 0
    else Count(os[..|os| - 1], id) + (if os[|os| - 1].id == id then 1 else 0)
  }

  function CountPositions(ps: seq<Position>, id: nat): nat {
    if ps == [] then 0
    else CountPositions(ps[..|ps| - 1], id) + (if ps[|ps| - 1].journalId == id then 1 else 0)
  }

  lemma CountAppend(os: seq<Order>, o: Order, id: nat)
    ensures Count(os + [o], id) == Count(os, id) + (if o.id == id then 1 else 0)
  {
    assert (os + [o])[..|os|] == os;
  }

  lemma CountPositionsAppend(ps: seq<Position>, p: Position, id: nat)
    ensures CountPositions(ps + [p], id) == CountPositions(ps, id) + (if p.journalId == id then 1 else 0)
  {
    assert (ps + [p])[..|ps|] == ps;
  }

  lemma {:induction false} CountReplace(os: seq<Order>, o: Order, id: nat)
    ensures Count(Replace(os, o), id) == Count(os, id)
  {
    if os != [] {
      var n := |os| - 1;
      CountReplace(os[..n], o, id);
      assert Replace(os, o)[..n] == Replace(os[..n], o);
    }
  }

  lemma {:induction false} CountWithout(os: seq<Order>, key: nat, id: nat)
    ensures Count(Without(os, key), id) == if id == key then 0 else Count(os, id)
  {
    if os != [] {
      var n := |os| - 1;
      CountWithout(os[..n], key, id);
      CountAppend(Without(os[..n], key), os[n], id);
    }
  }

  lemma {:induction false} CountPositionsWithout(ps: seq<Position>, key: nat, id: nat)
    ensures CountPositions(WithoutPosition(ps, key), id) == if id == key then 0 else CountPositions(ps, id)
  {
    if ps != [] {
      var n := |ps| - 1;
      CountPositionsWithout(ps[..n], key, id);
      CountPositionsAppend(WithoutPosition(ps[..n], key), ps[n], id);
    }
  }

  lemma {:induction false} CountMember(os: seq<Order>, o: Order)
    requires o in os
    ensures Count(os, o.id) >= 1
  {
    var n := |os| - 1;
    if os[n] != o {
      assert o in os[..n];
      CountMember(os[..n], o);
    }
  }

  lemma {:induction false} CountPositionMember(ps: seq<Position>, p: Position)
    requires p in ps
    ensures CountPositions(ps, p.journalId) >= 1
  {
    var n := |ps| - 1;
    if ps[n] != p {
      assert p in ps[..n];
      CountPositionMember(ps[..n], p);
    }
  }

  /** Membership after a key is dropped: exactly the entries under other keys. */
  lemma {:induction false} WithoutMembers(os: seq<Order>, id: nat)
    ensures forall o :: o in Without(os, id) <==> o in os && o.id != id
  {
    if os != [] {
      WithoutMembers(os[..|os| - 1], id);
      assert os == os[..|os| - 1] + [os[|os| - 1]];
    }
  }

  lemma {:induction false} WithoutPositionMembers(ps: seq<Position>, id: nat)
    ensures forall p :: p in WithoutPosition(ps, id) <==> p in ps && p.journalId != id
  {
    if ps != [] {
      WithoutPositionMembers(ps[..|ps| - 1], id);
      assert ps == ps[..|ps| - 1] + [ps[|ps| - 1]];
    }
  }

  // ---------------------------------------------------------------- the invariant

  predicate RespectsLimit(o: Order) {
    o.fillPrice.Some? && (o.req.limit.Some? ==> Crosses(o, o.fillPrice.value))
  }

  /** Each id handed out so far is in exactly one place, once. */
  ghost predicate OrdersPlacedOnce(a: Account) {
    forall id: nat :: Count(a.book, id) + Count(a.fills, id) == if id < a.nextOrder then 1 else 0
  }

  ghost predicate PositionsHeldOnce(a: Account) {
    forall id: nat ::
      CountPositions(a.open, id) + CountPositions(a.closed, id) == if id < a.nextJournal then 1 else 0
  }

  ghost predicate BookWaits(a: Account) {
    forall o <- a.book :: !o.status.Filled? && o.fillPrice.None?
  }

  ghost predicate FillsFilled(a: Account) {
    forall o <- a.fills :: o.status.Filled? && RespectsLimit(o)
  }

  /** `t` is the trade record of the filled order `o`. */
  ghost predicate RecordOf(o: Order, t: Trade, r: Rates) {
    o.fillPrice.Some? && t == TradeOf(o, o.fillPrice.value, ChargesOf(o, o.fillPrice.value, r))
  }

  /** The trade log is the fill list, record by record and in order. */
  ghost predicate LogMatches(a: Account, r: Rates) {
    && |a.log| == |a.fills|
    && forall i :: 0 <= i < |a.log| ==>
         RecordOf(a.fills[i], a.log[i], r)
  }

  ghost predicate PositionsMarked(a: Account) {
    && (forall p <- a.open :: p.isOpen && p.exit.None?)
    && (forall p <- a.closed :: !p.isOpen && p.exit.Some?)
  }

  ghost predicate Lifecycle(a: Account, r: Rates) {
    && OrdersPlacedOnce(a)
    && PositionsHeldOnce(a)
    && BookWaits(a)
    && FillsFilled(a)
    && LogMatches(a, r)
    && PositionsMarked(a)
  }

  // ---------------------------------------------------------------- preservation

  /** Going from `o`, still in the book, to the completed order. */
  lemma CompleteKeeps(a: Account, o: Order, price: real, r: Rates)
    requires Lifecycle(a, r) && o in a.book
    requires o.req.limit.Some? ==> Crosses(o, price)
    ensures Lifecycle(Complete(a, o, price, ChargesOf(o, price, r)).account, r)
  {
    var p := Complete(a, o, price, ChargesOf(o, price, r));
    CountMember(a.book, o);
    forall id: nat
      ensures Count(p.account.book, id) + Count(p.account.fills, id) == if id < a.nextOrder then 1 else 0
    {
      assert Count(a.book, id) + Count(a.fills, id) == if id < a.nextOrder then 1 else 0;
      CountWithout(a.book, o.id, id);
      CountAppend(a.fills, p.order, id);
    }
    WithoutMembers(a.book, o.id);
    SameRecord(o, p.order, price, r);
  }

  lemma SameRecord(o: Order, o': Order, price: real, r: Rates)
    requires o' == o.(status := Filled, fillPrice := Some(price))
    ensures RecordOf(o', TradeOf(o, price, ChargesOf(o, price, r)), r)
  {
    assert Commission(o', price, r) == Commission(o, price, r);
    assert Tax(o', price, r) == Tax(o, price, r);
  }

  lemma OpenKeeps(a: Account, p: Position, cash: real, r: Rates)
    requires Lifecycle(a, r)
    requires p.journalId == a.nextJournal && p.isOpen && p.exit.None?
    ensures Lifecycle(a.(cash := cash, open := a.open + [p], nextJournal := a.nextJournal + 1), r)
  {
    forall id: nat
      ensures CountPositions(a.open + [p], id) + CountPositions(a.closed, id) == if id < a.nextJournal + 1 then 1 else 0
    {
      assert CountPositions(a.open, id) + CountPositions(a.closed, id) == if id < a.nextJournal then 1 else 0;
      CountPositionsAppend(a.open, p, id);
    }
  }

  lemma UpdateKeeps(a: Account, o: Order, r: Rates)
    requires Lifecycle(a, r)
    requires !o.status.Filled? && !o.status.Pending? && o.fillPrice.None?
    ensures Lifecycle(a.(book := Replace(a.book, o)), r)
  {
    forall id: nat
      ensures Count(Replace(a.book, o), id) + Count(a.fills, id) == if id < a.nextOrder then 1 else 0
    {
      assert Count(a.book, id) + Count(a.fills, id) == if id < a.nextOrder then 1 else 0;
      CountReplace(a.book, o, id);
    }
  }

  lemma FillKeeps(a: Account, o: Order, price: real, r: Rates)
    requires Lifecycle(a, r) && o in a.book
    requires o.req.limit.Some? ==> Crosses(o, price)
    ensures Lifecycle(Fill(a, o, price, r).account, r)
  {
    var c := ChargesOf(o, price, r);
    if o.req.side.Buy? {
      if c.cost + c.commission > a.cash {
        UpdateKeeps(a, o.(status := Rejected, reason := INSUFFICIENT), r);
      } else {
        var b := a.(cash := a.cash - (c.cost + c.commission),
                    open := a.open + [OpenFor(o, price, a.nextJournal)], nextJournal := a.nextJournal + 1);
        OpenKeeps(a, OpenFor(o, price, a.nextJournal), b.cash, r);
        CompleteKeeps(b, o, price, r);
      }
    } else {
      CompleteKeeps(a.(cash := a.cash + (c.cost - c.commission - c.tax)), o, price, r);
    }
  }

  lemma BookKeeps(a: Account, o: Order, r: Rates)
    requires Lifecycle(a, r)
    requires o.id == a.nextOrder && o.status.Pending? && o.fillPrice.None?
    ensures Lifecycle(a.(book := a.book + [o], nextOrder := a.nextOrder + 1), r)
  {
    forall id: nat
      ensures Count(a.book + [o], id) + Count(a.fills, id) == if id < a.nextOrder + 1 then 1 else 0
    {
      assert Count(a.book, id) + Count(a.fills, id) == if id < a.nextOrder then 1 else 0;
      CountAppend(a.book, o, id);
    }
  }

  lemma PlaceKeeps(a: Account, req: Request, q: Quotes, r: Rates)
    requires Lifecycle(a, r)
    ensures Lifecycle(Place(a, req, q, r).account, r)
  {
    var b, o := Booked(a, req), NewOrder(a, req);
    BookKeeps(a, o, r);
    if req.limit.None? {
      assert o in b.book;
      if OrderKey(o) in q {
        FillKeeps(b, o, q[OrderKey(o)], r);
      } else {
        UpdateKeeps(b, o.(status := Rejected, reason := NO_QUOTE), r);
      }
    }
  }

  lemma CancelKeeps(a: Account, id: nat, r: Rates)
    requires Lifecycle(a, r)
    ensures Lifecycle(Cancel(a, id), r)
  {
    var o := FindOrder(a.book, id);
    if o.Some? && o.value.status.Pending? {
      UpdateKeeps(a, o.value.(status := Cancelled), r);
    }
  }

  lemma CloseKeeps(a: Account, id: nat, price: real, why: string, r: Rates)
    requires Lifecycle(a, r)
    ensures Lifecycle(Close(a, id, price, why), r)
  {
    var found := FindPosition(a.open, id);
    if found.Some? {
      var p := Exited(found.value, price, why);
      CountPositionMember(a.open, found.value);
      forall k: nat
        ensures CountPositions(WithoutPosition(a.open, id), k) + CountPositions(a.closed + [p], k)
             == if k < a.nextJournal then 1 else 0
      {
        assert CountPositions(a.open, k) + CountPositions(a.closed, k) == if k < a.nextJournal then 1 else 0;
        CountPositionsWithout(a.open, id, k);
        CountPositionsAppend(a.closed, p, k);
      }
      WithoutPositionMembers(a.open, id);
    }
  }

  lemma {:induction false} FillPassNext(a: Account, os: seq<Order>, i: nat, q: Quotes, r: Rates)
    requires i < |os|
    ensures FillPass(a, os[..i + 1], q, r) == FillStep(FillPass(a, os[..i], q, r), os[i], q, r)
  {
    assert os[..i + 1][..i] == os[..i];
  }

  lemma {:induction false} StopPassNext(s: Swept, ps: seq<Position>, i: nat, d: Quotes, f: Quotes, r: Rates)
    requires i < |ps|
    ensures StopPass(s, ps[..i + 1], d, f, r) == StopStep(StopPass(s, ps[..i], d, f, r), ps[i], d, f, r)
  {
    assert ps[..i + 1][..i] == ps[..i];
  }

  /** The snapshot entries the sweep has not reached yet are still in the book. */
  lemma {:induction false} FillPassKeeps(a: Account, i: nat, q: Quotes, r: Rates)
    requires Lifecycle(a, r) && i <= |a.book|
    ensures Lifecycle(FillPass(a, a.book[..i], q, r).account, r)
    ensures forall j :: i <= j < |a.book| ==> a.book[j] in FillPass(a, a.book[..i], q, r).account.book
  {
    if i > 0 {
      FillPassKeeps(a, i - 1, q, r);
      assert a.book[..i][..i - 1] == a.book[..i - 1];
      var s := FillPass(a, a.book[..i - 1], q, r);
      var o := a.book[i - 1];
      if Due(o, q) {
        FillKeeps(s.account, o, q[OrderKey(o)], r);
        WithoutMembers(s.account.book, o.id);
        forall j | i <= j < |a.book|
          ensures a.book[j] in FillStep(s, o, q, r).account.book
        {
          IdsDiffer(a, i - 1, j);
          ReplaceMembers(s.account.book, o.(status := Rejected, reason := INSUFFICIENT), a.book[j]);
        }
      }
    }
  }

  /** The limit pass up to its `i`-th order, and that this one is still in the book when it is reached. */
  lemma {:induction false} FillPassReach(a: Account, i: nat, q: Quotes, r: Rates)
    requires Lifecycle(a, r) && 0 < i <= |a.book|
    ensures var o, s := a.book[i - 1], FillPass(a, a.book[..i - 1], q, r);
      && Lifecycle(s.account, r) && o in s.account.book
      && FillPass(a, a.book[..i], q, r) == FillStep(s, o, q, r)
  {
    FillPassKeeps(a, i - 1, q, r);
    FillPassNext(a, a.book, i - 1, q, r);
  }

  lemma ReplaceMembers(book: seq<Order>, o: Order, x: Order)
    requires x in book && x.id != o.id
    ensures x in Replace(book, o)
  {
    var i :| 0 <= i < |book| && book[i] == x;
    assert Replace(book, o)[i] == x;
  }

  lemma IdsDiffer(a: Account, i: nat, j: nat)
    requires OrdersPlacedOnce(a) && i < j < |a.book|
    ensures a.book[i].id != a.book[j].id
  {
    var id := a.book[j].id;
    assert Count(a.book, id) + Count(a.fills, id) <= 1;
    CountPrefix(a.book, j + 1, id);
    assert a.book[..j + 1][..j] == a.book[..j];
    if a.book[i].id == id {
      assert a.book[i] in a.book[..j];
      CountMember(a.book[..j], a.book[i]);
    }
  }

  lemma {:induction false} CountPrefix(os: seq<Order>, i: nat, id: nat)
    requires i <= |os|
    ensures Count(os[..i], id) <= Count(os, id)
  {
    if i < |os| {
      CountPrefix(os[..|os| - 1], i, id);
      assert os[..|os| - 1][..i] == os[..i];
    } else {
      assert os[..i] == os;
    }
  }

  lemma StopStepKeeps(s: Swept, p: Position, d: Quotes, f: Quotes, r: Rates)
    requires Lifecycle(s.account, r)
    ensures Lifecycle(StopStep(s, p, d, f, r).account, r)
  {
    if !s.raised && Breached(p, d) && s.account.started {
      var price := d[PositionKey(p)];
      var why := Trigger(p, price).value;
      PlaceKeeps(s.account, ExitRequest(p, why), f, r);
      CloseKeeps(Place(s.account, ExitRequest(p, why), f, r).account, p.journalId, price, why, r);
    }
  }

  lemma {:induction false} StopPassKeeps(s: Swept, ps: seq<Position>, d: Quotes, f: Quotes, r: Rates)
    requires Lifecycle(s.account, r)
    ensures Lifecycle(StopPass(s, ps, d, f, r).account, r)
  {
    if ps != [] {
      StopPassKeeps(s, ps[..|ps| - 1], d, f, r);
      StopStepKeeps(StopPass(s, ps[..|ps| - 1], d, f, r), ps[|ps| - 1], d, f, r);
    }
  }

  lemma StepKeepsLifecycle(a: Account, c: Command, r: Rates)
    requires Lifecycle(a, r)
    ensures Lifecycle(Step(a, c, r), r)
  {
    match c
    case Start(_) =>
    case Stop =>
    case PlaceOrder(req, q) => PlaceKeeps(a, req, q, r);
    case CancelOrder(id) => CancelKeeps(a, id, r);
    case CheckAndFill(d, f) =>
      FillPassKeeps(a, |a.book|, d, r);
      assert a.book[..|a.book|] == a.book;
      var s := FillPass(a, a.book, d, r);
      StopPassKeeps(s, s.account.open, d, f, r);
  }

  /** Every account any run can reach has the lifecycle invariant. */
  lemma {:induction false} RunKeepsLifecycle(capital: real, cs: seq<Command>, r: Rates)
    ensures Lifecycle(Run(Open(capital), cs, r), r)
  {
    if cs != [] {
      RunKeepsLifecycle(capital, cs[..|cs| - 1], r);
      StepKeepsLifecycle(Run(Open(capital), cs[..|cs| - 1], r), cs[|cs| - 1], r);
    }
  }
}
