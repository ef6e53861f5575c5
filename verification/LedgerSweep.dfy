// What one `check_and_fill_pending` sweep achieves: it is complete, it touches
// nothing that is not due, and a second sweep at the same quotes does nothing.
module LedgerSweep {
  import opened Ledger
  import opened LedgerLifecycle
  import opened LedgerHistory
  import opened LedgerConservation

  // ---------------------------------------------------------------- limit orders

  lemma {:induction false} FillPassCompletes(a: Account, snapshot: seq<Order>, q: Quotes, r: Rates)
    ensures forall o <- FillPass(a, snapshot, q, r).account.book :: o in snapshot ==> !Due(o, q)
  {
    if snapshot != [] {
      var init, last := snapshot[..|snapshot| - 1], snapshot[|snapshot| - 1];
      FillPassCompletes(a, init, q, r);
      assert snapshot == init + [last];
      if Due(last, q) {
        FillAddsNoPending(FillPass(a, init, q, r).account, last, q[OrderKey(last)], r);
      }
    }
  }

  /** An order that is not due stays in the book as it is. */
  lemma FillSpares(a: Account, o: Order, price: real, r: Rates, x: Order)
    requires x in a.book && x.id != o.id
    ensures x in Fill(a, o, price, r).account.book
  {
    WithoutMembers(a.book, o.id);
    ReplaceMembers(a.book, o.(status := Rejected, reason := INSUFFICIENT), x);
  }

  lemma {:induction false} FillPassSpares(a: Account, i: nat, q: Quotes, r: Rates, x: Order)
    requires Lifecycle(a, r) && i <= |a.book| && x in a.book && !Due(x, q)
    ensures x in FillPass(a, a.book[..i], q, r).account.book
  {
    if i > 0 {
      FillPassSpares(a, i - 1, q, r, x);
      assert a.book[..i][..i - 1] == a.book[..i - 1];
      var o := a.book[i - 1];
      if Due(o, q) {
        if x.id == o.id {
          SameIdSameOrder(a, x, o);
        }
        FillSpares(FillPass(a, a.book[..i - 1], q, r).account, o, q[OrderKey(o)], r, x);
      }
    }
  }

  // ---------------------------------------------------------------- positions

  /** A breached position stays open only where the second fetch had no answer. */
  lemma {:induction false} StopPassCompletes(s: Swept, ps: seq<Position>, d: Quotes, f: Quotes, r: Rates)
    requires s.account.started && !s.raised
    ensures var t := StopPass(s, ps, d, f, r);
      && t.account.started && !t.raised
      && forall p <- t.account.open ::
           p in s.account.open && (p in ps && Breached(p, d) ==> PositionKey(p) !in f)
  {
    if ps != [] {
      var init, last := ps[..|ps| - 1], ps[|ps| - 1];
      StopPassCompletes(s, init, d, f, r);
      assert ps == init + [last];
      var t := StopPass(s, init, d, f, r);
      if Breached(last, d) {
        var why := Trigger(last, d[PositionKey(last)]).value;
        ExitKeepsOpen(t.account, last, why, f, r);
        WithoutPositionMembers(t.account.open, last.journalId);
      }
    }
  }

  lemma {:induction false} StopPassSpares(s: Swept, i: nat, d: Quotes, f: Quotes, r: Rates, x: Position)
    requires PositionsHeldOnce(s.account) && i <= |s.account.open|
    requires x in s.account.open && (Breached(x, d) ==> PositionKey(x) !in f)
    ensures x in StopPass(s, s.account.open[..i], d, f, r).account.open
  {
    var ps := s.account.open;
    if i > 0 {
      StopPassSpares(s, i - 1, d, f, r, x);
      assert ps[..i][..i - 1] == ps[..i - 1];
      var t := StopPass(s, ps[..i - 1], d, f, r);
      var p := ps[i - 1];
      if !t.raised && Breached(p, d) && t.account.started {
        ExitKeepsOpen(t.account, p, Trigger(p, d[PositionKey(p)]).value, f, r);
        WithoutPositionMembers(t.account.open, p.journalId);
        if x.journalId == p.journalId {
          CountPositionMember(ps, p);
          assert CountPositions(ps, p.journalId) + CountPositions(s.account.closed, p.journalId) <= 1;
          SameJournalSamePosition(ps, x, p);
        }
      }
    }
  }

  lemma {:induction false} FillPassQuiet(a: Account, snapshot: seq<Order>, q: Quotes, r: Rates)
    ensures var s := FillPass(a, snapshot, q, r); !s.raised && s.account.started == a.started
    ensures (forall o <- snapshot :: !Due(o, q)) ==> FillPass(a, snapshot, q, r) == Swept(a, [], false)
  {
    if snapshot != [] {
      FillPassQuiet(a, snapshot[..|snapshot| - 1], q, r);
    }
  }

  lemma {:induction false} StopPassQuiet(s: Swept, ps: seq<Position>, d: Quotes, f: Quotes, r: Rates)
    requires forall p <- ps :: !Breached(p, d)
    ensures StopPass(s, ps, d, f, r) == s
  {
    if ps != [] {
      StopPassQuiet(s, ps[..|ps| - 1], d, f, r);
    }
  }

  // ---------------------------------------------------------------- the sweep

  /** Nothing is left to do at the quotes `q`. */
  ghost predicate Settled(a: Account, q: Quotes) {
    (forall o <- a.book :: !Due(o, q)) && (forall p <- a.open :: !Breached(p, q))
  }

  /**
   * On a started engine the sweep never raises; afterwards no order is due, and
   * of the positions open after the limit pass exactly those breached ones stay
   * open whose second fetch, the one that would have sold them, failed.
   */
  lemma SweepCompletes(a: Account, d: Quotes, f: Quotes, r: Rates)
    requires Lifecycle(a, r) && a.started
    ensures var s := Sweep(a, d, f, r);
      && !s.raised
      && (forall o <- s.account.book :: !Due(o, d))
      && (forall p <- s.account.open :: Breached(p, d) ==> PositionKey(p) !in f)
      && (forall p <- FillPass(a, a.book, d, r).account.open ::
            Breached(p, d) ==> (p in s.account.open <==> PositionKey(p) !in f))
  {
    FillPassCompletes(a, a.book, d, r);
    FillPassAddsNoPending(a, a.book, d, r);
    FillPassQuiet(a, a.book, d, r);
    FillPassKeeps(a, |a.book|, d, r);
    assert a.book[..|a.book|] == a.book;
    var s := FillPass(a, a.book, d, r);
    StopPassCompletes(s, s.account.open, d, f, r);
    StopPassAddsNoPending(s, s.account.open, d, f, r);
    UnsoldStay(s, d, f, r);
  }

  lemma {:induction false} UnsoldStay(s: Swept, d: Quotes, f: Quotes, r: Rates)
    requires Lifecycle(s.account, r)
    ensures forall p <- s.account.open ::
      (Breached(p, d) ==> PositionKey(p) !in f) ==> p in StopPass(s, s.account.open, d, f, r).account.open
  {
    assert s.account.open[..|s.account.open|] == s.account.open;
    forall p | p in s.account.open && (Breached(p, d) ==> PositionKey(p) !in f)
      ensures p in StopPass(s, s.account.open, d, f, r).account.open
    {
      StopPassSpares(s, |s.account.open|, d, f, r, p);
    }
  }

  /** Completeness at steady quotes, positions opened by the sweep itself included. */
  lemma SweepSettles(a: Account, q: Quotes, r: Rates)
    requires Lifecycle(a, r) && a.started
    ensures Settled(Sweep(a, q, q, r).account, q)
  {
    SweepCompletes(a, q, q, r);
  }

  /** A settled account is a fixed point of the sweep, and the only kind there is. */
  lemma SweepFixedPoint(a: Account, q: Quotes, r: Rates)
    requires Lifecycle(a, r) && a.started
    ensures Sweep(a, q, q, r) == Swept(a, [], false) <==> Settled(a, q)
  {
    if Settled(a, q) {
      FillPassQuiet(a, a.book, q, r);
      StopPassQuiet(Swept(a, [], false), a.open, q, q, r);
    } else if Sweep(a, q, q, r) == Swept(a, [], false) {
      SweepSettles(a, q, r);
    }
  }

  lemma SweepIdempotent(a: Account, q: Quotes, r: Rates)
    requires Lifecycle(a, r) && a.started
    ensures var b := Sweep(a, q, q, r).account; Sweep(b, q, q, r) == Swept(b, [], false)
  {
    var b := Sweep(a, q, q, r).account;
    SweepSettles(a, q, r);
    StepKeepsLifecycle(a, CheckAndFill(q, q), r);
    assert Step(a, CheckAndFill(q, q), r) == b;
    FillPassQuiet(a, a.book, q, r);
    var s := FillPass(a, a.book, q, r);
    StopPassCompletes(s, s.account.open, q, q, r);
    SweepFixedPoint(b, q, r);
  }

  /** Orders that are not due and positions that are not breached come out as they went in. */
  lemma SweepSpares(a: Account, d: Quotes, f: Quotes, r: Rates)
    requires Lifecycle(a, r)
    ensures var b := Sweep(a, d, f, r).account;
      && (forall p <- a.open :: !Breached(p, d) ==> p in b.open)
      && (forall o <- a.book :: !Due(o, d) ==> o in b.book)
  {
    var s := FillPass(a, a.book, d, r);
    var b := Sweep(a, d, f, r).account;
    FillPassKeeps(a, |a.book|, d, r);
    FillPassOpens(a, a.book, d, r);
    assert a.book[..|a.book|] == a.book;
    assert s.account.open[..|s.account.open|] == s.account.open;
    forall p | p in a.open && !Breached(p, d)
      ensures p in b.open
    {
      StopPassSpares(s, |s.account.open|, d, f, r, p);
    }
    forall o | o in a.book && !Due(o, d)
      ensures o in b.book
    {
      FillPassSpares(a, |a.book|, d, r, o);
      StopPassSparesOrder(s, s.account.open, d, f, r, o);
    }
  }

  lemma {:induction false} FillPassOpens(a: Account, snapshot: seq<Order>, q: Quotes, r: Rates)
    ensures a.open <= FillPass(a, snapshot, q, r).account.open
  {
    if snapshot != [] {
      FillPassOpens(a, snapshot[..|snapshot| - 1], q, r);
    }
  }

  /** Exit orders come and go under fresh ids. */
  lemma {:induction false} StopPassSparesOrder(
      s: Swept, ps: seq<Position>, d: Quotes, f: Quotes, r: Rates, x: Order)
    requires Lifecycle(s.account, r) && x in s.account.book
    ensures x in StopPass(s, ps, d, f, r).account.book
  {
    if ps != [] {
      var init, p := ps[..|ps| - 1], ps[|ps| - 1];
      StopPassSparesOrder(s, init, d, f, r, x);
      StopPassKeeps(s, init, d, f, r);
      var t := StopPass(s, init, d, f, r);
      if !t.raised && Breached(p, d) && t.account.started {
        PlaceSpares(t.account, ExitRequest(p, Trigger(p, d[PositionKey(p)]).value), f, r, x);
      }
    }
  }

  lemma PlaceSpares(a: Account, req: Request, q: Quotes, r: Rates, x: Order)
    requires OrdersPlacedOnce(a) && x in a.book
    ensures x in Place(a, req, q, r).account.book
  {
    var b, o := Booked(a, req), NewOrder(a, req);
    CountMember(a.book, x);
    assert Count(a.book, x.id) + Count(a.fills, x.id) >= 1;
    assert x.id != o.id;
    assert x in b.book;
    ReplaceMembers(b.book, o.(status := Rejected, reason := NO_QUOTE), x);
    if OrderKey(o) in q {
      FillSpares(b, o, q[OrderKey(o)], r, x);
    }
  }

  /** On a stopped engine the limit orders are still swept; the first breach then raises. */
  lemma SweepWhenStopped(a: Account, d: Quotes, f: Quotes, r: Rates)
    requires !a.started
    ensures var s := FillPass(a, a.book, d, r);
      Sweep(a, d, f, r) == s.(raised := exists p <- s.account.open :: Breached(p, d))
  {
    var s := FillPass(a, a.book, d, r);
    FillPassQuiet(a, a.book, d, r);
    StoppedPass(s, s.account.open, d, f, r);
  }

  lemma {:induction false} StoppedPass(s: Swept, ps: seq<Position>, d: Quotes, f: Quotes, r: Rates)
    requires !s.account.started && !s.raised
    ensures StopPass(s, ps, d, f, r) == s.(raised := exists p <- ps :: Breached(p, d))
  {
    if ps != [] {
      StoppedPass(s, ps[..|ps| - 1], d, f, r);
      assert ps == ps[..|ps| - 1] + [ps[|ps| - 1]];
    }
  }

  // ---------------------------------------------------------------- the returned list

  /** Either the order is among the fills, or it is a BUY turned away for lack of cash. */
  ghost predicate Accounted(o: Order, a: Account) {
    || (o.status.Filled? && o in a.fills)
    || (o.status.Rejected? && o.req.side.Buy? && o.reason == INSUFFICIENT && o in a.book)
  }

  ghost predicate AllAccounted(s: Swept) {
    forall o <- s.returned :: Accounted(o, s.account)
  }

  /** Accounted-for orders stay so: fills are only added, settled orders never change. */
  lemma AccountedExtends(o: Order, a: Account, b: Account)
    requires Extends(a, b) && Accounted(o, a)
    ensures Accounted(o, b)
  {
  }

  lemma FillAccounts(a: Account, o: Order, price: real, r: Rates)
    requires o in a.book
    ensures var p := Fill(a, o, price, r); Accounted(p.order, p.account)
  {
    var i :| 0 <= i < |a.book| && a.book[i] == o;
    var o' := o.(status := Rejected, reason := INSUFFICIENT);
    assert Replace(a.book, o')[i] == o';
  }

  lemma {:induction false} FillPassAccounts(a: Account, i: nat, q: Quotes, r: Rates)
    requires Lifecycle(a, r) && i <= |a.book|
    ensures AllAccounted(FillPass(a, a.book[..i], q, r))
  {
    if i > 0 {
      FillPassAccounts(a, i - 1, q, r);
      FillPassKeeps(a, i - 1, q, r);
      assert a.book[..i][..i - 1] == a.book[..i - 1];
      var s := FillPass(a, a.book[..i - 1], q, r);
      var o := a.book[i - 1];
      if Due(o, q) {
        FillAccountsAll(s, o, q[OrderKey(o)], r);
      }
    }
  }

  lemma FillAccountsAll(s: Swept, o: Order, price: real, r: Rates)
    requires OrdersPlacedOnce(s.account) && o in s.account.book && o.status.Pending?
    requires AllAccounted(s)
    ensures var p := Fill(s.account, o, price, r);
      AllAccounted(Swept(p.account, s.returned + [p.order], s.raised))
  {
    var p := Fill(s.account, o, price, r);
    FillAccounts(s.account, o, price, r);
    FillExtends(s.account, o, price, r);
    forall x | x in s.returned
      ensures Accounted(x, p.account)
    {
      AccountedExtends(x, s.account, p.account);
    }
  }

  lemma {:induction false} FillPassCovers(a: Account, snapshot: seq<Order>, q: Quotes, r: Rates)
    ensures var s := FillPass(a, snapshot, q, r);
      forall o <- snapshot :: Due(o, q) ==> exists x <- s.returned :: x.id == o.id
  {
    if snapshot != [] {
      var init, last := snapshot[..|snapshot| - 1], snapshot[|snapshot| - 1];
      FillPassCovers(a, init, q, r);
      var s, t := FillPass(a, init, q, r), FillPass(a, snapshot, q, r);
      if Due(last, q) {
        assert t.returned[|s.returned|].id == last.id;
      }
      forall o | o in snapshot && Due(o, q)
        ensures exists x <- t.returned :: x.id == o.id
      {
        if o in init {
          var x :| x in s.returned && x.id == o.id;
          assert x in t.returned;
        } else {
          assert o == last && t.returned[|s.returned|] in t.returned;
        }
      }
    }
  }

  lemma {:induction false} StopPassReturns(s: Swept, ps: seq<Position>, d: Quotes, f: Quotes, r: Rates)
    requires Lifecycle(s.account, r)
    requires AllAccounted(s)
    ensures var t := StopPass(s, ps, d, f, r);
      s.returned <= t.returned && AllAccounted(t)
  {
    if ps != [] {
      var init, p := ps[..|ps| - 1], ps[|ps| - 1];
      StopPassReturns(s, init, d, f, r);
      StopPassKeeps(s, init, d, f, r);
      var t := StopPass(s, init, d, f, r);
      StopStepExtends(t, p, d, f, r);
      var u := StopStep(t, p, d, f, r);
      forall o | o in u.returned
        ensures Accounted(o, u.account)
      {
        if o in t.returned {
          AccountedExtends(o, t.account, u.account);
        }
      }
    }
  }

  /**
   * The list a sweep returns: every order that was due is in it, and each entry
   * is FILLED or a BUY rejected for lack of cash (the source appends those too).
   */
  lemma SweepReturns(a: Account, d: Quotes, f: Quotes, r: Rates)
    requires Lifecycle(a, r)
    ensures var s := Sweep(a, d, f, r);
      && AllAccounted(s)
      && (forall o <- a.book :: Due(o, d) ==> exists x <- s.returned :: x.id == o.id)
  {
    FillPassAccounts(a, |a.book|, d, r);
    FillPassCovers(a, a.book, d, r);
    FillPassKeeps(a, |a.book|, d, r);
    assert a.book[..|a.book|] == a.book;
    var s := FillPass(a, a.book, d, r);
    StopPassReturns(s, s.account.open, d, f, r);
    forall o | o in a.book && Due(o, d)
      ensures exists x <- Sweep(a, d, f, r).returned :: x.id == o.id
    {
      var x :| x in s.returned && x.id == o.id;
      assert x in Sweep(a, d, f, r).returned;
    }
  }
}
