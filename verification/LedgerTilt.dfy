// What upsets the conservation laws of the paper-trading ledger, command by
// command: sales that close no position, and exits whose two quotes differ.
module LedgerTilt {
  import opened Common
  import opened Ledger
  import opened LedgerLifecycle
  import opened LedgerHistory
  import opened LedgerConservation
  import opened LedgerSweep

  // ---------------------------------------------------------------- how far the laws are off

  /** The value sold beyond the exit value of the closed positions. */
  function Tilt(a: Account): real {
    Total(Sold, a.fills) - Sum(ExitValue, a.closed)
  }

  /** The shares of one code sold beyond those of its closed positions. */
  function ShareTilt(a: Account, code: string): real {
    Total(SharesOut(code), a.fills) - Sum(Shares(code), a.closed)
  }

  predicate DueSale(o: Order, q: Quotes) {
    Due(o, q) && o.req.side.Sell?
  }

  /** What the due limit sales of a book will sell, in value and in shares of one code. */
  function Waiting(os: seq<Order>, q: Quotes): real {
    if os == [] then 0.0
    else
      var o := os[|os| - 1];
      Waiting(os[..|os| - 1], q) + if DueSale(o, q) then Cost(o, q[OrderKey(o)]) else 0.0
  }

  function WaitingShares(os: seq<Order>, q: Quotes, code: string): real {
    if os == [] then 0.0
    else
      var o := os[|os| - 1];
      WaitingShares(os[..|os| - 1], q, code)
        + if DueSale(o, q) && o.req.code == code then o.req.shares as real else 0.0
  }

  /** What one exit sells beyond the value its position is closed at. */
  function SlipOf(p: Position, d: Quotes, f: Quotes): real {
    if Breached(p, d) && PositionKey(p) in f then Value(p, f[PositionKey(p)]) - Value(p, d[PositionKey(p)]) else 0.0
  }

  function Slip(ps: seq<Position>, d: Quotes, f: Quotes): real {
    if ps == [] then 0.0 else Slip(ps[..|ps| - 1], d, f) + SlipOf(ps[|ps| - 1], d, f)
  }

  /** By how much a sweep will upset the cash law; a stopped engine exits no position. */
  function SweepTilt(a: Account, d: Quotes, f: Quotes, r: Rates): real {
    Waiting(a.book, d) + if a.started then Slip(FillPass(a, a.book, d, r).account.open, d, f) else 0.0
  }

  /** By how much a command given to this account will upset the cash law ... */
  function Upset(a: Account, c: Command, r: Rates): real {
    match c
    case PlaceOrder(req, q) => if a.started then SoldValue(req, q) else 0.0
    case CheckAndFill(d, f) => SweepTilt(a, d, f, r)
    case _ => 0.0
  }

  /** ... and the share law of one code. */
  function UpsetShares(a: Account, c: Command, code: string): real {
    match c
    case PlaceOrder(req, q) => if a.started then SoldShares(req, q, code) else 0.0
    case CheckAndFill(d, _) => WaitingShares(a.book, d, code)
    case _ => 0.0
  }

  /** The same, added up over a run. */
  function Upsets(a: Account, cs: seq<Command>, r: Rates): real {
    if cs == [] then 0.0
    else Upsets(a, cs[..|cs| - 1], r) + Upset(Run(a, cs[..|cs| - 1], r), cs[|cs| - 1], r)
  }

  function UpsetsShares(a: Account, cs: seq<Command>, r: Rates, code: string): real {
    if cs == [] then 0.0
    else UpsetsShares(a, cs[..|cs| - 1], r, code) + UpsetShares(Run(a, cs[..|cs| - 1], r), cs[|cs| - 1], code)
  }

  // ---------------------------------------------------------------- one command

  lemma PlaceTilts(a: Account, req: Request, q: Quotes, r: Rates, code: string)
    ensures var b := Place(a, req, q, r).account;
      && Tilt(b) == Tilt(a) + SoldValue(req, q)
      && ShareTilt(b, code) == ShareTilt(a, code) + SoldShares(req, q, code)
  {
    var b := Place(a, req, q, r).account;
    PlaceSales(a, req, q, r, code);
    assert Sum(ExitValue, b.closed) == Sum(ExitValue, a.closed);
    assert Sum(Shares(code), b.closed) == Sum(Shares(code), a.closed);
  }

  lemma {:induction false} FillPassTilts(a: Account, snapshot: seq<Order>, q: Quotes, r: Rates, code: string)
    ensures var b := FillPass(a, snapshot, q, r).account;
      && b.closed == a.closed
      && Total(Sold, b.fills) == Total(Sold, a.fills) + Waiting(snapshot, q)
      && Total(SharesOut(code), b.fills) == Total(SharesOut(code), a.fills) + WaitingShares(snapshot, q, code)
  {
    if snapshot != [] {
      var init, o := snapshot[..|snapshot| - 1], snapshot[|snapshot| - 1];
      FillPassTilts(a, init, q, r, code);
      if Due(o, q) {
        FillSales(FillPass(a, init, q, r).account, o, q[OrderKey(o)], r, code);
      }
    }
  }

  lemma CloseTilts(a: Account, b: Account, p: Position, closed: real, why: string, amount: real)
    requires PositionsHeldOnce(b) && p in b.open && b.closed == a.closed
    requires Total(Sold, b.fills) == Total(Sold, a.fills) + amount
    ensures Tilt(Close(b, p.journalId, closed, why)) == Tilt(a) + amount - Value(p, closed)
  {
    CloseBalances(b, p, closed, why, ExitValue);
    CloseRealises(b, p, closed, why);
  }

  /** An exit order that fills, and the close that follows it. */
  lemma FilledExitTilts(a: Account, p: Position, closed: real, why: string, f: Quotes, r: Rates)
    requires Lifecycle(a, r) && p in a.open && PositionKey(p) in f
    ensures Tilt(Close(Place(a, ExitRequest(p, why), f, r).account, p.journalId, closed, why))
         == Tilt(a) + Value(p, f[PositionKey(p)]) - Value(p, closed)
  {
    ExitPlaced(a, p, why, f, r);
    CloseTilts(a, Place(a, ExitRequest(p, why), f, r).account, p, closed, why, Value(p, f[PositionKey(p)]));
  }

  /** One position of the stop pass. */
  lemma ExitTilts(s: Swept, p: Position, d: Quotes, f: Quotes, r: Rates)
    requires Lifecycle(s.account, r) && p in s.account.open && s.account.started && !s.raised
    ensures Tilt(StopStep(s, p, d, f, r).account) == Tilt(s.account) + SlipOf(p, d, f)
  {
    if Breached(p, d) {
      var why := Trigger(p, d[PositionKey(p)]).value;
      ExitKeepsOpen(s.account, p, why, f, r);
      if PositionKey(p) in f {
        FilledExitTilts(s.account, p, d[PositionKey(p)], why, f, r);
      }
    }
  }

  lemma {:induction false} StopPassRuns(s: Swept, ps: seq<Position>, d: Quotes, f: Quotes, r: Rates)
    requires s.account.started && !s.raised
    ensures StopPass(s, ps, d, f, r).account.started && !StopPass(s, ps, d, f, r).raised
  {
    StopPassCompletes(s, ps, d, f, r);
  }

  lemma {:induction false} StopPassTilts(s: Swept, i: nat, d: Quotes, f: Quotes, r: Rates)
    requires Lifecycle(s.account, r) && s.account.started && !s.raised && i <= |s.account.open|
    ensures var ps := s.account.open[..i]; Tilt(StopPass(s, ps, d, f, r).account) == Tilt(s.account) + Slip(ps, d, f)
  {
    if i > 0 {
      var ps := s.account.open;
      StopPassTilts(s, i - 1, d, f, r);
      StopPassReach(s, i, d, f, r);
      StopPassRuns(s, ps[..i - 1], d, f, r);
      ExitTilts(StopPass(s, ps[..i - 1], d, f, r), ps[i - 1], d, f, r);
      assert ps[..i][..i - 1] == ps[..i - 1];
    }
  }

  /** A sweep sells its due limit sales for nothing, and slips at each exit by what the quote moved. */
  lemma SweepTilts(a: Account, d: Quotes, f: Quotes, r: Rates)
    requires Lifecycle(a, r)
    ensures Tilt(Sweep(a, d, f, r).account) == Tilt(a) + SweepTilt(a, d, f, r)
  {
    var s := FillPass(a, a.book, d, r);
    FillPassTilts(a, a.book, d, r, "");
    FillPassQuiet(a, a.book, d, r);
    if a.started {
      FillPassKeeps(a, |a.book|, d, r);
      assert a.book[..|a.book|] == a.book;
      StopPassTilts(s, |s.account.open|, d, f, r);
      assert s.account.open[..|s.account.open|] == s.account.open;
    } else {
      SweepWhenStopped(a, d, f, r);
    }
  }

  lemma SweepTiltsShares(a: Account, d: Quotes, f: Quotes, r: Rates, code: string)
    requires Lifecycle(a, r)
    ensures ShareTilt(Sweep(a, d, f, r).account, code) == ShareTilt(a, code) + WaitingShares(a.book, d, code)
  {
    var s := FillPass(a, a.book, d, r);
    FillPassTilts(a, a.book, d, r, code);
    FillPassKeeps(a, |a.book|, d, r);
    assert a.book[..|a.book|] == a.book;
    StopPassSales(s, |s.account.open|, d, f, r, code);
    assert s.account.open[..|s.account.open|] == s.account.open;
  }

  lemma StepTilts(a: Account, c: Command, r: Rates, code: string)
    requires Lifecycle(a, r)
    ensures Tilt(Step(a, c, r)) == Tilt(a) + Upset(a, c, r)
    ensures ShareTilt(Step(a, c, r), code) == ShareTilt(a, code) + UpsetShares(a, c, code)
  {
    match c
    case Start(_) =>
    case Stop =>
    case PlaceOrder(req, q) => PlaceTilts(a, req, q, r, code);
    case CancelOrder(id) =>
    case CheckAndFill(d, f) =>
      SweepTilts(a, d, f, r);
      SweepTiltsShares(a, d, f, r, code);
  }

  // ---------------------------------------------------------------- whole runs

  lemma {:induction false} RunTilts(capital: real, cs: seq<Command>, r: Rates, code: string)
    ensures Tilt(Run(Open(capital), cs, r)) == Upsets(Open(capital), cs, r)
    ensures ShareTilt(Run(Open(capital), cs, r), code) == UpsetsShares(Open(capital), cs, r, code)
  {
    if cs != [] {
      var init := cs[..|cs| - 1];
      RunTilts(capital, init, r, code);
      RunKeepsLifecycle(capital, init, r);
      StepTilts(Run(Open(capital), init, r), cs[|cs| - 1], r, code);
    }
  }

  /** For every run: the cash law holds, resets taken into account, exactly when the upsets add up to nothing. */
  lemma {:induction false} ConservedExactlyWhen(capital: real, cs: seq<Command>, r: Rates)
    ensures Conserved(Run(Open(capital), cs, r), capital + Injected(Open(capital), cs, r), r)
       <==> Upsets(Open(capital), cs, r) == 0.0
    ensures (forall c <- cs :: NoReset(c)) ==>
      (Conserved(Run(Open(capital), cs, r), capital, r) <==> Upsets(Open(capital), cs, r) == 0.0)
  {
    RunTilts(capital, cs, r, "");
    ConservedExactlyWhenSalesMatch(capital, cs, r);
    if forall c <- cs :: NoReset(c) {
      NothingInjected(capital, cs, r);
    }
  }

  /** For every run and code: the share law holds exactly when the upsets of that code add up to nothing. */
  lemma {:induction false} SharesConservedExactlyWhen(capital: real, cs: seq<Command>, r: Rates, code: string)
    ensures SharesConserved(Run(Open(capital), cs, r), code) <==> UpsetsShares(Open(capital), cs, r, code) == 0.0
  {
    RunTilts(capital, cs, r, code);
    SharesExactlyWhenSalesClose(capital, cs, r, code);
  }

  /** The account after a run balances, resets taken into account. */
  ghost predicate Balances(capital: real, cs: seq<Command>, r: Rates) {
    Conserved(Run(Open(capital), cs, r), capital + Injected(Open(capital), cs, r), r)
  }

  /** From a balanced account, any one command keeps the cash law exactly when it upsets it by nothing. */
  lemma {:induction false} CommandKeepsBalanceExactly(capital: real, cs: seq<Command>, r: Rates)
    requires cs != [] && Balances(capital, cs[..|cs| - 1], r)
    ensures Balances(capital, cs, r) <==> Upset(Run(Open(capital), cs[..|cs| - 1], r), cs[|cs| - 1], r) == 0.0
  {
    BalancesExactly(capital, cs[..|cs| - 1], r);
    BalancesExactly(capital, cs, r);
  }

  lemma {:induction false} BalancesExactly(capital: real, cs: seq<Command>, r: Rates)
    ensures Balances(capital, cs, r) <==> Upsets(Open(capital), cs, r) == 0.0
  {
    ConservedExactlyWhen(capital, cs, r);
  }

  /** From an account whose shares balance, likewise for the share law of that code. */
  lemma {:induction false} CommandKeepsSharesExactly(capital: real, cs: seq<Command>, r: Rates, code: string)
    requires cs != [] && SharesConserved(Run(Open(capital), cs[..|cs| - 1], r), code)
    ensures SharesConserved(Run(Open(capital), cs, r), code)
       <==> UpsetShares(Run(Open(capital), cs[..|cs| - 1], r), cs[|cs| - 1], code) == 0.0
  {
    SharesConservedExactlyWhen(capital, cs[..|cs| - 1], r, code);
    SharesConservedExactlyWhen(capital, cs, r, code);
  }

  lemma {:induction false} NoSlip(ps: seq<Position>, d: Quotes)
    ensures Slip(ps, d, d) == 0.0
  {
    if ps != [] {
      NoSlip(ps[..|ps| - 1], d);
    }
  }

  /** At steady quotes a sweep upsets the cash law by what its due limit sales sell, and by nothing else. */
  lemma SteadySweepUpsets(a: Account, q: Quotes, r: Rates)
    ensures Upset(a, CheckAndFill(q, q), r) == Waiting(a.book, q)
  {
    NoSlip(FillPass(a, a.book, q, r).account.open, q);
  }

  // ---------------------------------------------------------------- shares never come back

  /** No order asks for a negative number of shares. */
  ghost predicate SharesAsked(c: Command) {
    c.PlaceOrder? ==> c.req.shares >= 0
  }

  ghost predicate WaitNonNegative(a: Account) {
    forall o <- a.book :: o.status.Pending? ==> o.req.shares >= 0
  }

  lemma {:induction false} StepWaits(a: Account, c: Command, r: Rates)
    requires Lifecycle(a, r) && WaitNonNegative(a) && SharesAsked(c)
    ensures WaitNonNegative(Step(a, c, r))
  {
    match c
    case Start(_) =>
    case Stop =>
    case PlaceOrder(req, q) => PlaceAddsPending(a, req, q, r);
    case CancelOrder(id) =>
    case CheckAndFill(d, f) => SweepAddsNoPending(a, d, f, r);
  }

  lemma {:induction false} RunWaits(capital: real, cs: seq<Command>, r: Rates)
    requires forall c <- cs :: SharesAsked(c)
    ensures WaitNonNegative(Run(Open(capital), cs, r))
  {
    if cs != [] {
      var init := cs[..|cs| - 1];
      RunWaits(capital, init, r);
      RunKeepsLifecycle(capital, init, r);
      StepWaits(Run(Open(capital), init, r), cs[|cs| - 1], r);
    }
  }

  lemma {:induction false} WaitingNonNegative(os: seq<Order>, q: Quotes, code: string)
    requires forall o <- os :: o.status.Pending? ==> o.req.shares >= 0
    ensures WaitingShares(os, q, code) >= 0.0
  {
    if os != [] {
      WaitingNonNegative(os[..|os| - 1], q, code);
      assert os[|os| - 1] in os;
    }
  }

  lemma {:induction false} UpsetNonNegative(a: Account, c: Command, code: string)
    requires WaitNonNegative(a) && SharesAsked(c)
    ensures UpsetShares(a, c, code) >= 0.0
  {
    if c.CheckAndFill? {
      WaitingNonNegative(a.book, c.decide, code);
    }
  }

  /** By how much the `i`-th command of the run upsets the share law of the code. */
  function UpsetAt(capital: real, cs: seq<Command>, r: Rates, code: string, i: nat): real
    requires i < |cs|
  {
    UpsetShares(Run(Open(capital), cs[..i], r), cs[i], code)
  }

  /** Some command of the run upsets the share law of the code. */
  ghost predicate EverUpset(capital: real, cs: seq<Command>, r: Rates, code: string) {
    exists i :: 0 <= i < |cs| && UpsetAt(capital, cs, r, code, i) != 0.0
  }

  lemma {:induction false} UpsetEarlier(capital: real, cs: seq<Command>, r: Rates, code: string, i: nat)
    requires i < |cs| - 1
    ensures UpsetAt(capital, cs[..|cs| - 1], r, code, i) == UpsetAt(capital, cs, r, code, i)
  {
    assert cs[..|cs| - 1][..i] == cs[..i];
  }

  lemma {:induction false} EverUpsetStep(capital: real, cs: seq<Command>, r: Rates, code: string)
    requires cs != []
    ensures var n := |cs| - 1;
      EverUpset(capital, cs, r, code) <==>
        EverUpset(capital, cs[..n], r, code) || UpsetAt(capital, cs, r, code, n) != 0.0
  {
    var n := |cs| - 1;
    var init := cs[..n];
    if EverUpset(capital, init, r, code) {
      var i :| 0 <= i < n && UpsetAt(capital, init, r, code, i) != 0.0;
      UpsetEarlier(capital, cs, r, code, i);
    }
    if EverUpset(capital, cs, r, code) {
      var i :| 0 <= i <= n && UpsetAt(capital, cs, r, code, i) != 0.0;
      if i < n {
        UpsetEarlier(capital, cs, r, code, i);
      }
    }
  }

  lemma {:induction false} UpsetsAddUp(capital: real, cs: seq<Command>, r: Rates, code: string)
    requires forall c <- cs :: SharesAsked(c)
    ensures UpsetsShares(Open(capital), cs, r, code) >= 0.0
    ensures UpsetsShares(Open(capital), cs, r, code) == 0.0 <==> !EverUpset(capital, cs, r, code)
  {
    if cs != [] {
      var init := cs[..|cs| - 1];
      UpsetsAddUp(capital, init, r, code);
      RunWaits(capital, init, r);
      assert cs[|cs| - 1] in cs;
      UpsetNonNegative(Run(Open(capital), init, r), cs[|cs| - 1], code);
      EverUpsetStep(capital, cs, r, code);
    }
  }

  /**
   * Where no order asks for a negative number of shares, the share law of a code
   * holds exactly if no command ever upset it: once broken it stays broken.
   */
  lemma {:induction false} SharesConservedExactlyIfNeverUpset(
      capital: real, cs: seq<Command>, r: Rates, code: string)
    requires forall c <- cs :: SharesAsked(c)
    ensures SharesConserved(Run(Open(capital), cs, r), code) <==> !EverUpset(capital, cs, r, code)
  {
    UpsetsAddUp(capital, cs, r, code);
    SharesConservedExactlyWhen(capital, cs, r, code);
  }

  // ---------------------------------------------------------------- single cases

  lemma SameValue(p: Position, x: real, y: real)
    ensures Value(p, x) == Value(p, y) <==> x == y || p.shares == 0
  {
    var n := p.shares as real;
    assert Value(p, x) - Value(p, y) == (x - y) * n;
  }

  /**
   * The exit of one position keeps the cash law exactly when the two fetches
   * agree: the order fills at the second price, the position closes at the first.
   */
  lemma ExitBalancesExactly(s: Swept, p: Position, d: Quotes, f: Quotes, r: Rates)
    requires Lifecycle(s.account, r) && p in s.account.open && s.account.started && !s.raised
    requires Breached(p, d) && PositionKey(p) in f
    ensures Tilt(StopStep(s, p, d, f, r).account) == Tilt(s.account)
       <==> d[PositionKey(p)] == f[PositionKey(p)] || p.shares == 0
  {
    var sold, closed := f[PositionKey(p)], d[PositionKey(p)];
    SameValue(p, sold, closed);
    assert SlipOf(p, d, f) == Value(p, sold) - Value(p, closed);
    ExitTilts(s, p, d, f, r);
  }

  /** What a waiting limit sale is to the share law: nothing when placed, all its shares when swept. */
  lemma WaitingSaleUpsets(a: Account, req: Request, q: Quotes, r: Rates)
    requires a.book == [] && a.started && req.side.Sell? && req.limit.Some?
    requires (req.code, req.market) in q && q[(req.code, req.market)] >= req.limit.value
    ensures UpsetShares(a, PlaceOrder(req, q), req.code) == 0.0
    ensures UpsetShares(Step(a, PlaceOrder(req, q), r), CheckAndFill(q, q), req.code) == req.shares as real
  {
    var o := NewOrder(a, req);
    assert Booked(a, req).book == [o] && [o][..0] == [];
    assert WaitingShares([o], q, req.code) == req.shares as real;
  }

  /** It is the sweep that breaks the law, unless the sale sells no shares. */
  lemma WaitingSaleBreaksShares(capital: real, req: Request, q: Quotes, r: Rates)
    requires req.side.Sell? && req.limit.Some? && (req.code, req.market) in q
    requires q[(req.code, req.market)] >= req.limit.value
    ensures SharesConserved(Run(Open(capital), [Start(None), PlaceOrder(req, q)], r), req.code)
    ensures SharesConserved(Run(Open(capital), [Start(None), PlaceOrder(req, q), CheckAndFill(q, q)], r), req.code)
       <==> req.shares == 0
  {
    var cs := [Start(None), PlaceOrder(req, q), CheckAndFill(q, q)];
    var a := Open(capital).(started := true);
    assert cs[..2][..1] == [Start(None)] && [Start(None)][..0] == [] && cs[..2] == [Start(None), PlaceOrder(req, q)];
    assert Run(Open(capital), [Start(None)], r) == Step(Open(capital), Start(None), r) == a;
    assert Run(Open(capital), cs[..2], r) == Step(a, PlaceOrder(req, q), r);
    WaitingSaleUpsets(a, req, q, r);
    SharesConservedExactlyWhen(capital, cs[..2], r, req.code);
    CommandKeepsSharesExactly(capital, cs, r, req.code);
  }
}
