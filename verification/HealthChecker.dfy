// The health checker: per-component counters whose status is a function of the
// results seen so far. Checks complete one at a time, in any interleaving.
module HealthChecker {
  import opened Common

  datatype Status = HEALTHY | DEGRADED | UNHEALTHY

  datatype Health = Health(status: Status, failures: nat, successes: nat)

  const RECOVER: nat := 3
  const DEGRADE: nat := 1
  const GIVE_UP: nat := 3

  const INITIAL := Health(HEALTHY, 0, 0)

  /** One finished check; an exception counts as a failed one. */
  function Update(h: Health, ok: bool): Health {
    if ok then
      var n := h.successes + 1;
      Health(if n >= RECOVER then HEALTHY else if h.status.UNHEALTHY? then DEGRADED else h.status, 0, n)
    else
      var n := h.failures + 1;
      Health(if n >= GIVE_UP then UNHEALTHY else if n >= DEGRADE then DEGRADED else h.status, n, 0)
  }

  function After(results: seq<bool>): Health {
    if results == [] then INITIAL else Update(After(results[..|results| - 1]), results[|results| - 1])
  }

  /** The last three results exist and all equal `ok`. */
  predicate LastThree(results: seq<bool>, ok: bool) {
    |results| >= 3 && forall i :: |results| - 3 <= i < |results| ==> results[i] == ok
  }

  function StatusOf(results: seq<bool>): Status {
    if LastThree(results, false) then UNHEALTHY
    else if false !in results || LastThree(results, true) then HEALTHY
    else DEGRADED
  }

  /** How many results at the end equal `ok`. */
  function Trailing(results: seq<bool>, ok: bool): nat {
    if results != [] && results[|results| - 1] == ok then Trailing(results[..|results| - 1], ok) + 1 else 0
  }

  lemma {:induction false} TrailingAtMost(results: seq<bool>, ok: bool)
    ensures Trailing(results, ok) <= |results|
  {
    if results != [] {
      TrailingAtMost(results[..|results| - 1], ok);
    }
  }

  lemma {:induction false} TrailingThree(results: seq<bool>, ok: bool)
    ensures Trailing(results, ok) >= 3 <==> LastThree(results, ok)
  {
    var n := |results|;
    if n >= 3 {
      var one, two := results[..n - 1], results[..n - 2];
      assert one[..n - 2] == two;
      assert Trailing(results, ok) == if results[n - 1] == ok then Trailing(one, ok) + 1 else 0;
      assert Trailing(one, ok) == if results[n - 2] == ok then Trailing(two, ok) + 1 else 0;
      assert Trailing(two, ok) >= 1 <==> results[n - 3] == ok;
      assert LastThree(results, ok) <==> results[n - 1] == ok && results[n - 2] == ok && results[n - 3] == ok;
    } else {
      TrailingAtMost(results, ok);
    }
  }

  /** The status is a function of the result history. */
  lemma {:induction false} StatusIsHistory(results: seq<bool>)
    ensures After(results) == Health(StatusOf(results), Trailing(results, false), Trailing(results, true))
  {
    if results != [] {
      var init, last := results[..|results| - 1], results[|results| - 1];
      assert results == init + [last];
      StatusIsHistory(init);
      TrailingThree(init, true);
      TrailingThree(init, false);
      TrailingThree(results, true);
      TrailingThree(results, false);
    }
  }

  // ---------------------------------------------------------------- many components

  datatype Event = Register(name: string) | Finished(name: string, ok: bool)

  type Board = map<string, Health>

  /** A check of an unknown component raises and changes nothing. */
  function Apply(b: Board, e: Event): Board {
    match e
    case Register(name) => b[name := INITIAL]
    case Finished(name, ok) => if name in b then b[name := Update(b[name], ok)] else b
  }

  function Run(es: seq<Event>): Board {
    if es == [] then map[] else Apply(Run(es[..|es| - 1]), es[|es| - 1])
  }

  /** The results of one component since it was last registered. */
  function History(es: seq<Event>, name: string): Option<seq<bool>> {
    if es == [] then None
    else
      var init, e := History(es[..|es| - 1], name), es[|es| - 1];
      if e.name != name then init
      else match e
        case Register(_) => Some([])
        case Finished(_, ok) => if init.Some? then Some(init.value + [ok]) else None
  }

  lemma {:induction false} BoardIsHistory(es: seq<Event>, name: string)
    ensures name in Run(es) <==> History(es, name).Some?
    ensures name in Run(es) ==> Run(es)[name] == After(History(es, name).value)
  {
    if es != [] {
      var init, e := es[..|es| - 1], es[|es| - 1];
      BoardIsHistory(init, name);
      if e.Finished? && e.name == name && History(init, name).Some? {
        var results := History(init, name).value;
        assert (results + [e.ok])[..|results|] == results;
      }
    }
  }

  predicate SystemHealthy(b: Board) {
    forall name <- b :: !b[name].status.UNHEALTHY?
  }

  /** Under any interleaving each component's status is that of its own history. */
  lemma StatusUnderInterleaving(es: seq<Event>, name: string)
    requires name in Run(es)
    ensures History(es, name).Some? && Run(es)[name].status == StatusOf(History(es, name).value)
  {
    BoardIsHistory(es, name);
    StatusIsHistory(History(es, name).value);
  }

  /** The system is healthy exactly when no component's last three results all failed. */
  lemma SystemHealthyExactly(es: seq<Event>)
    ensures SystemHealthy(Run(es)) <==>
      forall name: string :: History(es, name).Some? ==> !LastThree(History(es, name).value, false)
  {
    var b := Run(es);
    forall name: string
      ensures name in b <==> History(es, name).Some?
      ensures name in b ==> (b[name].status.UNHEALTHY? <==> LastThree(History(es, name).value, false))
    {
      BoardIsHistory(es, name);
      if name in b {
        StatusUnderInterleaving(es, name);
      }
    }
    if SystemHealthy(b) {
      forall name: string | History(es, name).Some?
        ensures !LastThree(History(es, name).value, false)
      {
        assert name in b;
        assert !b[name].status.UNHEALTHY?;
      }
    } else {
      var name :| name in b && b[name].status.UNHEALTHY?;
      assert History(es, name).Some?;
    }
  }

  // ---------------------------------------------------------------- checking all at once

  /** The results of one round, in the order the checks finished. */
  function Finishes(done: seq<(string, bool)>): seq<Event> {
    seq(|done|, i requires 0 <= i < |done| => Finished(done[i].0, done[i].1))
  }

  ghost predicate OncePerName(done: seq<(string, bool)>) {
    forall i, j :: 0 <= i < j < |done| ==> done[i].0 != done[j].0
  }

  function ResultOf(done: seq<(string, bool)>, name: string): (r: Option<bool>)
    ensures r.Some? ==> (name, r.value) in done
    ensures r.None? ==> forall d <- done :: d.0 != name
  {
    if done == [] then None
    else if done[|done| - 1].0 == name then Some(done[|done| - 1].1)
    else ResultOf(done[..|done| - 1], name)
  }

  function Updated(h: Health, result: Option<bool>): Health {
    if result.Some? then Update(h, result.value) else h
  }

  lemma RoundStep(es: seq<Event>, done: seq<(string, bool)>)
    requires done != []
    ensures var init, last := done[..|done| - 1], done[|done| - 1];
      Run(es + Finishes(done)) == Apply(Run(es + Finishes(init)), Finished(last.0, last.1))
  {
    var all := es + Finishes(done);
    assert all[..|all| - 1] == es + Finishes(done[..|done| - 1]);
  }

  lemma LastIsOnlyResult(done: seq<(string, bool)>)
    requires done != [] && OncePerName(done)
    ensures OncePerName(done[..|done| - 1])
    ensures ResultOf(done[..|done| - 1], done[|done| - 1].0).None?
  {
    var init, last := done[..|done| - 1], done[|done| - 1];
    forall d | d in init
      ensures d.0 != last.0
    {
      var i :| 0 <= i < |init| && init[i] == d;
      assert done[i].0 != last.0;
    }
  }

  lemma {:induction false} RoundUpdatesEach(es: seq<Event>, done: seq<(string, bool)>, name: string)
    requires OncePerName(done)
    ensures var b, b' := Run(es), Run(es + Finishes(done));
      && (name in b' <==> name in b)
      && (name in b ==> b'[name] == Updated(b[name], ResultOf(done, name)))
  {
    if done == [] {
      assert es + Finishes(done) == es;
    } else {
      LastIsOnlyResult(done);
      RoundUpdatesEach(es, done[..|done| - 1], name);
      RoundStep(es, done);
    }
  }

  /** In whatever order the checks of a round finish, the board comes out the same. */
  lemma FinishOrderIrrelevant(es: seq<Event>, done: seq<(string, bool)>, done': seq<(string, bool)>)
    requires OncePerName(done) && OncePerName(done') && multiset(done) == multiset(done')
    ensures Run(es + Finishes(done)) == Run(es + Finishes(done'))
  {
    var b, b' := Run(es + Finishes(done)), Run(es + Finishes(done'));
    forall name: string
      ensures name in b <==> name in b'
      ensures name in b ==> b[name] == b'[name]
    {
      RoundUpdatesEach(es, done, name);
      RoundUpdatesEach(es, done', name);
      SameResult(done, done', name);
    }
  }

  /** Every one of the names has a result, and no other. */
  ghost predicate Covers(done: seq<(string, bool)>, names: set<string>) {
    forall name: string :: name in names <==> ResultOf(done, name).Some?
  }

  lemma FinishesStep(log: seq<Event>, done: seq<(string, bool)>, i: nat)
    requires i < |done|
    ensures log + Finishes(done[..i]) + [Finished(done[i].0, done[i].1)] == log + Finishes(done[..i + 1])
  {
  }

  lemma SameResult(done: seq<(string, bool)>, done': seq<(string, bool)>, name: string)
    requires OncePerName(done) && multiset(done) == multiset(done')
    ensures ResultOf(done, name) == ResultOf(done', name)
  {
    var r, r' := ResultOf(done, name), ResultOf(done', name);
    assert forall d :: d in done <==> d in multiset(done);
    assert forall d :: d in done' <==> d in multiset(done');
    if r.Some? && r'.Some? {
      var i :| 0 <= i < |done| && done[i] == (name, r.value);
      var j :| 0 <= j < |done| && done[j] == (name, r'.value);
    }
  }

  // ---------------------------------------------------------------- the objects

  class ComponentHealth {
    var status: Status
    var consecutiveFailures: nat
    var consecutiveSuccesses: nat

    constructor ()
      ensures Value() == INITIAL
    {
      status, consecutiveFailures, consecutiveSuccesses := HEALTHY, 0, 0;
    }

    function Value(): Health
      reads this
    {
      Health(status, consecutiveFailures, consecutiveSuccesses)
    }

    method Record(ok: bool)
      modifies this
      ensures Value() == Update(old(Value()), ok)
    {
      if ok {
        consecutiveSuccesses := consecutiveSuccesses + 1;
        consecutiveFailures := 0;
        if consecutiveSuccesses >= RECOVER {
          status := HEALTHY;
        } else if status.UNHEALTHY? {
          status := DEGRADED;
        }
      } else {
        MarkFailure();
      }
    }

    method MarkFailure()
      modifies this
      ensures Value() == Update(old(Value()), false)
    {
      consecutiveFailures := consecutiveFailures + 1;
      consecutiveSuccesses := 0;
      if consecutiveFailures >= GIVE_UP {
        status := UNHEALTHY;
      } else if consecutiveFailures >= DEGRADE {
        status := DEGRADED;
      }
    }
  }

  class HealthChecker {
    var components: map<string, ComponentHealth>
    /** Every registration and finished check so far. */
    ghost var log: seq<Event>

    constructor ()
      ensures Valid() && log == []
    {
      components := map[];
      log := [];
    }

    ghost predicate Valid()
      reads this, components.Values
    {
      && components.Keys == Run(log).Keys
      && (forall n <- components, n' <- components :: n != n' ==> components[n] != components[n'])
      && (forall n <- components :: components[n].Value() == Run(log)[n])
    }

    method RegisterComponent(name: string)
      requires Valid()
      modifies this
      ensures Valid() && log == old(log) + [Register(name)]
    {
      var fresh' := new ComponentHealth();
      components := components[name := fresh'];
      log := log + [Register(name)];
      assert Run(log) == Apply(Run(old(log)), Register(name));
    }

    /** The check function of `name` has answered `ok`. */
    method CheckComponent(name: string, ok: bool) returns (r: Result<ComponentHealth>)
      requires Valid()
      modifies this`log, components.Values
      ensures Valid() && log == old(log) + [Finished(name, ok)]
      ensures r.Err? <==> name !in components
      ensures r.Ok? ==> r.value == components[name]
    {
      log := log + [Finished(name, ok)];
      assert Run(log) == Apply(Run(old(log)), Finished(name, ok));
      if name !in components {
        return Err("Unknown component");
      }
      components[name].Record(ok);
      r := Ok(components[name]);
    }

    /** Each registered check runs once; `done` tells the answers in the order they came. */
    method CheckAll(done: seq<(string, bool)>) returns (r: map<string, ComponentHealth>)
      requires Valid() && OncePerName(done) && Covers(done, components.Keys)
      modifies this`log, components.Values
      ensures Valid() && log == old(log) + Finishes(done) && r == components
    {
      for i := 0 to |done|
        invariant Valid() && log == old(log) + Finishes(done[..i])
      {
        var _ := CheckComponent(done[i].0, done[i].1);
        FinishesStep(old(log), done, i);
      }
      assert done[..|done|] == done;
      r := components;
    }

    method IsSystemHealthy() returns (ok: bool)
      requires Valid()
      ensures ok <==> forall name: string :: History(log, name).Some? ==> !LastThree(History(log, name).value, false)
    {
      ok := forall n <- components :: !components[n].status.UNHEALTHY?;
      SystemHealthyExactly(log);
      assert forall n <- components :: components[n].Value() == Run(log)[n];
    }
  }
}
