/** dialWithFailover (internal/proxy/http.go): bounded retry over the pool with an attempted set. */
module Failover {
  import Arithmetic
  import opened Config
  import opened Options
  import opened Pool
  import opened RoundRobin
  import opened Selection
  import opened Sequences

  /** What the loop observes in iteration k; other goroutines may change the pool between reads. */
  datatype Env = Env(
    size: nat -> nat,           // length of the list in the loop condition
    pick: nat -> Picked,        // result of Select
    healthyNow: nat -> bool,    // health of the picked upstream when it is read again
    dial: nat -> bool)          // whether the dial succeeds

  datatype Reason = NoneAvailable | DirectFailed | MarkedUnhealthy(name: string) | DialFailed(name: string)

  datatype Outcome =
    | Connected(name: string, attempt: nat)
    | SelectFailed(why: Picked)
    | Exhausted(last: Reason)

  /** The outcome, the dials made, as (iteration, upstream name), and how many iterations were begun. */
  datatype Run = Run(outcome: Outcome, dials: seq<(nat, string)>, iterations: nat)

  /** The loop from iteration k on. */
  function Loop(env: Env, n: nat, k: nat, attempted: set<string>, last: Reason, dials: seq<(nat, string)>): Run
    requires forall j :: env.size(j) <= n
    decreases 2 * n - k
  {
    if k >= 2 * env.size(k) then Run(Exhausted(last), dials, k)
    else if !env.pick(k).Picked? then Run(SelectFailed(env.pick(k)), dials, k + 1)
    else
      var up := env.pick(k).upstream;
      if up.name in attempted then Loop(env, n, k + 1, attempted, last, dials)
      else if up.kind != "direct" && !env.healthyNow(k) then
        Loop(env, n, k + 1, attempted + {up.name}, MarkedUnhealthy(up.name), dials)
      else if env.dial(k) then Run(Connected(up.name, k), dials + [(k, up.name)], k + 1)
      else
        Loop(env, n, k + 1, attempted + {up.name},
             if up.kind == "direct" then DirectFailed else DialFailed(up.name), dials + [(k, up.name)])
  }

  function Start(env: Env, n: nat): Run
    requires forall j :: env.size(j) <= n
  {
    Loop(env, n, 0, {}, NoneAvailable, [])
  }

  // ----- Safety, whatever other goroutines do -----

  /** The dial went to the upstream picked in its iteration, seen healthy there unless it is direct. */
  predicate DialedAsSeen(env: Env, d: (nat, string)) {
    && env.pick(d.0).Picked? && env.pick(d.0).upstream.name == d.1
    && (env.pick(d.0).upstream.kind == "direct" || env.healthyNow(d.0))
  }

  predicate DialedOnce(dials: seq<(nat, string)>) {
    forall i, j | 0 <= i < j < |dials| :: dials[i].1 != dials[j].1
  }

  /** What the error reported at the end is about. */
  ghost predicate TrueReason(env: Env, last: Reason, k: nat, dials: seq<(nat, string)>) {
    match last
    case NoneAvailable => dials == []
    case DirectFailed =>
      dials != [] && env.pick(dials[|dials| - 1].0).Picked? && env.pick(dials[|dials| - 1].0).upstream.kind == "direct"
    case DialFailed(name) => dials != [] && dials[|dials| - 1].1 == name
    case MarkedUnhealthy(name) =>
      exists j: nat :: j < k && env.pick(j).Picked? && env.pick(j).upstream.name == name
                       && env.pick(j).upstream.kind != "direct" && !env.healthyNow(j)
  }

  /** A run begins at most 2n iterations, dials each name once and as seen, and reports the dials truly. */
  ghost predicate SafeRun(env: Env, n: nat, run: Run) {
    && run.iterations <= 2 * n && (run.outcome.SelectFailed? ==> run.iterations > 0)
    && (forall d | d in run.dials :: d.0 < run.iterations && DialedAsSeen(env, d))
    && DialedOnce(run.dials)
    && match run.outcome {
         case Connected(name, k) =>
           && run.dials != [] && run.dials[|run.dials| - 1] == (k, name) && env.dial(k)
           && forall i | 0 <= i < |run.dials| - 1 :: !env.dial(run.dials[i].0)
         case SelectFailed(why) =>
           why == env.pick(run.iterations - 1) && !why.Picked? && forall d | d in run.dials :: !env.dial(d.0)
         case Exhausted(last) =>
           TrueReason(env, last, run.iterations, run.dials) && forall d | d in run.dials :: !env.dial(d.0)
       }
  }

  /** How the loop stands before iteration k, nothing having connected yet. */
  ghost predicate SoFar(env: Env, k: nat, attempted: set<string>, last: Reason, dials: seq<(nat, string)>) {
    && DialedOnce(dials) && TrueReason(env, last, k, dials)
    && forall d | d in dials :: d.0 < k && DialedAsSeen(env, d) && d.1 in attempted && !env.dial(d.0)
  }

  /** One more dial. */
  lemma DialRecorded(env: Env, k: nat, attempted: set<string>, last: Reason, dials: seq<(nat, string)>)
    requires SoFar(env, k, attempted, last, dials) && env.pick(k).Picked?
    requires env.pick(k).upstream.name !in attempted
    requires env.pick(k).upstream.kind == "direct" || env.healthyNow(k)
    ensures var up := env.pick(k).upstream;
            var more := dials + [(k, up.name)];
            && DialedOnce(more) && more[|more| - 1] == (k, up.name)
            && (forall d | d in more :: d.0 <= k && DialedAsSeen(env, d))
            && (forall i | 0 <= i < |more| - 1 :: !env.dial(more[i].0))
            && (!env.dial(k) ==> SoFar(env, k + 1, attempted + {up.name},
                                       if up.kind == "direct" then DirectFailed else DialFailed(up.name), more))
  {
    var more := dials + [(k, env.pick(k).upstream.name)];
    assert forall d | d in more :: d in dials || d == (k, env.pick(k).upstream.name);
    assert forall i | 0 <= i < |dials| :: dials[i] in dials;
  }

  /** Going on without a dial. */
  lemma SkipRecorded(env: Env, k: nat, attempted: set<string>, last: Reason, dials: seq<(nat, string)>)
    requires SoFar(env, k, attempted, last, dials) && env.pick(k).Picked?
    ensures SoFar(env, k + 1, attempted, last, dials)
    ensures var up := env.pick(k).upstream;
            up.kind != "direct" && !env.healthyNow(k) ==>
              SoFar(env, k + 1, attempted + {up.name}, MarkedUnhealthy(up.name), dials)
  {
  }

  lemma {:induction false} LoopIsSafe(
    env: Env, n: nat, k: nat, attempted: set<string>, last: Reason, dials: seq<(nat, string)>)
    requires forall j :: env.size(j) <= n
    requires k <= 2 * n && SoFar(env, k, attempted, last, dials)
    ensures SafeRun(env, n, Loop(env, n, k, attempted, last, dials))
    decreases 2 * n - k
  {
    if k < 2 * env.size(k) && env.pick(k).Picked? {
      var up := env.pick(k).upstream;
      var more := dials + [(k, up.name)];
      SkipRecorded(env, k, attempted, last, dials);
      if up.name in attempted {
        LoopIsSafe(env, n, k + 1, attempted, last, dials);
      } else if up.kind != "direct" && !env.healthyNow(k) {
        LoopIsSafe(env, n, k + 1, attempted + {up.name}, MarkedUnhealthy(up.name), dials);
      } else {
        DialRecorded(env, k, attempted, last, dials);
        if !env.dial(k) {
          LoopIsSafe(env, n, k + 1, attempted + {up.name},
                     if up.kind == "direct" then DirectFailed else DialFailed(up.name), more);
        }
      }
    }
  }

  /** Failover is safe under arbitrary changes of the pool and of health between its reads, for any strategy. */
  lemma FailoverIsSafe(env: Env, n: nat)
    requires forall j :: env.size(j) <= n
    ensures SafeRun(env, n, Start(env, n))
  {
    LoopIsSafe(env, n, 0, {}, NoneAvailable, []);
  }

  // ----- Completeness on a pool that stays as it is -----

  /** Dialling u connects: it is direct or healthy, and ok says the dial succeeds. */
  predicate Reachable(u: UpstreamView, ok: string -> bool) {
    (u.kind == "direct" || u.healthy) && ok(u.name)
  }

  predicate Good(env: Env, ok: string -> bool, k: nat) {
    env.pick(k).Picked? && Reachable(env.pick(k).upstream, ok)
  }

  /** The pool, the health and the outcome of dialling each name are fixed. */
  ghost predicate Steady(env: Env, n: nat, ok: string -> bool) {
    && (forall k :: env.size(k) == n)
    && (forall k | env.pick(k).Picked? ::
          env.healthyNow(k) == env.pick(k).upstream.healthy && env.dial(k) == ok(env.pick(k).upstream.name))
    && (forall j, k | env.pick(j).Picked? ::
          && env.pick(k).Picked?
          && (env.pick(j).upstream.name == env.pick(k).upstream.name ==> env.pick(j) == env.pick(k)))
  }

  ghost predicate GoodBetween(env: Env, ok: string -> bool, k: nat, m: nat) {
    exists j | k <= j < m :: Good(env, ok, j)
  }

  lemma GoodBetweenStep(env: Env, ok: string -> bool, k: nat, m: nat)
    ensures k < m ==> (GoodBetween(env, ok, k, m) <==> Good(env, ok, k) || GoodBetween(env, ok, k + 1, m))
    ensures k >= m ==> !GoodBetween(env, ok, k, m)
  {
  }

  /** No name attempted so far is that of a good pick. */
  ghost predicate NoGoodAttempted(env: Env, ok: string -> bool, attempted: set<string>) {
    forall j: nat | env.pick(j).Picked? && env.pick(j).upstream.name in attempted :: !Good(env, ok, j)
  }

  lemma AttemptBadPick(env: Env, n: nat, ok: string -> bool, attempted: set<string>, k: nat)
    requires Steady(env, n, ok) && NoGoodAttempted(env, ok, attempted)
    requires env.pick(k).Picked? && !Good(env, ok, k)
    ensures NoGoodAttempted(env, ok, attempted + {env.pick(k).upstream.name})
  {
  }

  /** What the loop finds from iteration k on: the first good pick, if there is one. */
  ghost predicate FindsFirst(env: Env, n: nat, ok: string -> bool, k: nat, o: Outcome) {
    && (o.Connected? <==> GoodBetween(env, ok, k, 2 * n))
    && (o.Connected? ==> k <= o.attempt && Good(env, ok, o.attempt) && env.pick(o.attempt).upstream.name == o.name
                         && !GoodBetween(env, ok, k, o.attempt))
  }

  lemma {:induction false} LoopFindsFirst(
    env: Env, n: nat, ok: string -> bool, k: nat, attempted: set<string>, last: Reason, dials: seq<(nat, string)>)
    requires Steady(env, n, ok) && NoGoodAttempted(env, ok, attempted)
    ensures FindsFirst(env, n, ok, k, Loop(env, n, k, attempted, last, dials).outcome)
    decreases 2 * n - k
  {
    GoodBetweenStep(env, ok, k, 2 * n);
    if k < 2 * n && env.pick(k).Picked? {
      var up := env.pick(k).upstream;
      var rest;
      if up.name in attempted {
        rest := Loop(env, n, k + 1, attempted, last, dials);
        LoopFindsFirst(env, n, ok, k + 1, attempted, last, dials);
      } else if up.kind != "direct" && !env.healthyNow(k) {
        AttemptBadPick(env, n, ok, attempted, k);
        rest := Loop(env, n, k + 1, attempted + {up.name}, MarkedUnhealthy(up.name), dials);
        LoopFindsFirst(env, n, ok, k + 1, attempted + {up.name}, MarkedUnhealthy(up.name), dials);
      } else if !env.dial(k) {
        AttemptBadPick(env, n, ok, attempted, k);
        var reason := if up.kind == "direct" then DirectFailed else DialFailed(up.name);
        rest := Loop(env, n, k + 1, attempted + {up.name}, reason, dials + [(k, up.name)]);
        LoopFindsFirst(env, n, ok, k + 1, attempted + {up.name}, reason, dials + [(k, up.name)]);
      } else {
        assert Good(env, ok, k);
        return;
      }
      if rest.outcome.Connected? {
        GoodBetweenStep(env, ok, k, rest.outcome.attempt);
      }
    } else if k < 2 * n {
      assert forall j: nat :: !Good(env, ok, j) by {
        assert forall j: nat :: !env.pick(j).Picked?;
      }
    }
  }

  /** The counter after k calls of Select without a preferred name. */
  function CounterAfter(v: PoolView, counter: nat, k: nat): nat {
    if TakesTicket(v, "") then TicketAt(counter, k) else counter
  }

  /** The environment of a single caller on a fixed pool. */
  function EnvOf(v: PoolView, counter: nat, key: string, draws: nat -> nat, hash: string -> nat, ok: string -> bool)
    : Env
  {
    var pick := (k: nat) => Selection.Select(v, "", key, CounterAfter(v, counter, k), draws(k), hash);
    Env((_: nat) => |v.all|,
        pick,
        (k: nat) => pick(k).Picked? && pick(k).upstream.healthy,
        (k: nat) => pick(k).Picked? && ok(pick(k).upstream.name))
  }

  lemma PicksAreMembers(v: PoolView, key: string, ticket: nat, draw: nat, hash: string -> nat)
    ensures var p := Selection.Select(v, "", key, ticket, draw, hash);
            && (p.Picked? <==> v.all != [] && (Effective(v, "") == "" || HasName(v.all, Effective(v, ""))))
            && (p.Picked? ==> p.upstream in v.all)
  {
    FilterMembers(IsHealthy, v.all);
  }

  lemma SameNameSameView(all: seq<UpstreamView>, a: UpstreamView, b: UpstreamView)
    requires UniqueViews(all) && a in all && b in all && a.name == b.name
    ensures a == b
  {
  }

  lemma FixedPoolIsSteady(
    v: PoolView, counter: nat, key: string, draws: nat -> nat, hash: string -> nat, ok: string -> bool)
    requires UniqueViews(v.all)
    ensures Steady(EnvOf(v, counter, key, draws, hash, ok), |v.all|, ok)
  {
    hide Selection.Select, CounterAfter, HasName, Effective, UniqueViews;
    var env := EnvOf(v, counter, key, draws, hash, ok);
    forall j, k | env.pick(j).Picked?
      ensures env.pick(k).Picked?
      ensures env.pick(j).upstream.name == env.pick(k).upstream.name ==> env.pick(j) == env.pick(k)
    {
      PicksAreMembers(v, key, CounterAfter(v, counter, j), draws(j), hash);
      PicksAreMembers(v, key, CounterAfter(v, counter, k), draws(k), hash);
      if env.pick(j).upstream.name == env.pick(k).upstream.name {
        SameNameSameView(v.all, env.pick(j).upstream, env.pick(k).upstream);
      }
    }
  }

  /** On a fixed pool, failover connects exactly when one of its first 2n picks is good. */
  lemma FailoverExact(
    v: PoolView, counter: nat, key: string, draws: nat -> nat, hash: string -> nat, ok: string -> bool)
    requires UniqueViews(v.all)
    ensures var env := EnvOf(v, counter, key, draws, hash, ok);
            Start(env, |v.all|).outcome.Connected? <==> GoodBetween(env, ok, 0, 2 * |v.all|)
  {
    FixedPoolIsSteady(v, counter, key, draws, hash, ok);
    LoopFindsFirst(EnvOf(v, counter, key, draws, hash, ok), |v.all|, ok, 0, {}, NoneAvailable, []);
  }

  /** Within 2n calls the round-robin strategy picks every healthy upstream. */
  lemma HealthyIsPicked(v: PoolView, counter: nat, key: string, draws: nat -> nat, hash: string -> nat, u: UpstreamView)
    returns (k: nat)
    requires v.strategy == "round-robin" && counter < TICKETS && |v.all| <= TICKETS
    requires u in v.all && u.healthy
    ensures k < 2 * |v.all|
    ensures Selection.Select(v, "", key, CounterAfter(v, counter, k), draws(k), hash) == Picked(u)
  {
    var healthy := Filter(IsHealthy, v.all);
    FilterMembers(IsHealthy, v.all);
    FilterShorter(IsHealthy, v.all);
    assert u in healthy;
    var i :| 0 <= i < |healthy| && healthy[i] == u;
    k := EveryPosition(counter, |healthy|, i);
    assert Position(v.strategy, key, TicketAt(counter, k), draws(k), hash, |healthy|)
        == PositionAt(counter, k, |healthy|);
  }

  /**
   * Round-robin failover is complete: it connects exactly when some healthy upstream can be dialled,
   * from any counter value, so also when the counter wraps around during the call.
   */
  lemma RoundRobinIsComplete(
    v: PoolView, counter: nat, key: string, draws: nat -> nat, hash: string -> nat, ok: string -> bool)
    requires UniqueViews(v.all) && v.strategy == "round-robin"
    requires counter < TICKETS && |v.all| <= TICKETS
    requires forall u | u in v.all && u.kind == "direct" :: u.healthy
    ensures Start(EnvOf(v, counter, key, draws, hash, ok), |v.all|).outcome.Connected?
       <==> exists u :: u in v.all && u.healthy && ok(u.name)
  {
    var env := EnvOf(v, counter, key, draws, hash, ok);
    FailoverExact(v, counter, key, draws, hash, ok);
    forall k: nat | Good(env, ok, k)
      ensures exists u :: u in v.all && u.healthy && ok(u.name)
    {
      PicksAreMembers(v, key, CounterAfter(v, counter, k), draws(k), hash);
      assert env.pick(k).upstream in v.all;
    }
    forall u | u in v.all && u.healthy && ok(u.name)
      ensures GoodBetween(env, ok, 0, 2 * |v.all|)
    {
      var k := HealthyIsPicked(v, counter, key, draws, hash, u);
      assert env.pick(k) == Picked(u);
      assert Good(env, ok, k);
    }
  }

  lemma SamePick(v: PoolView, key: string, ticket: nat, draw: nat, hash: string -> nat)
    requires v.strategy != "random"
    ensures Selection.Select(v, "", key, ticket, draw, hash) == Selection.Select(v, "", key, ticket, 0, hash)
  {
  }

  /** Hash and name keep picking one upstream, so only that one decides. */
  lemma StickyStrategies(
    v: PoolView, counter: nat, key: string, draws: nat -> nat, hash: string -> nat, ok: string -> bool)
    requires UniqueViews(v.all) && v.all != [] && v.strategy != "round-robin" && v.strategy != "random"
    ensures var first := Selection.Select(v, "", key, counter, 0, hash);
            Start(EnvOf(v, counter, key, draws, hash, ok), |v.all|).outcome.Connected?
            <==> first.Picked? && Reachable(first.upstream, ok)
  {
    hide Start, Selection.Select;
    var env := EnvOf(v, counter, key, draws, hash, ok);
    FailoverExact(v, counter, key, draws, hash, ok);
    forall k: nat
      ensures env.pick(k) == Selection.Select(v, "", key, counter, 0, hash)
    {
      SamePick(v, key, counter, draws(k), hash);
    }
    assert Good(env, ok, 0) <==> env.pick(0).Picked? && Reachable(env.pick(0).upstream, ok);
  }

  lemma FirstOfTwo(a: UpstreamView, b: UpstreamView)
    requires a.healthy && b.healthy
    ensures Candidates([a, b]) == [a, b]
  {
    assert [a, b][..1] == [a] && [a][..0] == [];
    assert Filter(IsHealthy, [a]) == [a];
  }

  lemma HashPicksFirst(a: UpstreamView, b: UpstreamView, key: string, ticket: nat, hash: string -> nat)
    requires a.healthy && b.healthy && hash(HashKey(key)) % 2 == 0
    ensures Selection.Select(PoolView([a, b], "hash", ""), "", key, ticket, 0, hash) == Picked(a)
  {
    FirstOfTwo(a, b);
    hide Candidates;
  }

  /** So the hash strategy does not fail over: it fails when the key maps to the upstream that cannot be dialled. */
  lemma HashDoesNotFailOver(
    a: UpstreamView, b: UpstreamView, counter: nat, key: string, draws: nat -> nat, hash: string -> nat)
    requires a.name != b.name && a.healthy && b.healthy && hash(HashKey(key)) % 2 == 0
    ensures var v := PoolView([a, b], "hash", "");
            var ok := (name: string) => name == b.name;
            Reachable(b, ok) && !Start(EnvOf(v, counter, key, draws, hash, ok), |v.all|).outcome.Connected?
  {
    hide EnvOf, Start, Selection.Select;
    HashPicksFirst(a, b, key, counter, hash);
    StickyStrategies(PoolView([a, b], "hash", ""), counter, key, draws, hash, (name: string) => name == b.name);
  }

  /** Connects for these draws. */
  predicate RandomConnects(
    v: PoolView, counter: nat, key: string, draws: nat -> nat, hash: string -> nat, ok: string -> bool)
  {
    Start(EnvOf(v, counter, key, draws, hash, ok), |v.all|).outcome.Connected?
  }

  /** The upstream of draw k can be dialled. */
  predicate DrawsReachable(v: PoolView, draws: nat -> nat, ok: string -> bool, k: nat)
    requires v.all != []
  {
    var c := Candidates(v.all);
    Reachable(c[draws(k) % |c|], ok)
  }

  lemma RandomExact(v: PoolView, counter: nat, key: string, draws: nat -> nat, hash: string -> nat, ok: string -> bool)
    requires UniqueViews(v.all) && v.all != [] && v.strategy == "random"
    ensures RandomConnects(v, counter, key, draws, hash, ok)
            <==> exists k: nat :: k < 2 * |v.all| && DrawsReachable(v, draws, ok, k)
  {
    hide Start, Candidates;
    var env := EnvOf(v, counter, key, draws, hash, ok);
    FailoverExact(v, counter, key, draws, hash, ok);
    forall k: nat
      ensures Good(env, ok, k) <==> DrawsReachable(v, draws, ok, k)
    {
      var c := Candidates(v.all);
      assert env.pick(k) == Picked(c[draws(k) % |c|]);
    }
  }

  lemma ConstantDraw(v: PoolView, draws: nat -> nat, ok: string -> bool, i: nat)
    requires v.all != [] && i < |Candidates(v.all)| && !Reachable(Candidates(v.all)[i], ok)
    requires forall k: nat :: draws(k) == i
    ensures forall k: nat :: !DrawsReachable(v, draws, ok, k)
  {
    hide Candidates;
    Arithmetic.DivModUnique(i, 0, i, |Candidates(v.all)|);
  }

  /** Under random, failover can succeed by chance; it is certain exactly when every candidate can be dialled. */
  lemma RandomIsCertain(v: PoolView, counter: nat, key: string, hash: string -> nat, ok: string -> bool)
    requires UniqueViews(v.all) && v.all != [] && v.strategy == "random"
    ensures (forall draws: nat -> nat :: RandomConnects(v, counter, key, draws, hash, ok))
            <==> forall u | u in Candidates(v.all) :: Reachable(u, ok)
  {
    hide RandomConnects, Candidates;
    var c := Candidates(v.all);
    if forall u | u in c :: Reachable(u, ok) {
      forall draws: nat -> nat
        ensures RandomConnects(v, counter, key, draws, hash, ok)
      {
        RandomExact(v, counter, key, draws, hash, ok);
        assert DrawsReachable(v, draws, ok, 0);
      }
    } else {
      var i: nat :| i < |c| && !Reachable(c[i], ok);
      var draws: nat -> nat := _ => i;
      ConstantDraw(v, draws, ok, i);
      hide DrawsReachable;
      RandomExact(v, counter, key, draws, hash, ok);
      assert !RandomConnects(v, counter, key, draws, hash, ok);
    }
  }

  // ----- The method -----

  /** With a preferred name there is one dial and no failover. */
  function Preferred(picked: Picked, ok: string -> bool): Run {
    if !picked.Picked? then Run(SelectFailed(picked), [], 0)
    else if ok(picked.upstream.name) then Run(Connected(picked.upstream.name, 0), [(0, picked.upstream.name)], 0)
    else Run(Exhausted(DialFailed(picked.upstream.name)), [(0, picked.upstream.name)], 0)
  }

  /** What the loop carries from one iteration to the next. */
  datatype Progress = Progress(attempted: set<string>, last: Reason, dials: seq<(nat, string)>)

  function Continue(env: Env, n: nat, k: nat, s: Progress): Run
    requires forall j :: env.size(j) <= n
  {
    Loop(env, n, k, s.attempted, s.last, s.dials)
  }

  /** The call of Select in iteration k. */
  method SelectNext(
    p: Pool, host: string, draw: nat, hash: string -> nat, ghost v: PoolView, ghost counter: nat, ghost k: nat)
    returns (up: Option<Upstream>, picked: Picked)
    requires p.Valid() && p.View() == v && counter < TICKETS && p.rrCounter == CounterAfter(v, counter, k)
    modifies p`rrCounter
    ensures p.Valid() && p.View() == v && p.rrCounter == CounterAfter(v, counter, k + 1)
    ensures picked == Selection.Select(v, "", host, CounterAfter(v, counter, k), draw, hash)
    ensures up.Some? <==> picked.Picked?
    ensures up.Some? ==> up.value.View() == picked.upstream
  {
    TicketNext(counter, k);
    up, picked := p.Select("", host, draw, hash);
  }

  /** The loop body after Select has picked an upstream: the run if it connects, else the new progress. */
  method Attempt(u: Upstream, ghost env: Env, ghost n: nat, k: nat, s: Progress, ok: string -> bool)
    returns (run: Option<Run>, t: Progress)
    requires forall j :: env.size(j) <= n
    requires k < 2 * env.size(k) && env.pick(k) == Picked(u.View())
    requires env.healthyNow(k) == u.healthy && env.dial(k) == ok(u.name)
    ensures run.Some? ==> run.value == Continue(env, n, k, s)
    ensures run.None? ==> Continue(env, n, k + 1, t) == Continue(env, n, k, s)
  {
    if u.name in s.attempted {
      return None, s;
    }
    var attempted := s.attempted + {u.name};
    if u.kind != "direct" && !u.healthy {
      return None, Progress(attempted, MarkedUnhealthy(u.name), s.dials);
    }
    var dials := s.dials + [(k, u.name)];
    if ok(u.name) {
      return Some(Run(Connected(u.name, k), dials, k + 1)), s;
    }
    return None, Progress(attempted, if u.kind == "direct" then DirectFailed else DialFailed(u.name), dials);
  }

  /** Iteration k: the loop condition, Select, and the body. */
  method Iterate(
    p: Pool, host: string, draws: nat -> nat, hash: string -> nat, ok: string -> bool, k: nat, s: Progress,
    ghost v: PoolView, ghost counter: nat)
    returns (run: Option<Run>, t: Progress)
    requires p.Valid() && p.View() == v && counter < TICKETS && p.rrCounter == CounterAfter(v, counter, k)
    modifies p`rrCounter
    ensures p.Valid()
    ensures var env := EnvOf(v, counter, host, draws, hash, ok);
            && (run.Some? ==> run.value == Continue(env, |v.all|, k, s))
            && (run.None? ==> k < 2 * |v.all| && p.View() == v && p.rrCounter == CounterAfter(v, counter, k + 1)
                              && Continue(env, |v.all|, k + 1, t) == Continue(env, |v.all|, k, s))
  {
    hide Selection.Select;
    var listed := p.List();
    if k >= listed.Length * 2 {
      return Some(Run(Exhausted(s.last), s.dials, k)), s;
    }
    var up, picked := SelectNext(p, host, draws(k), hash, v, counter, k);
    if up.None? {
      return Some(Run(SelectFailed(picked), s.dials, k + 1)), s;
    }
    run, t := Attempt(up.value, EnvOf(v, counter, host, draws, hash, ok), |v.all|, k, s, ok);
  }

  method TryEach(p: Pool, host: string, draws: nat -> nat, hash: string -> nat, ok: string -> bool) returns (run: Run)
    requires p.Valid()
    modifies p`rrCounter
    ensures p.Valid()
    ensures run == Start(EnvOf(old(p.View()), old(p.rrCounter), host, draws, hash, ok), |old(p.View()).all|)
  {
    ghost var v, counter := p.View(), p.rrCounter;
    ghost var env := EnvOf(v, counter, host, draws, hash, ok);
    var s, k: nat := Progress({}, NoneAvailable, []), 0;
    TicketNext(counter, 0);
    while true
      invariant p.Valid() && p.View() == v && p.rrCounter == CounterAfter(v, counter, k)
      invariant Continue(env, |v.all|, k, s) == Start(env, |v.all|)
      invariant k <= 2 * |v.all|
      decreases 2 * |v.all| - k
    {
      var connected, t := Iterate(p, host, draws, hash, ok, k, s, v, counter);
      if connected.Some? {
        return connected.value;
      }
      s, k := t, k + 1;
    }
  }

  lemma EmptyPoolFails(v: PoolView, preferred: string, key: string, ticket: nat, draw: nat, hash: string -> nat)
    requires v.all == []
    ensures Selection.Select(v, preferred, key, ticket, draw, hash) == EmptyPool
  {
  }

  /**
   * A preferred call connects exactly when the pool has the name and its dial succeeds; it dials that upstream
   * once, whatever its health, and no other.
   */
  lemma PreferredExact(
    v: PoolView, preferred: string, key: string, ticket: nat, draw: nat, hash: string -> nat, ok: string -> bool)
    requires preferred != ""
    ensures var run := Preferred(Selection.Select(v, preferred, key, ticket, draw, hash), ok);
            var known := exists u :: u in v.all && u.name == preferred;
            && (run.outcome.Connected? <==> known && ok(preferred))
            && (run.outcome.Connected? ==> run.outcome.name == preferred)
            && (known && !ok(preferred) ==> run.outcome == Exhausted(DialFailed(preferred)))
            && (!known ==> run.outcome == SelectFailed(if v.all == [] then EmptyPool else NotInPool(preferred)))
            && run.dials == (if known then [(0, preferred)] else [])
  {
    hide Selection.Select;
    if v.all == [] {
      EmptyPoolFails(v, preferred, key, ticket, draw, hash);
    } else {
      PickByName(v, preferred, key, ticket, draw, hash);
    }
  }

  /** dialWithFailover as the only caller; ok gives the outcome of dialling an upstream by name. */
  method DialWithFailover(
    p: Pool, preferred: string, host: string, draws: nat -> nat, hash: string -> nat, ok: string -> bool)
    returns (run: Run)
    requires p.Valid()
    modifies p`rrCounter
    ensures p.Valid()
    ensures preferred != "" ==> run == Preferred(
              Selection.Select(old(p.View()), preferred, host, old(p.rrCounter), draws(0), hash), ok)
    ensures preferred == "" ==> run == Start(
              EnvOf(old(p.View()), old(p.rrCounter), host, draws, hash, ok), |old(p.View()).all|)
  {
    if preferred != "" {
      var up, picked := p.Select(preferred, host, draws(0), hash);
      if up.None? {
        return Run(SelectFailed(picked), [], 0);
      }
      var name := up.value.name;
      return Run(if ok(name) then Connected(name, 0) else Exhausted(DialFailed(name)), [(0, name)], 0);
    }
    run := TryEach(p, host, draws, hash, ok);
  }
}
