/** What a dynamic loop can still do after it has been cancelled (internal/api/api.go). */
module Cancellation {
  import opened DynamicRunner
  import opened DynamicServer
  import opened Options
  import opened Selection
  import BatchAdd
  import Crawler
  import JsonPath
  import Validator

  // ----- What it can still add -----

  /** Past the first look at the context, and not yet at the second. */
  predicate InValidation(pc: Pc) {
    pc.Validating? || pc.Validated?
  }

  /** The proxies of its batch that a loop has not dealt with yet. */
  function Remaining(pc: Pc): nat {
    match pc
    case Deciding(_, batch) => |batch|
    case Adding(_, batch, tried, _, _) => if tried <= |batch| then |batch| - tried else 0
    case _ => 0
  }

  /** What runner i, cancelled in state k, has become in state l. */
  ghost predicate WindsDown(run: seq<State>, k: nat, l: nat, i: nat)
    requires k <= l < |run|
  {
    && i < |run[k].runners| && i < |run[l].runners|
    && var r, q := run[k].runners[i], run[l].runners[i];
       && q.flags.cancelled && r.cycle <= q.cycle
       && (PastCheck(q.pc) ==> PastCheck(r.pc) && q.cycle == r.cycle)
       && (InValidation(q.pc) ==> InValidation(r.pc) && q.cycle == r.cycle)
       && (forall c: nat :: Entered(run, k, i, c) <= Entered(run, l, i, c))
       && (forall c: nat | c != r.cycle :: Entered(run, l, i, c) == Entered(run, k, i, c))
       && Entered(run, l, i, r.cycle) - Entered(run, k, i, r.cycle) + Remaining(q.pc) <= Remaining(r.pc)
  }

  lemma BystanderWindsDown(run: seq<State>, k: nat, l: nat, i: nat)
    requires k < l < |run| && WindsDown(run, k, l - 1, i) && i < |run[l].runners|
    requires run[l].runners[i] == run[l - 1].runners[i].(flags := run[l].runners[i].flags)
    requires run[l].runners[i].flags.cancelled
    requires forall c: nat :: Entered(run, l, i, c) == Entered(run, l - 1, i, c)
    ensures WindsDown(run, k, l, i)
  {
    hide Entered;
  }

  /** One step of a cancelled loop by itself. */
  lemma MoveWindsDown(r: Runner, q: Runner)
    requires r.flags.cancelled && PcSound(r) && Moves(r, q)
    ensures q.flags.cancelled && r.cycle <= q.cycle && Remaining(q.pc) <= Remaining(r.pc)
    ensures PastCheck(q.pc) ==> PastCheck(r.pc) && q.cycle == r.cycle
    ensures InValidation(q.pc) ==> InValidation(r.pc) && q.cycle == r.cycle
  {
    hide CrawlOutcome, BatchOutcome;
  }

  /** One of its offers. */
  lemma OfferWindsDown(r: Runner, pool: seq<UpstreamView>, clock: nat)
    requires Offers(r)
    ensures var (q, grown) := Offer(r, pool, clock);
            && q.flags == r.flags && q.cycle == r.cycle && PastCheck(q.pc) && !InValidation(q.pc)
            && Remaining(q.pc) + (if |grown| > |pool| then 1 else 0) <= Remaining(r.pc)
  {
    hide BatchAdd.OfferedName, BatchAdd.SuffixedName;
  }

  lemma MoverWindsDown(run: seq<State>, k: nat, l: nat, i: nat)
    requires k < l < |run| && WindsDown(run, k, l - 1, i) && Invariant(run, l - 1)
    requires LoopStep(run[l - 1], run[l], i)
    ensures WindsDown(run, k, l, i)
  {
    var s, t := run[l - 1], run[l];
    var r, q := s.runners[i], t.runners[i];
    assert RunnerSound(run, l - 1, i);
    hide Moves, Offer, Booked, FlagsSound, PcSound, Remaining, PastCheck, InValidation;
    if Moves(r, q) && t.pool == s.pool {
      MoveWindsDown(r, q);
      assert forall c: nat :: Entered(run, l, i, c) == Entered(run, l - 1, i, c);
    } else {
      var clock: nat :| (q, t.pool) == Offer(r, s.pool, clock);
      OfferWindsDown(r, s.pool, clock);
      assert forall c: nat | c != r.cycle :: Entered(run, l, i, c) == Entered(run, l - 1, i, c);
    }
  }

  lemma StepWindsDown(run: seq<State>, k: nat, l: nat, i: nat)
    requires k < l < |run| && WindsDown(run, k, l - 1, i) && Invariant(run, l - 1) && Next(run[l - 1], run[l])
    ensures WindsDown(run, k, l, i)
  {
    var s, t := run[l - 1], run[l];
    if Requested(s, t) {
      hide WindsDown, RunnerSound;
      var req :| t == Handle(s, req);
      BystanderWindsDown(run, k, l, i);
    } else if PoolChanges(s, t) {
      BystanderWindsDown(run, k, l, i);
    } else {
      var j: nat :| LoopStep(s, t, j);
      hide Moves, OfferStep, RunnerSound;
      if j == i {
        MoverWindsDown(run, k, l, i);
      } else {
        BystanderWindsDown(run, k, l, i);
      }
    }
  }

  lemma NothingChangedYet(run: seq<State>, k: nat, i: nat)
    requires k < |run| && i < |run[k].runners| && run[k].runners[i].flags.cancelled
    ensures WindsDown(run, k, k, i)
  {
  }

  lemma {:induction false} CancelledWindsDown(run: seq<State>, k: nat, l: nat, i: nat)
    requires IsRun(run) && k <= l < |run| && i < |run[k].runners| && run[k].runners[i].flags.cancelled
    ensures WindsDown(run, k, l, i)
  {
    hide Invariant, Next, WindsDown;
    if l == k {
      NothingChangedYet(run, k, i);
    } else {
      CancelledWindsDown(run, k, l - 1, i);
      RunKeepsInvariant(run, l - 1);
      StepWindsDown(run, k, l, i);
    }
  }

  /**
   * From the moment a runner is cancelled it can only finish the batch of the cycle it is in, and only if
   * that cycle had already passed its second look at the context: at most one upstream enters for each proxy
   * that is still to be dealt with.
   */
  lemma CancelledAddsOneBatch(run: seq<State>, k: nat, l: nat, i: nat, c: nat)
    requires IsRun(run) && k <= l < |run| && i < |run[k].runners| && run[k].runners[i].flags.cancelled
    ensures var r := run[k].runners[i];
            && Entered(run, k, i, c) <= Entered(run, l, i, c)
            && Entered(run, l, i, c) - Entered(run, k, i, c)
               <= if c == r.cycle && PastCheck(r.pc) then Remaining(r.pc) else 0
  {
    CancelledWindsDown(run, k, l, i);
  }

  /** A cancelled runner validates nothing but the entries whose validation it had already begun. */
  lemma CancelledStartsNoValidation(run: seq<State>, k: nat, l: nat, i: nat)
    requires IsRun(run) && k <= l < |run| && i < |run[k].runners| && run[k].runners[i].flags.cancelled
    ensures i < |run[l].runners|
    ensures var r, q := run[k].runners[i], run[l].runners[i];
            InValidation(q.pc) ==> InValidation(r.pc) && q.cycle == r.cycle
  {
    CancelledWindsDown(run, k, l, i);
  }

  /** In particular a cycle begun after cancellation adds nothing. */
  lemma LateCycleAddsNothing(run: seq<State>, k: nat, l: nat, i: nat, c: nat)
    requires IsRun(run) && k <= l < |run| && i < |run[k].runners| && run[k].runners[i].flags.cancelled
    requires c > run[k].runners[i].cycle
    ensures Entered(run, l, i, c) == 0
  {
    CancelledAddsOneBatch(run, k, l, i, c);
    RunKeepsInvariant(run, k);
    assert RunnerSound(run, k, i);
    assert EnteredBy(run, k, i)(c) == 0;
  }

  // ----- Whether it can still show Running -----

  /** A run that goes on from state k of another. */
  ghost predicate Continues(run: seq<State>, k: nat, more: seq<State>)
    requires k < |run|
  {
    IsRun(more) && run[..k + 1] <= more
  }

  lemma ExitedStep(s: State, t: State, i: nat)
    requires Next(s, t) && i < |s.runners| && s.runners[i].pc.Exited?
    ensures i < |t.runners| && t.runners[i].pc.Exited?
  {
    hide ApplyOp;
  }

  /** A loop that has returned does nothing more. */
  lemma {:induction false} ExitedStays(run: seq<State>, k: nat, l: nat, i: nat)
    requires IsRun(run) && k <= l < |run| && i < |run[k].runners| && run[k].runners[i].pc.Exited?
    ensures i < |run[l].runners| && run[l].runners[i].pc.Exited?
  {
    if k < l {
      hide Next;
      ExitedStays(run, k, l - 1, i);
      ExitedStep(run[l - 1], run[l], i);
    }
  }

  /** Stages of a cycle, counted down to the next select. */
  function Stage(pc: Pc): nat {
    match pc
    case Crawling => 7
    case Crawled(_) => 6
    case Validating(_, _) => 5
    case Validated(_, _) => 4
    case Deciding(_, _) => 3
    case Adding(_, _, _, _, _) => 2
    case Publishing(_) => 1
    case _ => 0
  }

  /** Offers left in a batch. */
  function OffersLeft(pc: Pc): int {
    if pc.Adding? then 2 * (|pc.batch| - pc.tried) + (if pc.retrying then 0 else 1) else 0
  }

  lemma SomeCrawlOutcome() returns (c: Crawler.Result)
    ensures CrawlOutcome(c)
  {
    var run := [Crawler.Init([])];
    c := run[0].result;
    assert Crawler.IsRun([], run) && Crawler.Complete([], run[0]);
    assert c == run[0].result;
  }

  lemma SomeBatchOutcome(entries: seq<JsonPath.ProxyEntry>) returns (results: seq<Validator.ValidateResult>)
    ensures BatchOutcome(entries, results)
  {
    var b := Validator.Batch(entries, 20, (i: nat) => true);
    var run := Validator.SomeCompleteRun(b);
    results := run[|run| - 1].results;
    assert b.entries == entries && Validator.IsRun(b, run);
  }

  /** Some next move of a loop inside a cycle. */
  lemma SomeMove(r: Runner) returns (q: Runner)
    requires InCycle(r.pc) && !Offers(r) && r.flags.cancelled
    ensures Moves(r, q) && Stage(q.pc) < Stage(r.pc) && q.flags.cancelled && !q.pc.Exited?
  {
    match r.pc
    case Crawling =>
      var c := SomeCrawlOutcome();
      q := r.(pc := Crawled(c));
    case Crawled(c) => q := r.(pc := Publishing(Report(r.cycle, c.total, 0, 0, "cancelled")));
    case Validating(fetched, entries) =>
      var results := SomeBatchOutcome(entries);
      q := r.(pc := Validated(fetched, results));
    case Validated(fetched, results) =>
      q := r.(pc := Publishing(Report(r.cycle, fetched, |ValidEntries(results)|, 0, "cancelled")));
    case Deciding(fetched, batch) =>
      q := r.(pc := if r.flags.autoPool && batch != [] then Adding(fetched, batch, 0, 0, false)
                    else Publishing(Report(r.cycle, fetched, |batch|, 0, "")));
    case Adding(fetched, batch, tried, added, _) =>
      q := r.(pc := Publishing(Report(r.cycle, fetched, |batch|, added, "")));
    case Publishing(report) =>
      q := r.(pc := Idle, lastRun := Some(report), flags := r.flags.(running := false));
  }

  /** Some next state in which loop i has come closer to its next cycle, or has begun it. */
  lemma SomeLoopStep(s: State, i: nat) returns (t: State)
    requires i < |s.runners| && s.runners[i].flags.cancelled && !s.runners[i].pc.Exited?
    ensures LoopStep(s, t, i) && t.runners[i].flags.cancelled && !t.runners[i].pc.Exited?
    ensures var r, q := s.runners[i], t.runners[i];
            if !InCycle(r.pc) then q.flags.running && q.pc.Crawling?
            else Stage(q.pc) < Stage(r.pc) || (q.pc.Adding? && Stage(q.pc) == Stage(r.pc)
                                                && 0 <= OffersLeft(q.pc) < OffersLeft(r.pc))
  {
    var r := s.runners[i];
    var q, pool := r, s.pool;
    if !InCycle(r.pc) {
      q := r.(pc := Crawling, cycle := r.cycle + 1, flags := r.flags.(running := true));
      assert Moves(r, q);
    } else if Offers(r) {
      var offered := Offer(r, s.pool, 0);
      q, pool := offered.0, offered.1;
    } else {
      q := SomeMove(r);
    }
    t := s.(runners := s.runners[i := q], pool := pool);
    hide Moves;
    if InCycle(r.pc) && Offers(r) {
      assert (t.runners[i], t.pool) == Offer(s.runners[i], s.pool, 0);
      assert OfferStep(s, t, i);
      hide Offer;
    }
  }

  /** A cancelled loop that has not returned can come to show Running. */
  lemma {:induction false} CanRunAgain(run: seq<State>, i: nat) returns (more: seq<State>)
    requires IsRun(run) && i < |run[|run| - 1].runners|
    requires var r := run[|run| - 1].runners[i]; r.flags.cancelled && !r.pc.Exited?
    ensures IsRun(more) && run <= more
    ensures i < |more[|more| - 1].runners| && more[|more| - 1].runners[i].flags.running
    decreases Stage(run[|run| - 1].runners[i].pc),
              if OffersLeft(run[|run| - 1].runners[i].pc) >= 0 then OffersLeft(run[|run| - 1].runners[i].pc) else 0
  {
    var s := run[|run| - 1];
    var t := SomeLoopStep(s, i);
    assert Next(s, t);
    hide Next, LoopStep;
    more := run + [t];
    assert IsRun(more);
    if InCycle(s.runners[i].pc) {
      more := CanRunAgain(more, i);
    }
  }

  ghost predicate ShowsRunning(more: seq<State>, i: nat) {
    more != [] && i < |more[|more| - 1].runners| && more[|more| - 1].runners[i].flags.running
  }

  /**
   * After it has been stopped, a loop may show Running again exactly until it has returned: a tick can win
   * over the cancelled context in the select, and the first cycle does not look at the context at all.
   */
  lemma StoppedMayShowRunning(run: seq<State>, k: nat, i: nat)
    requires IsRun(run) && k < |run| && i < |run[k].runners| && run[k].runners[i].flags.cancelled
    ensures (exists more :: Continues(run, k, more) && ShowsRunning(more, i)) <==> !run[k].runners[i].pc.Exited?
  {
    if run[k].runners[i].pc.Exited? {
      forall more | Continues(run, k, more)
        ensures !ShowsRunning(more, i)
      {
        assert more[k] == run[k];
        ExitedStays(more, k, |more| - 1, i);
        OneLiveRunner(more, |more| - 1, i);
      }
    } else {
      var prefix := run[..k + 1];
      assert prefix[|prefix| - 1] == run[k];
      var more := CanRunAgain(prefix, i);
      assert Continues(run, k, more) && ShowsRunning(more, i);
    }
  }

  // ----- Whether it can end -----

  /** A loop returns only in the select, and only when it has been cancelled. */
  lemma ExitsFromSelect(s: State, t: State, i: nat)
    requires Next(s, t) && i < |s.runners| && i < |t.runners|
    requires t.runners[i].pc.Exited? && !s.runners[i].pc.Exited?
    ensures s.runners[i].pc.Idle? && s.runners[i].flags.cancelled
  {
    hide ApplyOp;
  }

  lemma IdleCanExit(s: State, i: nat) returns (t: State)
    requires i < |s.runners| && s.runners[i].flags.cancelled && s.runners[i].pc.Idle?
    ensures LoopStep(s, t, i) && t.runners[i].pc.Exited?
  {
    var r := s.runners[i];
    var q := r.(pc := Exited, flags := r.flags.(running := false));
    assert Moves(r, q);
    hide Moves;
    t := s.(runners := s.runners[i := q]);
  }

  function StagesToSelect(pc: Pc): nat {
    if pc.Starting? then 8 else Stage(pc)
  }

  /** A cancelled loop can always come to its end. */
  lemma {:induction false} CanEnd(run: seq<State>, i: nat) returns (more: seq<State>)
    requires IsRun(run) && i < |run[|run| - 1].runners| && run[|run| - 1].runners[i].flags.cancelled
    ensures IsRun(more) && run <= more
    ensures i < |more[|more| - 1].runners| && more[|more| - 1].runners[i].pc.Exited?
    decreases StagesToSelect(run[|run| - 1].runners[i].pc),
              if OffersLeft(run[|run| - 1].runners[i].pc) >= 0 then OffersLeft(run[|run| - 1].runners[i].pc) else 0
  {
    var s := run[|run| - 1];
    if s.runners[i].pc.Exited? {
      return run;
    }
    var t;
    if s.runners[i].pc.Idle? {
      t := IdleCanExit(s, i);
    } else {
      t := SomeLoopStep(s, i);
    }
    assert Next(s, t);
    hide Next, LoopStep;
    more := run + [t];
    assert IsRun(more);
    if !t.runners[i].pc.Exited? {
      more := CanEnd(more, i);
    }
  }

  /** For instance a loop that is stopped before its first cycle. */
  lemma StoppedAtOnce(s: State, interval: int) returns (run: seq<State>)
    requires Initial(s)
    ensures IsRun(run) && run[0] == s && ShowsRunning(run, 0)
    ensures !run[|run| - 1].runners[0].flags.enabled
  {
    var a := Handle(s, Start(interval, true));
    var b := Handle(a, Stop);
    assert Requested(s, a) && Requested(a, b);
    run := CanRunAgain([s, a, b], 0);
    OneLiveRunner(run, |run| - 1, 0);
    CancelledWindsDown(run, 2, |run| - 1, 0);
  }
}
