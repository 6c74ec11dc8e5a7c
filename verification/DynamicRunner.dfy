/**
 * The dynamic proxy loop (internal/api/api.go): start, stop and auto-pool requests and changes of the pool,
 * interleaved with the steps of every loop started so far, including cancelled ones that are still in flight.
 */
module DynamicRunner {
  import opened DynamicServer
  import opened Options
  import opened Selection
  import opened Sequences
  import BatchAdd
  import Crawler
  import JsonPath
  import Validator

  // ----- All interleavings -----

  /** What a cycle publishes as LastRun. */
  datatype Report = Report(cycle: nat, fetched: nat, valid: nat, added: nat, error: string)

  /** Where a loop is. */
  datatype Pc =
    | Starting
    | Crawling
    | Crawled(crawl: Crawler.Result)                                    // about to look at the context
    | Validating(fetched: nat, entries: seq<JsonPath.ProxyEntry>)
    | Validated(fetched: nat, results: seq<Validator.ValidateResult>)   // about to look at it again
    | Deciding(fetched: nat, batch: seq<JsonPath.ProxyEntry>)           // about to read AutoPool
    | Adding(fetched: nat, batch: seq<JsonPath.ProxyEntry>, tried: nat, added: nat, retrying: bool)
    | Publishing(report: Report)
    | Idle                                                              // in the select
    | Exited

  datatype Runner = Runner(flags: Flags, pc: Pc, cycle: nat, lastRun: Option<Report>)

  /** All runners ever started, the one in s.dynamic, and the pool. */
  datatype State = State(runners: seq<Runner>, dynamic: Option<nat>, pool: seq<UpstreamView>)

  datatype Request = Start(interval: int, freeProxy: bool) | Stop | AutoPool(on: bool)

  /** What the rest of the program does to the pool. */
  datatype PoolOp = AddUpstream(u: UpstreamView) | RemoveUpstream(name: string) | SetHealth(name: string, healthy: bool)

  function WithFlags(s: State, i: nat, f: Flags): State
    requires i < |s.runners|
  {
    s.(runners := s.runners[i := s.runners[i].(flags := f)])
  }

  function NewRunner(interval: int): Runner {
    Runner(NewFlags(interval), Starting, 0, None)
  }

  /** What a request does while it holds dynamicMu. */
  function Handle(s: State, req: Request): State
    requires s.dynamic.Some? ==> s.dynamic.value < |s.runners|
  {
    match req
    case Start(interval, freeProxy) =>
      if !freeProxy then s
      else
        var t := if s.dynamic.Some? && s.runners[s.dynamic.value].flags.enabled
                 then WithFlags(s, s.dynamic.value, Cancelled(s.runners[s.dynamic.value].flags)) else s;
        t.(runners := t.runners + [NewRunner(interval)], dynamic := Some(|t.runners|))
    case Stop =>
      if s.dynamic.Some? then WithFlags(s, s.dynamic.value, Cancelled(s.runners[s.dynamic.value].flags)) else s
    case AutoPool(on) =>
      if s.dynamic.Some? then WithFlags(s, s.dynamic.value, s.runners[s.dynamic.value].flags.(autoPool := on)) else s
  }

  function ApplyOp(pool: seq<UpstreamView>, op: PoolOp): seq<UpstreamView> {
    match op
    case AddUpstream(u) => if u.name in BatchAdd.ViewNames(pool) then pool else pool + [u]
    case RemoveUpstream(name) => Filter((u: UpstreamView) => u.name != name, pool)
    case SetHealth(name, healthy) =>
      Map((u: UpstreamView) => if u.name == name then u.(healthy := healthy) else u, pool)
  }

  /** The request concerns the runner that is the current one. */
  predicate Concerns(s: State, req: Request, i: nat) {
    s.dynamic == Some(i) && (req.Start? ==> req.freeProxy && i < |s.runners| && s.runners[i].flags.enabled)
  }

  /**
   * Starting and stopping cancel the current runner, an AutoPool request sets its switch, and nothing else
   * changes in the runners there are. A start without the free-proxy feature does nothing at all.
   */
  lemma RequestMeaning(s: State, req: Request, i: nat)
    requires s.dynamic.Some? ==> s.dynamic.value < |s.runners|
    requires i < |s.runners|
    ensures var t := Handle(s, req);
            var r, q := s.runners[i], if i < |t.runners| then t.runners[i] else s.runners[i];
            && i < |t.runners| && q == r.(flags := q.flags) && q.flags.interval == r.flags.interval
            && q.flags.autoPool == (if req.AutoPool? && Concerns(s, req, i) then req.on else r.flags.autoPool)
            && if !req.AutoPool? && Concerns(s, req, i) then q.flags.cancelled && !q.flags.enabled && !q.flags.running
               else q.flags == r.flags.(autoPool := q.flags.autoPool)
    ensures req.Start? && !req.freeProxy ==> Handle(s, req) == s
  {
  }

  /** A start adds one runner, which becomes the current one: enabled, waiting for its first cycle, AutoPool off. */
  lemma StartedRunner(s: State, req: Request)
    requires s.dynamic.Some? ==> s.dynamic.value < |s.runners|
    ensures var t, n := Handle(s, req), |s.runners|;
            && t.pool == s.pool
            && if req.Start? && req.freeProxy then
                 && |t.runners| == n + 1 && t.dynamic == Some(n)
                 && t.runners[n].pc == Starting && t.runners[n].cycle == 0 && t.runners[n].lastRun.None?
                 && t.runners[n].flags.enabled && !t.runners[n].flags.autoPool
                 && !t.runners[n].flags.running && !t.runners[n].flags.cancelled
                 && t.runners[n].flags.interval == if req.interval >= 10 then req.interval else 30
               else |t.runners| == n && t.dynamic == s.dynamic
  {
  }

  /** What the rest of the program does to the pool: add under a new name, remove by name, set a health flag. */
  lemma PoolOpMeaning(pool: seq<UpstreamView>, op: PoolOp) returns (at: seq<nat>)
    ensures var after := ApplyOp(pool, op);
            match op
            case AddUpstream(u) => after == if exists v :: v in pool && v.name == u.name then pool else pool + [u]
            case RemoveUpstream(name) =>
              && (forall v :: v in after <==> v in pool && v.name != name)
              && |at| == |after| && (forall k | 0 <= k < |at| :: at[k] < |pool| && pool[at[k]] == after[k])
              && (forall j, k | 0 <= j < k < |at| :: at[j] < at[k])
            case SetHealth(name, healthy) =>
              |after| == |pool| && forall k | 0 <= k < |pool| ::
                after[k] == pool[k].(healthy := if pool[k].name == name then healthy else pool[k].healthy)
  {
    at := [];
    match op
    case AddUpstream(u) =>
      assert u.name in BatchAdd.ViewNames(pool) <==> exists v :: v in pool && v.name == u.name;
    case RemoveUpstream(name) =>
      var other := (u: UpstreamView) => u.name != name;
      at := FilterOrdered(other, pool);
      FilterMembers(other, pool);
    case SetHealth(name, healthy) =>
  }

  /** r is what some complete crawl returns. */
  ghost predicate CrawlOutcome(r: Crawler.Result) {
    exists sources, run: seq<Crawler.State>, k: nat ::
      Crawler.IsRun(sources, run) && k < |run| && Crawler.Complete(sources, run[k]) && r == run[k].result
  }

  /** results is what some complete validation of the entries returns. */
  ghost predicate BatchOutcome(entries: seq<JsonPath.ProxyEntry>, results: seq<Validator.ValidateResult>) {
    exists b: Validator.Batch, run: seq<Validator.State>, k: nat ::
      b.entries == entries && Validator.IsRun(b, run) && k < |run| && run[k].main.Returned? && results == run[k].results
  }

  /** The proxies found valid, in the order of the results. */
  function ValidEntries(results: seq<Validator.ValidateResult>): (batch: seq<JsonPath.ProxyEntry>) {
    Map((r: Validator.ValidateResult) => r.entry, Filter(Validator.IsValid, results))
  }

  predicate Begins(r: Runner, q: Runner) {
    q == r.(pc := Crawling, cycle := r.cycle + 1, flags := r.flags.(running := true))
  }

  /** What a loop at r does next by itself, without touching the pool. */
  ghost predicate Moves(r: Runner, q: Runner) {
    var cancelled := r.flags.cancelled;
    match r.pc
    case Starting => Begins(r, q)
    case Crawling => q.pc.Crawled? && CrawlOutcome(q.pc.crawl) && q == r.(pc := q.pc)
    case Crawled(c) =>
      q == r.(pc := if cancelled then Publishing(Report(r.cycle, c.total, 0, 0, "cancelled"))
                    else if c.entries == [] then Publishing(Report(r.cycle, c.total, 0, 0, "no proxies fetched"))
                    else Validating(c.total, c.entries))
    case Validating(fetched, entries) =>
      q.pc.Validated? && q.pc.fetched == fetched && BatchOutcome(entries, q.pc.results) && q == r.(pc := q.pc)
    case Validated(fetched, results) =>
      var batch := ValidEntries(results);
      q == r.(pc := if cancelled then Publishing(Report(r.cycle, fetched, |batch|, 0, "cancelled"))
                    else Deciding(fetched, batch))
    case Deciding(fetched, batch) =>
      q == r.(pc := if r.flags.autoPool && batch != [] then Adding(fetched, batch, 0, 0, false)
                    else Publishing(Report(r.cycle, fetched, |batch|, 0, "")))
    case Adding(fetched, batch, tried, added, _) =>
      tried >= |batch| && q == r.(pc := Publishing(Report(r.cycle, fetched, |batch|, added, "")))
    case Publishing(report) =>
      q == r.(pc := Idle, lastRun := Some(report), flags := r.flags.(running := false))
    case Idle =>
      Begins(r, q) || (cancelled && q == r.(pc := Exited, flags := r.flags.(running := false)))
    case Exited => false
  }

  /** A proxy of the batch is still to be offered. */
  predicate Offers(r: Runner) {
    r.pc.Adding? && r.pc.tried < |r.pc.batch|
  }

  /** The name offered next; other goroutines may run between the first offer and the second. */
  function NextName(r: Runner, clock: nat): string
    requires Offers(r)
  {
    var e := r.pc.batch[r.pc.tried];
    if r.pc.retrying then BatchAdd.SuffixedName("dynamic", e, clock) else BatchAdd.OfferedName("dynamic", e)
  }

  /** One call of Pool.Add for the next proxy. */
  function Offer(r: Runner, pool: seq<UpstreamView>, clock: nat): (Runner, seq<UpstreamView>)
    requires Offers(r)
  {
    var name := NextName(r, clock);
    if name !in BatchAdd.ViewNames(pool) then
      (r.(pc := r.pc.(tried := r.pc.tried + 1, added := r.pc.added + 1, retrying := false)),
       pool + [BatchAdd.AddedAs(name, r.pc.batch[r.pc.tried])])
    else if !r.pc.retrying then (r.(pc := r.pc.(retrying := true)), pool)
    else (r.(pc := r.pc.(tried := r.pc.tried + 1, retrying := false)), pool)
  }

  ghost predicate OfferStep(s: State, t: State, i: nat)
    requires i < |s.runners| && i < |t.runners|
  {
    && Offers(s.runners[i])
    && exists clock: nat :: (t.runners[i], t.pool) == Offer(s.runners[i], s.pool, clock)
  }

  ghost predicate LoopStep(s: State, t: State, i: nat) {
    && i < |s.runners| && i < |t.runners|
    && t.runners == s.runners[i := t.runners[i]] && t.dynamic == s.dynamic
    && ((Moves(s.runners[i], t.runners[i]) && t.pool == s.pool) || OfferStep(s, t, i))
  }

  ghost predicate Requested(s: State, t: State) {
    && (s.dynamic.Some? ==> s.dynamic.value < |s.runners|)
    && exists req :: t == Handle(s, req)
  }

  ghost predicate PoolChanges(s: State, t: State) {
    exists op :: t == s.(pool := ApplyOp(s.pool, op))
  }

  ghost predicate Next(s: State, t: State) {
    Requested(s, t) || PoolChanges(s, t) || exists i: nat :: LoopStep(s, t, i)
  }

  predicate Initial(s: State) {
    s.runners == [] && s.dynamic.None? && UniqueViews(s.pool)
  }

  ghost predicate IsRun(run: seq<State>) {
    run != [] && Initial(run[0]) && forall k | 0 < k < |run| :: Next(run[k - 1], run[k])
  }

  // ----- What a loop puts into the pool, as seen from outside -----

  /** The pool grows in a step of runner i, in its cycle c. */
  predicate Enters(s: State, t: State, i: nat, c: nat) {
    && i < |s.runners| && i < |t.runners| && s.runners[i] != t.runners[i] && s.runners[i].cycle == c
    && |t.pool| > |s.pool|
  }

  /** How often that happens up to state k. */
  function Entered(run: seq<State>, k: nat, i: nat, c: nat): nat
    requires k < |run|
  {
    if k == 0 then 0 else Entered(run, k - 1, i, c) + (if Enters(run[k - 1], run[k], i, c) then 1 else 0)
  }

  function EnteredBy(run: seq<State>, k: nat, i: nat): nat -> nat
    requires k < |run|
  {
    (c: nat) => Entered(run, k, i, c)
  }

  /** The two offers of one proxy, with nothing in between, are one round of the batch loop. */
  lemma TwoOffersAreOneRound(r: Runner, pool: seq<UpstreamView>, clock: nat)
    requires Offers(r) && !r.pc.retrying
    ensures var (q, first) := Offer(r, pool, clock);
            var after := pool + BatchAdd.AddedOne(pool, "dynamic", r.pc.batch[r.pc.tried], clock);
            if q.pc.retrying then first == pool && Offers(q) && Offer(q, pool, clock).1 == after
            else first == after
  {
    assert pool + [] == pool;
  }

  /** When the pool grows in a step of a loop, it grows by a proxy of that loop's batch under a name of its own. */
  lemma EntersMeaning(s: State, t: State, i: nat, c: nat)
    requires Next(s, t) && Enters(s, t, i, c)
    ensures s.runners[i].pc.Adding?
    ensures exists name, e :: e in s.runners[i].pc.batch && name !in BatchAdd.ViewNames(s.pool)
                              && t.pool == s.pool + [BatchAdd.AddedAs(name, e)]
  {
    assert !Requested(s, t) && !PoolChanges(s, t);
    var j: nat :| LoopStep(s, t, j);
    hide Moves, BatchAdd.OfferedName, BatchAdd.SuffixedName;
    var clock: nat :| (t.runners[j], t.pool) == Offer(s.runners[j], s.pool, clock);
    var pc := s.runners[j].pc;
    assert pc.batch[pc.tried] in pc.batch;
  }

  // ----- The invariant -----

  predicate InCycle(pc: Pc) {
    !pc.Starting? && !pc.Idle? && !pc.Exited?
  }

  /** Past the second look at the context. */
  predicate PastCheck(pc: Pc) {
    pc.Deciding? || pc.Adding?
  }

  /** The numbers of a report are consistent, and nothing was added in a cycle that ended in an error. */
  predicate Sound(r: Report) {
    r.added <= r.valid <= r.fetched && (r.error != "" ==> r.added == 0)
  }

  ghost predicate FlagsSound(r: Runner) {
    && (r.flags.enabled <==> !r.flags.cancelled)
    && r.flags.interval >= 10
    && (r.flags.running ==> InCycle(r.pc))
  }

  ghost predicate PcSound(r: Runner) {
    match r.pc
    case Starting => r.cycle == 0 && r.lastRun.None?
    case Crawled(c) => c.total == |c.entries|
    case Validating(fetched, entries) => fetched == |entries|
    case Validated(fetched, results) => fetched == |results|
    case Deciding(fetched, batch) => |batch| <= fetched
    case Adding(fetched, batch, tried, added, _) => added <= tried <= |batch| <= fetched
    case Publishing(report) => Sound(report) && report.cycle == r.cycle
    case _ => true
  }

  /** The upstreams added so far by the cycle in progress. */
  function AddedSoFar(pc: Pc): nat {
    match pc
    case Adding(_, _, _, added, _) => added
    case Publishing(report) => report.added
    case _ => 0
  }

  /** What a runner knows agrees with what its cycles have put into the pool. */
  ghost predicate Booked(r: Runner, entered: nat -> nat) {
    && (forall c: nat | c > r.cycle :: entered(c) == 0)
    && (InCycle(r.pc) ==> entered(r.cycle) == AddedSoFar(r.pc))
    && (r.lastRun.Some? ==>
          && Sound(r.lastRun.value) && entered(r.lastRun.value.cycle) == r.lastRun.value.added
          && (if InCycle(r.pc) then r.lastRun.value.cycle < r.cycle else r.lastRun.value.cycle == r.cycle))
  }

  ghost predicate RunnerSound(run: seq<State>, k: nat, i: nat)
    requires k < |run| && i < |run[k].runners|
  {
    var r := run[k].runners[i];
    && FlagsSound(r) && PcSound(r) && Booked(r, EnteredBy(run, k, i))
    && (!r.flags.cancelled ==> run[k].dynamic == Some(i))
  }

  /** Runners that do not exist yet have added nothing. */
  ghost predicate OnlyRunnersEnter(run: seq<State>, k: nat)
    requires k < |run|
  {
    forall i: nat, c: nat | i >= |run[k].runners| :: Entered(run, k, i, c) == 0
  }

  ghost predicate Invariant(run: seq<State>, k: nat)
    requires k < |run|
  {
    var s := run[k];
    && (s.dynamic.Some? ==> s.dynamic.value < |s.runners|)
    && UniqueViews(s.pool)
    && OnlyRunnersEnter(run, k)
    && forall i: nat | i < |s.runners| :: RunnerSound(run, k, i)
  }

  lemma CrawlOutcomeSound(c: Crawler.Result)
    requires CrawlOutcome(c)
    ensures c.total == |c.entries| && NoDuplicates(Crawler.Keys(c.entries))
  {
    var sources, run: seq<Crawler.State>, k: nat :|
      Crawler.IsRun(sources, run) && k < |run| && Crawler.Complete(sources, run[k]) && c == run[k].result;
    Crawler.CrawlIsTheUnion(sources, run, k);
  }

  /** The results are those of the entries, each with the verdict of its probe. */
  ghost predicate Judged(
    entries: seq<JsonPath.ProxyEntry>, probe: nat -> bool, results: seq<Validator.ValidateResult>)
  {
    multiset(results) == multiset(Validator.Judgements(entries, probe))
  }

  lemma BatchOutcomeSound(entries: seq<JsonPath.ProxyEntry>, results: seq<Validator.ValidateResult>)
    returns (probe: nat -> bool)
    requires BatchOutcome(entries, results)
    ensures |results| == |entries| && Judged(entries, probe, results)
  {
    var b: Validator.Batch, run: seq<Validator.State>, k: nat :|
      && b.entries == entries && Validator.IsRun(b, run) && k < |run|
      && run[k].main.Returned? && results == run[k].results;
    Validator.ResultIsComplete(b, run, k);
    probe := b.probe;
  }

  lemma MoveKeepsFlags(r: Runner, q: Runner)
    requires FlagsSound(r) && PcSound(r) && Moves(r, q)
    ensures FlagsSound(q) && PcSound(q) && q.flags.cancelled == r.flags.cancelled
  {
    match r.pc
    case Crawling => CrawlOutcomeSound(q.pc.crawl);
    case Validating(_, entries) =>
      var _ := BatchOutcomeSound(entries, q.pc.results);
    case Validated(_, results) => FilterShorter(Validator.IsValid, results);
    case _ =>
  }

  lemma MoveKeepsBooks(r: Runner, q: Runner, before: nat -> nat, after: nat -> nat)
    requires PcSound(r) && Booked(r, before) && Moves(r, q)
    requires forall c: nat :: after(c) == before(c)
    ensures Booked(q, after)
  {
  }

  lemma OfferKeepsBooks(
    r: Runner, pool: seq<UpstreamView>, clock: nat, q: Runner, grown: seq<UpstreamView>,
    before: nat -> nat, after: nat -> nat)
    requires FlagsSound(r) && PcSound(r) && Booked(r, before) && Offers(r) && (q, grown) == Offer(r, pool, clock)
    requires forall c: nat :: after(c) == before(c) + (if c == r.cycle && |grown| > |pool| then 1 else 0)
    ensures FlagsSound(q) && PcSound(q) && Booked(q, after) && q.flags == r.flags
  {
    hide BatchAdd.OfferedName, BatchAdd.SuffixedName, BatchAdd.AddedAs;
  }

  lemma OfferKeepsUnique(r: Runner, pool: seq<UpstreamView>, clock: nat)
    requires Offers(r) && UniqueViews(pool)
    ensures UniqueViews(Offer(r, pool, clock).1)
  {
    assert forall i | 0 <= i < |pool| :: pool[i] in pool && pool[i].name in BatchAdd.ViewNames(pool);
  }

  lemma OpKeepsUnique(pool: seq<UpstreamView>, op: PoolOp)
    requires UniqueViews(pool)
    ensures UniqueViews(ApplyOp(pool, op))
  {
    assert forall i | 0 <= i < |pool| :: pool[i] in pool && pool[i].name in BatchAdd.ViewNames(pool);
    if op.RemoveUpstream? {
      FilterUnique((u: UpstreamView) => u.name != op.name, pool);
    }
  }

  /** A runner that does not take part in a step stays sound. */
  lemma BystanderStaysSound(run: seq<State>, k: nat, i: nat)
    requires 0 < k < |run| && i < |run[k - 1].runners| && RunnerSound(run, k - 1, i)
    requires i < |run[k].runners| && run[k].runners[i] == run[k - 1].runners[i]
    requires !run[k].runners[i].flags.cancelled ==> run[k].dynamic == run[k - 1].dynamic
    ensures RunnerSound(run, k, i)
  {
    hide FlagsSound, PcSound;
    assert forall c: nat :: EnteredBy(run, k, i)(c) == EnteredBy(run, k - 1, i)(c);
  }

  lemma MoverStaysSound(run: seq<State>, k: nat, i: nat)
    requires 0 < k < |run| && i < |run[k - 1].runners| && RunnerSound(run, k - 1, i)
    requires LoopStep(run[k - 1], run[k], i)
    ensures RunnerSound(run, k, i)
  {
    var s, t := run[k - 1], run[k];
    var r, q := s.runners[i], t.runners[i];
    var before, after := EnteredBy(run, k - 1, i), EnteredBy(run, k, i);
    if Moves(r, q) && t.pool == s.pool {
      assert forall c: nat :: after(c) == before(c);
      MoveKeepsFlags(r, q);
      MoveKeepsBooks(r, q, before, after);
    } else {
      var clock: nat :| (q, t.pool) == Offer(r, s.pool, clock);
      assert forall c: nat :: after(c) == before(c) + (if c == r.cycle && |t.pool| > |s.pool| then 1 else 0);
      OfferKeepsBooks(r, s.pool, clock, q, t.pool, before, after);
    }
    hide Moves, Offer, Booked, FlagsSound, PcSound, Entered;
  }

  lemma NobodyElseEnters(run: seq<State>, k: nat)
    requires 0 < k < |run| && |run[k - 1].runners| <= |run[k].runners|
    requires OnlyRunnersEnter(run, k - 1)
    ensures OnlyRunnersEnter(run, k)
  {
  }

  lemma LoopStepKeepsInvariant(run: seq<State>, k: nat, i: nat)
    requires 0 < k < |run| && Invariant(run, k - 1) && LoopStep(run[k - 1], run[k], i)
    ensures Invariant(run, k)
  {
    var s, t := run[k - 1], run[k];
    assert RunnerSound(run, k - 1, i);
    MoverStaysSound(run, k, i);
    if OfferStep(s, t, i) {
      var clock: nat :| (t.runners[i], t.pool) == Offer(s.runners[i], s.pool, clock);
      OfferKeepsUnique(s.runners[i], s.pool, clock);
    }
    hide Moves, Offer, OfferStep, UniqueViews;
    forall j: nat | j < |t.runners| && j != i
      ensures RunnerSound(run, k, j)
    {
      assert RunnerSound(run, k - 1, j);
      BystanderStaysSound(run, k, j);
    }
    hide RunnerSound;
    NobodyElseEnters(run, k);
  }

  /** Runner d keeps its place in its loop and what it knows; only its flags change. */
  lemma FlagsStaySound(run: seq<State>, k: nat, d: nat)
    requires 0 < k < |run| && d < |run[k - 1].runners| && d < |run[k].runners| && RunnerSound(run, k - 1, d)
    requires |run[k].pool| == |run[k - 1].pool|
    requires var f, g := run[k - 1].runners[d].flags, run[k].runners[d].flags;
             && run[k].runners[d] == run[k - 1].runners[d].(flags := g)
             && (g.cancelled <==> !g.enabled) && g.interval == f.interval && (g.running ==> f.running)
             && (!g.cancelled ==> !f.cancelled && run[k].dynamic == run[k - 1].dynamic)
    ensures RunnerSound(run, k, d)
  {
    assert forall c: nat :: EnteredBy(run, k, d)(c) == EnteredBy(run, k - 1, d)(c);
  }

  /** A runner that has just been created is sound. */
  lemma NewcomerIsSound(run: seq<State>, k: nat, interval: int)
    requires 0 < k < |run| && Invariant(run, k - 1)
    requires |run[k].runners| == |run[k - 1].runners| + 1
    requires var d := |run[k - 1].runners|; run[k].runners[d] == NewRunner(interval) && run[k].dynamic == Some(d)
    ensures RunnerSound(run, k, |run[k - 1].runners|)
  {
    var d := |run[k - 1].runners|;
    assert forall c: nat :: EnteredBy(run, k, d)(c) == Entered(run, k - 1, d, c) == 0;
  }

  lemma RequestKeepsInvariant(run: seq<State>, k: nat, req: Request)
    requires 0 < k < |run| && Invariant(run, k - 1) && run[k] == Handle(run[k - 1], req)
    ensures Invariant(run, k)
  {
    var s, t := run[k - 1], run[k];
    hide Booked, PcSound, UniqueViews;
    forall i: nat | i < |t.runners|
      ensures RunnerSound(run, k, i)
    {
      if i == |s.runners| {
        NewcomerIsSound(run, k, req.interval);
      } else {
        assert RunnerSound(run, k - 1, i);
        FlagsStaySound(run, k, i);
      }
    }
    hide RunnerSound;
    NobodyElseEnters(run, k);
  }

  lemma PoolChangeKeepsInvariant(run: seq<State>, k: nat, op: PoolOp)
    requires 0 < k < |run| && Invariant(run, k - 1)
    requires run[k] == run[k - 1].(pool := ApplyOp(run[k - 1].pool, op))
    ensures Invariant(run, k)
  {
    OpKeepsUnique(run[k - 1].pool, op);
    hide ApplyOp, UniqueViews;
    forall i: nat | i < |run[k].runners|
      ensures RunnerSound(run, k, i)
    {
      assert RunnerSound(run, k - 1, i);
      BystanderStaysSound(run, k, i);
    }
    hide RunnerSound;
    NobodyElseEnters(run, k);
  }

  /** Every step of a run, by a request, by the rest of the program or by any loop, keeps the invariant. */
  lemma StepKeepsInvariant(run: seq<State>, k: nat)
    requires 0 < k < |run| && Invariant(run, k - 1) && Next(run[k - 1], run[k])
    ensures Invariant(run, k)
  {
    hide Invariant, Handle, LoopStep, ApplyOp;
    var s, t := run[k - 1], run[k];
    if Requested(s, t) {
      var req :| t == Handle(s, req);
      RequestKeepsInvariant(run, k, req);
    } else if PoolChanges(s, t) {
      var op :| t == s.(pool := ApplyOp(s.pool, op));
      PoolChangeKeepsInvariant(run, k, op);
    } else {
      var i: nat :| LoopStep(s, t, i);
      LoopStepKeepsInvariant(run, k, i);
    }
  }

  lemma {:induction false} RunKeepsInvariant(run: seq<State>, k: nat)
    requires IsRun(run) && k < |run|
    ensures Invariant(run, k)
  {
    if k > 0 {
      hide Next, Invariant;
      RunKeepsInvariant(run, k - 1);
      StepKeepsInvariant(run, k);
    }
  }

  // ----- What holds in every state of every run -----

  /** A runner is enabled exactly when it is not cancelled, and then it is the one in s.dynamic. */
  lemma OneLiveRunner(run: seq<State>, k: nat, i: nat)
    requires IsRun(run) && k < |run| && i < |run[k].runners|
    ensures var f := run[k].runners[i].flags;
            && (f.enabled <==> !f.cancelled)
            && (f.enabled ==> run[k].dynamic == Some(i))
            && f.interval >= 10
            && (f.running ==> InCycle(run[k].runners[i].pc))
  {
    RunKeepsInvariant(run, k);
    assert RunnerSound(run, k, i);
  }

  /**
   * Every published report has sound numbers, and its Added is how often the pool grew in a step of that
   * cycle, whatever requests, other loops and the rest of the program did in between.
   */
  lemma CycleAccounting(run: seq<State>, k: nat, i: nat)
    requires IsRun(run) && k < |run| && i < |run[k].runners| && run[k].runners[i].lastRun.Some?
    ensures var report := run[k].runners[i].lastRun.value;
            && report.added <= report.valid <= report.fetched
            && (report.error != "" ==> report.added == 0)
            && report.added == Entered(run, k, i, report.cycle)
  {
    RunKeepsInvariant(run, k);
    assert RunnerSound(run, k, i);
    assert EnteredBy(run, k, i)(run[k].runners[i].lastRun.value.cycle) == run[k].runners[i].lastRun.value.added;
  }
}
