/**
 * Where what a dynamic cycle does comes from (internal/api/api.go): the pool grows only on a decision taken with
 * AutoPool on, by proxies that the validation of that cycle found valid, and reports tell what happened.
 */
module CycleTrace {
  import opened DynamicRunner
  import opened DynamicServer
  import opened Options
  import opened Selection
  import opened Sequences
  import BatchAdd
  import Crawler
  import JsonPath
  import Validator

  // ----- One step, seen from one runner -----

  /** At most the flags of the runner change, and not by its own doing. */
  predicate Rests(r: Runner, q: Runner) {
    q == r.(flags := q.flags) && (r.flags.cancelled ==> q.flags.cancelled)
  }

  ghost predicate OffersOne(s: State, t: State, r: Runner, q: Runner) {
    && Offers(r)
    && exists clock: nat :: (q, t.pool) == Offer(r, s.pool, clock)
  }

  /** A runner is new, rests, or takes a step of its loop. */
  lemma RunnerStep(run: seq<State>, k: nat, i: nat)
    requires IsRun(run) && 0 < k < |run| && i < |run[k].runners|
    ensures var s, t := run[k - 1], run[k];
            if i < |s.runners| then
              var r, q := s.runners[i], t.runners[i];
              Rests(r, q) || (Moves(r, q) && t.pool == s.pool) || OffersOne(s, t, r, q)
            else t.runners[i].pc.Starting? && t.runners[i].lastRun.None? && !t.runners[i].flags.autoPool
  {
    var s, t := run[k - 1], run[k];
    RunKeepsInvariant(run, k - 1);
    assert Next(s, t);
    hide Moves, Offer, ApplyOp, UniqueViews, RunnerSound;
    if j: nat :| LoopStep(s, t, j) {
      assert j != i ==> t.runners[i] == s.runners[i];
    }
  }

  /** r has the same stage of the same cycle as q. */
  predicate Same(r: Runner, q: Runner) {
    r.pc == q.pc && r.cycle == q.cycle
  }

  /** r is about to publish this report. */
  predicate Reports(r: Runner, report: Report) {
    match r.pc
    case Crawled(crawl) =>
      || (r.flags.cancelled && report == Report(r.cycle, crawl.total, 0, 0, "cancelled"))
      || (!r.flags.cancelled && crawl.entries == []
          && report == Report(r.cycle, crawl.total, 0, 0, "no proxies fetched"))
    case Validated(fetched, results) =>
      r.flags.cancelled && report == Report(r.cycle, fetched, |ValidEntries(results)|, 0, "cancelled")
    case Deciding(fetched, batch) =>
      (!r.flags.autoPool || batch == []) && report == Report(r.cycle, fetched, |batch|, 0, "")
    case Adding(fetched, batch, tried, added, _) =>
      tried >= |batch| && report == Report(r.cycle, fetched, |batch|, added, "")
    case _ => false
  }

  /** Where a runner at q can have come from in one step, stage by stage. */
  ghost predicate CameFrom(r: Runner, q: Runner) {
    match q.pc
    case Crawled(crawl) => Same(r, q) || (r.pc.Crawling? && r.cycle == q.cycle && CrawlOutcome(crawl))
    case Validating(fetched, entries) =>
      || Same(r, q)
      || (r.pc.Crawled? && r.cycle == q.cycle && !r.flags.cancelled && r.pc.crawl.entries == entries != []
          && r.pc.crawl.total == fetched)
    case Validated(fetched, results) =>
      || Same(r, q)
      || (r.pc.Validating? && r.cycle == q.cycle && r.pc.fetched == fetched && BatchOutcome(r.pc.entries, results))
    case Deciding(fetched, batch) =>
      || Same(r, q)
      || (r.pc.Validated? && r.cycle == q.cycle && !r.flags.cancelled && r.pc.fetched == fetched
          && batch == ValidEntries(r.pc.results))
    case Adding(fetched, batch, tried, added, _) =>
      || (r.pc.Adding? && r.cycle == q.cycle && r.pc.fetched == fetched && r.pc.batch == batch)
      || (r.pc.Deciding? && r.cycle == q.cycle && r.pc.fetched == fetched && r.pc.batch == batch != []
          && r.flags.autoPool && tried == 0 && added == 0)
    case Publishing(report) => Same(r, q) || (r.cycle == q.cycle && Reports(r, report))
    case _ => true
  }

  lemma MoveCameFrom(r: Runner, q: Runner)
    requires Moves(r, q)
    ensures CameFrom(r, q)
  {
    hide CrawlOutcome, BatchOutcome, ValidEntries;
  }

  lemma OfferCameFrom(s: State, t: State, r: Runner, q: Runner)
    requires OffersOne(s, t, r, q)
    ensures CameFrom(r, q) && r.pc.Adding? && q.pc.Adding?
  {
    hide BatchAdd.OfferedName, BatchAdd.SuffixedName;
  }

  /** Every runner that has begun its first cycle came from somewhere. */
  lemma StepCameFrom(run: seq<State>, k: nat, i: nat)
    requires IsRun(run) && k < |run| && i < |run[k].runners| && !run[k].runners[i].pc.Starting?
    ensures 0 < k && i < |run[k - 1].runners| && CameFrom(run[k - 1].runners[i], run[k].runners[i])
  {
    assert k > 0;
    hide Moves, OffersOne, IsRun, CrawlOutcome, BatchOutcome, ValidEntries;
    RunnerStep(run, k, i);
    var s, t := run[k - 1], run[k];
    var r, q := s.runners[i], t.runners[i];
    if Moves(r, q) {
      MoveCameFrom(r, q);
    } else if OffersOne(s, t, r, q) {
      OfferCameFrom(s, t, r, q);
    }
  }

  // ----- AutoPool -----

  /** The request that switches AutoPool on for runner i. */
  predicate SwitchesOn(s: State, t: State, i: nat) {
    s.dynamic == Some(i) && i < |s.runners| && t == Handle(s, AutoPool(true))
  }

  lemma AutoPoolStep(s: State, t: State, i: nat)
    requires Next(s, t) && i < |s.runners| && i < |t.runners|
    requires t.runners[i].flags.autoPool && !s.runners[i].flags.autoPool
    ensures SwitchesOn(s, t, i)
  {
    hide ApplyOp, BatchAdd.OfferedName, BatchAdd.SuffixedName, CrawlOutcome, BatchOutcome;
  }

  lemma AutoPoolBefore(run: seq<State>, k: nat, i: nat)
    requires IsRun(run) && k < |run| && i < |run[k].runners| && run[k].runners[i].flags.autoPool
    ensures 0 < k && i < |run[k - 1].runners|
    ensures run[k - 1].runners[i].flags.autoPool || SwitchesOn(run[k - 1], run[k], i)
  {
    assert k > 0;
    assert Next(run[k - 1], run[k]);
    RunnerStep(run, k, i);
    hide IsRun, Moves, OffersOne, Next, SwitchesOn, Rests;
    if !run[k - 1].runners[i].flags.autoPool {
      AutoPoolStep(run[k - 1], run[k], i);
    }
  }

  /** AutoPool is on only because it was switched on while the runner was the current one. */
  lemma {:induction false} AutoPoolWasRequested(run: seq<State>, k: nat, i: nat) returns (j: nat)
    requires IsRun(run) && k < |run| && i < |run[k].runners| && run[k].runners[i].flags.autoPool
    ensures j < k && SwitchesOn(run[j], run[j + 1], i)
  {
    hide IsRun, SwitchesOn;
    AutoPoolBefore(run, k, i);
    j := k - 1;
    if run[k - 1].runners[i].flags.autoPool {
      j := AutoPoolWasRequested(run, k - 1, i);
    }
  }

  /** Runner i is about to decide in cycle c, with AutoPool on. */
  predicate DecidesToAdd(s: State, i: nat, c: nat) {
    && i < |s.runners| && s.runners[i].pc.Deciding? && s.runners[i].cycle == c
    && s.runners[i].flags.autoPool
  }

  /** A loop that adds has decided so in this cycle. */
  lemma {:induction false} AddingWasDecided(run: seq<State>, k: nat, i: nat) returns (j: nat)
    requires IsRun(run) && k < |run| && i < |run[k].runners| && run[k].runners[i].pc.Adding?
    ensures j < k && DecidesToAdd(run[j], i, run[k].runners[i].cycle)
    ensures run[j].runners[i].pc.batch == run[k].runners[i].pc.batch
  {
    hide IsRun;
    StepCameFrom(run, k, i);
    if run[k - 1].runners[i].pc.Adding? {
      j := AddingWasDecided(run, k - 1, i);
    } else {
      j := k - 1;
    }
  }

  /** Some step of cycle c in which the pool grew. */
  lemma {:induction false} SomeEntry(run: seq<State>, k: nat, i: nat, c: nat) returns (m: nat)
    requires k < |run| && Entered(run, k, i, c) > 0
    ensures m < k && Enters(run[m], run[m + 1], i, c)
  {
    if Enters(run[k - 1], run[k], i, c) {
      m := k - 1;
    } else {
      m := SomeEntry(run, k - 1, i, c);
    }
  }

  /** The pool grows by a cycle only if that cycle decided so with AutoPool on. */
  lemma GrowthWasDecided(run: seq<State>, k: nat, i: nat, c: nat) returns (j: nat)
    requires IsRun(run) && k < |run| && Entered(run, k, i, c) > 0
    ensures j < k && DecidesToAdd(run[j], i, c)
  {
    var m := SomeEntry(run, k, i, c);
    assert Next(run[m], run[m + 1]);
    EntersMeaning(run[m], run[m + 1], i, c);
    hide IsRun, Next;
    j := AddingWasDecided(run, m, i);
  }

  /** So a cycle with AutoPool off throughout adds nothing. */
  lemma NothingWithoutAutoPool(run: seq<State>, k: nat, i: nat, c: nat)
    requires IsRun(run) && k < |run|
    requires forall j: nat | j < k && i < |run[j].runners| && run[j].runners[i].cycle == c ::
               !run[j].runners[i].flags.autoPool
    ensures Entered(run, k, i, c) == 0
  {
    if Entered(run, k, i, c) > 0 {
      var j := GrowthWasDecided(run, k, i, c);
    }
  }

  // ----- What is added -----

  /** Runner i holds these results in cycle c and has not been cancelled. */
  predicate HasValidated(s: State, i: nat, c: nat, results: seq<Validator.ValidateResult>) {
    && i < |s.runners| && s.runners[i].cycle == c && !s.runners[i].flags.cancelled
    && s.runners[i].pc.Validated? && s.runners[i].pc.results == results
  }

  function NumberValid(results: seq<Validator.ValidateResult>): nat {
    if results == [] then 0
    else NumberValid(results[..|results| - 1]) + (if results[|results| - 1].valid then 1 else 0)
  }

  /** The batch is what the results say is valid, and nothing else. */
  ghost predicate ValidOnes(results: seq<Validator.ValidateResult>, batch: seq<JsonPath.ProxyEntry>) {
    && (forall e :: e in batch <==> exists r :: r in results && r.valid && r.entry == e)
    && |batch| == NumberValid(results)
  }

  lemma {:induction false} FilterCounts(results: seq<Validator.ValidateResult>)
    ensures |Filter(Validator.IsValid, results)| == NumberValid(results)
  {
    if results != [] {
      FilterCounts(results[..|results| - 1]);
    }
  }

  lemma ValidEntriesMeaning(results: seq<Validator.ValidateResult>)
    ensures ValidOnes(results, ValidEntries(results))
  {
    var valid, batch := Filter(Validator.IsValid, results), ValidEntries(results);
    FilterCounts(results);
    FilterMembers(Validator.IsValid, results);
    hide Filter;
    forall r | r in results && r.valid
      ensures r.entry in batch
    {
      var i :| 0 <= i < |valid| && valid[i] == r;
      assert batch[i] == r.entry;
    }
    forall e | e in batch
      ensures exists r :: r in results && r.valid && r.entry == e
    {
      var i :| 0 <= i < |batch| && batch[i] == e;
      assert valid[i] in valid;
    }
  }

  /** A batch is that of the validation of its cycle. */
  lemma {:induction false} BatchWasValidated(run: seq<State>, k: nat, i: nat)
    returns (j: nat, results: seq<Validator.ValidateResult>)
    requires IsRun(run) && k < |run| && i < |run[k].runners| && PastCheck(run[k].runners[i].pc)
    ensures j < k && HasValidated(run[j], i, run[k].runners[i].cycle, results)
    ensures ValidOnes(results, run[k].runners[i].pc.batch)
    ensures run[j].runners[i].pc.fetched == run[k].runners[i].pc.fetched
  {
    hide IsRun, ValidOnes, ValidEntries, BatchOutcome, CrawlOutcome;
    StepCameFrom(run, k, i);
    var r := run[k - 1].runners[i];
    if PastCheck(r.pc) {
      j, results := BatchWasValidated(run, k - 1, i);
    } else {
      j, results := k - 1, r.pc.results;
      ValidEntriesMeaning(results);
    }
  }

  /** Results are the verdicts of the probes on the entries of that cycle. */
  lemma {:induction false} ResultsWereJudged(run: seq<State>, k: nat, i: nat) returns (j: nat, probe: nat -> bool)
    requires IsRun(run) && k < |run| && i < |run[k].runners| && run[k].runners[i].pc.Validated?
    ensures var q := run[k].runners[i];
            && j < k && i < |run[j].runners|
            && var p := run[j].runners[i];
               && p.pc.Validating? && p.cycle == q.cycle && p.pc.fetched == q.pc.fetched
               && Judged(p.pc.entries, probe, q.pc.results)
  {
    hide IsRun, Judged, BatchOutcome, CrawlOutcome;
    StepCameFrom(run, k, i);
    var r := run[k - 1].runners[i];
    if r.pc.Validated? {
      j, probe := ResultsWereJudged(run, k - 1, i);
    } else {
      j := k - 1;
      probe := BatchOutcomeSound(r.pc.entries, run[k].runners[i].pc.results);
    }
  }

  lemma {:induction false} CrawledIsOutcome(run: seq<State>, k: nat, i: nat)
    requires IsRun(run) && k < |run| && i < |run[k].runners| && run[k].runners[i].pc.Crawled?
    ensures CrawlOutcome(run[k].runners[i].pc.crawl)
  {
    hide IsRun, BatchOutcome, CrawlOutcome;
    StepCameFrom(run, k, i);
    if run[k - 1].runners[i].pc.Crawled? {
      CrawledIsOutcome(run, k - 1, i);
    }
  }

  /** The entries validated are those of the crawl of that cycle. */
  lemma {:induction false} EntriesWereCrawled(run: seq<State>, k: nat, i: nat) returns (j: nat)
    requires IsRun(run) && k < |run| && i < |run[k].runners| && run[k].runners[i].pc.Validating?
    ensures var q := run[k].runners[i];
            && j < k && i < |run[j].runners|
            && var p := run[j].runners[i];
               && p.pc.Crawled? && p.cycle == q.cycle && !p.flags.cancelled
               && p.pc.crawl.entries == q.pc.entries && q.pc.entries != []
               && CrawlOutcome(p.pc.crawl)
  {
    hide IsRun, BatchOutcome, CrawlOutcome;
    StepCameFrom(run, k, i);
    if run[k - 1].runners[i].pc.Validating? {
      j := EntriesWereCrawled(run, k - 1, i);
    } else {
      j := k - 1;
      CrawledIsOutcome(run, j, i);
    }
  }

  /** A cycle validates what its crawl fetched, and no proxy of one type and address twice. */
  lemma NothingTestedTwice(run: seq<State>, k: nat, i: nat)
    requires IsRun(run) && k < |run| && i < |run[k].runners| && run[k].runners[i].pc.Validating?
    ensures var pc := run[k].runners[i].pc;
            pc.fetched == |pc.entries| > 0 && NoDuplicates(Crawler.Keys(pc.entries))
  {
    var j := EntriesWereCrawled(run, k, i);
    CrawlOutcomeSound(run[j].runners[i].pc.crawl);
    RunKeepsInvariant(run, k);
    assert RunnerSound(run, k, i);
    hide IsRun, CrawlOutcome, Booked;
  }

  /** What a step of a cycle puts into the pool: some proxy e, under a free name. */
  predicate PutsIn(s: State, t: State, e: JsonPath.ProxyEntry) {
    && |t.pool| == |s.pool| + 1 && s.pool == t.pool[..|s.pool|]
    && var u := t.pool[|s.pool|];
       && u.addr == e.addr && u.kind == e.kind && u.username == "" && u.password == "" && u.healthy
       && forall v | v in s.pool :: v.name != u.name
  }

  /**
   * Whatever a cycle puts into the pool is the entry of a result with a valid verdict of that cycle's validation,
   * whose results are the verdicts of the probes on the entries of that cycle's crawl.
   */
  lemma EnteredWasValid(run: seq<State>, m: nat, i: nat, c: nat)
    returns (r: Validator.ValidateResult, j: nat, results: seq<Validator.ValidateResult>)
    requires IsRun(run) && m + 1 < |run| && Enters(run[m], run[m + 1], i, c)
    ensures j < m && HasValidated(run[j], i, c, results) && r in results && r.valid
    ensures PutsIn(run[m], run[m + 1], r.entry)
  {
    assert Next(run[m], run[m + 1]);
    EntersMeaning(run[m], run[m + 1], i, c);
    var name, e :| && e in run[m].runners[i].pc.batch && name !in BatchAdd.ViewNames(run[m].pool)
                   && run[m + 1].pool == run[m].pool + [BatchAdd.AddedAs(name, e)];
    hide Next;
    j, results := BatchWasValidated(run, m, i);
    r :| r in results && r.valid && r.entry == e;
  }

  // ----- Everything valid is offered -----

  /** The first name of e is taken while cycle c of runner i adds. */
  predicate FirstTaken(s: State, i: nat, c: nat, e: JsonPath.ProxyEntry) {
    && i < |s.runners| && s.runners[i].pc.Adding? && s.runners[i].cycle == c
    && BatchAdd.OfferedName("dynamic", e) in BatchAdd.ViewNames(s.pool)
  }

  /** A suffixed name of e is taken as well. */
  ghost predicate SecondTaken(s: State, i: nat, c: nat, e: JsonPath.ProxyEntry) {
    && i < |s.runners| && s.runners[i].pc.Adding? && s.runners[i].cycle == c
    && exists clock: nat :: BatchAdd.SuffixedName("dynamic", e, clock) in BatchAdd.ViewNames(s.pool)
  }

  ghost predicate PutInBy(run: seq<State>, m: nat, i: nat, c: nat, e: JsonPath.ProxyEntry) {
    m + 1 < |run| && Enters(run[m], run[m + 1], i, c) && PutsIn(run[m], run[m + 1], e)
  }

  /** By state k, cycle c of runner i has put e into the pool, or has found both its names taken. */
  ghost predicate DealtWith(run: seq<State>, k: nat, i: nat, c: nat, e: JsonPath.ProxyEntry)
    requires k < |run|
  {
    || (exists m: nat :: m < k && PutInBy(run, m, i, c, e))
    || (exists m: nat, n: nat :: m <= n < k && FirstTaken(run[m], i, c, e) && SecondTaken(run[n], i, c, e))
  }

  lemma DealtStays(run: seq<State>, k: nat, l: nat, i: nat, c: nat, e: JsonPath.ProxyEntry)
    requires k <= l < |run| && DealtWith(run, k, i, c, e)
    ensures DealtWith(run, l, i, c, e)
  {
    hide FirstTaken, SecondTaken, PutInBy;
  }

  ghost predicate AllDealtWith(
    run: seq<State>, k: nat, i: nat, c: nat, batch: seq<JsonPath.ProxyEntry>, n: nat)
    requires k < |run| && n <= |batch|
  {
    forall m | 0 <= m < n :: DealtWith(run, k, i, c, batch[m])
  }

  lemma AllDealtStay(
    run: seq<State>, k: nat, l: nat, i: nat, c: nat, batch: seq<JsonPath.ProxyEntry>, n: nat)
    requires k <= l < |run| && n <= |batch| && AllDealtWith(run, k, i, c, batch, n)
    ensures AllDealtWith(run, l, i, c, batch, n)
  {
    hide DealtWith;
    forall m | 0 <= m < n
      ensures DealtWith(run, l, i, c, batch[m])
    {
      DealtStays(run, k, l, i, c, batch[m]);
    }
  }

  /** The first offer of the current proxy has been refused. */
  ghost predicate Retried(run: seq<State>, k: nat, i: nat, c: nat, e: JsonPath.ProxyEntry)
    requires k < |run|
  {
    exists m: nat :: m < k && FirstTaken(run[m], i, c, e)
  }

  /** How an adding loop stands in state k: it has dealt with all it has tried. */
  ghost predicate AddingStands(run: seq<State>, k: nat, i: nat)
    requires k < |run| && i < |run[k].runners| && run[k].runners[i].pc.Adding?
  {
    var r := run[k].runners[i];
    && r.pc.tried <= |r.pc.batch|
    && AllDealtWith(run, k, i, r.cycle, r.pc.batch, r.pc.tried)
    && (r.pc.retrying ==> Offers(r) && Retried(run, k, i, r.cycle, r.pc.batch[r.pc.tried]))
  }

  /** One offer, as it bears on the proxy offered. */
  lemma OfferDeals(run: seq<State>, k: nat, i: nat)
    requires 0 < k < |run| && i < |run[k - 1].runners| && i < |run[k].runners|
    requires OffersOne(run[k - 1], run[k], run[k - 1].runners[i], run[k].runners[i])
    requires var r := run[k - 1].runners[i];
             r.pc.retrying ==> Retried(run, k - 1, i, r.cycle, r.pc.batch[r.pc.tried])
    ensures var r, q := run[k - 1].runners[i], run[k].runners[i];
            var e := r.pc.batch[r.pc.tried];
            && q.pc.Adding? && q.cycle == r.cycle && q.pc.batch == r.pc.batch
            && if q.pc.tried == r.pc.tried then q.pc.retrying && Retried(run, k, i, r.cycle, e)
               else q.pc.tried == r.pc.tried + 1 && !q.pc.retrying && DealtWith(run, k, i, r.cycle, e)
  {
    var s, t := run[k - 1], run[k];
    var r, q := s.runners[i], t.runners[i];
    var e := r.pc.batch[r.pc.tried];
    var clock: nat :| (q, t.pool) == Offer(r, s.pool, clock);
    var name := NextName(r, clock);
    if name !in BatchAdd.ViewNames(s.pool) {
      assert forall v | v in s.pool :: v.name in BatchAdd.ViewNames(s.pool);
      assert t.pool[..|s.pool|] == s.pool;
      assert PutInBy(run, k - 1, i, r.cycle, e);
    } else if r.pc.retrying {
      var m: nat :| m < k - 1 && FirstTaken(run[m], i, r.cycle, e);
      assert SecondTaken(run[k - 1], i, r.cycle, e);
    } else {
      assert FirstTaken(run[k - 1], i, r.cycle, e);
    }
  }

  lemma AddingRests(run: seq<State>, k: nat, i: nat)
    requires 0 < k < |run| && i < |run[k - 1].runners| && i < |run[k].runners|
    requires run[k - 1].runners[i].pc.Adding? && AddingStands(run, k - 1, i)
    requires Rests(run[k - 1].runners[i], run[k].runners[i])
    ensures AddingStands(run, k, i)
  {
    var r := run[k - 1].runners[i];
    hide DealtWith, FirstTaken;
    AllDealtStay(run, k - 1, k, i, r.cycle, r.pc.batch, r.pc.tried);
    if r.pc.retrying {
      var m: nat :| m < k - 1 && FirstTaken(run[m], i, r.cycle, r.pc.batch[r.pc.tried]);
    }
  }

  lemma AddingOffers(run: seq<State>, k: nat, i: nat)
    requires 0 < k < |run| && i < |run[k - 1].runners| && i < |run[k].runners|
    requires run[k - 1].runners[i].pc.Adding? && AddingStands(run, k - 1, i)
    requires OffersOne(run[k - 1], run[k], run[k - 1].runners[i], run[k].runners[i])
    ensures run[k].runners[i].pc.Adding? && AddingStands(run, k, i)
  {
    var r := run[k - 1].runners[i];
    OfferDeals(run, k, i);
    hide DealtWith, Retried, OffersOne;
    AllDealtStay(run, k - 1, k, i, r.cycle, r.pc.batch, r.pc.tried);
  }

  lemma AddingBegins(run: seq<State>, k: nat, i: nat)
    requires 0 < k < |run| && i < |run[k - 1].runners| && i < |run[k].runners|
    requires run[k].runners[i].pc.Adding? && Moves(run[k - 1].runners[i], run[k].runners[i])
    ensures AddingStands(run, k, i)
  {
    hide DealtWith, Retried, CrawlOutcome, BatchOutcome;
  }

  lemma AddingStep(run: seq<State>, k: nat, i: nat)
    requires IsRun(run) && 0 < k < |run| && i < |run[k - 1].runners| && i < |run[k].runners|
    requires run[k - 1].runners[i].pc.Adding? ==> AddingStands(run, k - 1, i)
    requires run[k].runners[i].pc.Adding?
    ensures AddingStands(run, k, i)
  {
    hide AddingStands, Moves, OffersOne, IsRun;
    RunnerStep(run, k, i);
    var s, t := run[k - 1], run[k];
    var r, q := s.runners[i], t.runners[i];
    if Rests(r, q) {
      AddingRests(run, k, i);
    } else if OffersOne(s, t, r, q) {
      OfferCameFrom(s, t, r, q);
      AddingOffers(run, k, i);
    } else {
      AddingBegins(run, k, i);
    }
  }

  lemma {:induction false} AddingHasDealt(run: seq<State>, k: nat, i: nat)
    requires IsRun(run) && k < |run| && i < |run[k].runners| && run[k].runners[i].pc.Adding?
    ensures AddingStands(run, k, i)
  {
    hide AddingStands, IsRun, CameFrom;
    StepCameFrom(run, k, i);
    if run[k - 1].runners[i].pc.Adding? {
      AddingHasDealt(run, k - 1, i);
    }
    AddingStep(run, k, i);
  }

  /** After the decision of runner i in state j: still at its batch, or done with it. */
  ghost predicate AtItsBatch(run: seq<State>, k: nat, i: nat, c: nat, batch: seq<JsonPath.ProxyEntry>)
    requires k < |run|
  {
    && i < |run[k].runners|
    && (|| (run[k].runners[i].cycle == c && run[k].runners[i].pc.Adding? && run[k].runners[i].pc.batch == batch)
        || AllDealtWith(run, k, i, c, batch, |batch|))
  }

  /** The decision to add, in the step from j. */
  predicate Decides(run: seq<State>, j: nat, i: nat) {
    && j + 1 < |run| && i < |run[j].runners| && i < |run[j + 1].runners|
    && run[j].runners[i].pc.Deciding? && run[j].runners[i].flags.autoPool
    && !run[j + 1].runners[i].pc.Deciding?
  }

  lemma DecisionBegins(run: seq<State>, j: nat, i: nat)
    requires IsRun(run) && Decides(run, j, i)
    ensures AtItsBatch(run, j + 1, i, run[j].runners[i].cycle, run[j].runners[i].pc.batch)
  {
    RunnerStep(run, j + 1, i);
    hide DealtWith, CrawlOutcome, BatchOutcome;
  }

  /** What an adding loop can go on to. */
  lemma AddingGoesOn(s: State, t: State, r: Runner, q: Runner)
    requires r.pc.Adding? && (Rests(r, q) || Moves(r, q) || OffersOne(s, t, r, q))
    ensures (q.pc.Adding? && q.cycle == r.cycle && q.pc.batch == r.pc.batch) || r.pc.tried >= |r.pc.batch|
  {
    if OffersOne(s, t, r, q) {
      OfferCameFrom(s, t, r, q);
      hide OffersOne, Moves;
    }
  }

  lemma RunnersStay(run: seq<State>, k: nat)
    requires IsRun(run) && 0 < k < |run|
    ensures |run[k - 1].runners| <= |run[k].runners|
  {
    assert Next(run[k - 1], run[k]);
    hide Moves, OfferStep, ApplyOp;
  }

  lemma BatchStepWorked(run: seq<State>, k: nat, i: nat, c: nat, batch: seq<JsonPath.ProxyEntry>)
    requires IsRun(run) && 0 < k < |run| && AtItsBatch(run, k - 1, i, c, batch)
    ensures AtItsBatch(run, k, i, c, batch)
  {
    RunnersStay(run, k);
    hide IsRun, Moves, OffersOne, AllDealtWith, Rests;
    RunnerStep(run, k, i);
    if AllDealtWith(run, k - 1, i, c, batch, |batch|) {
      AllDealtStay(run, k - 1, k, i, c, batch, |batch|);
    } else {
      AddingHasDealt(run, k - 1, i);
      AddingGoesOn(run[k - 1], run[k], run[k - 1].runners[i], run[k].runners[i]);
    }
  }

  lemma {:induction false} BatchIsWorkedOff(run: seq<State>, j: nat, k: nat, i: nat)
    requires IsRun(run) && j < k < |run| && Decides(run, j, i)
    ensures AtItsBatch(run, k, i, run[j].runners[i].cycle, run[j].runners[i].pc.batch)
  {
    hide IsRun, DealtWith, CrawlOutcome, BatchOutcome;
    if k == j + 1 {
      DecisionBegins(run, j, i);
    } else {
      BatchIsWorkedOff(run, j, k - 1, i);
      BatchStepWorked(run, k, i, run[j].runners[i].cycle, run[j].runners[i].pc.batch);
    }
  }

  /**
   * Once a cycle that decided with AutoPool on has published its report, every proxy of its batch has entered the
   * pool by it or was offered under both names while these were taken.
   */
  lemma AutoPoolOffersAll(run: seq<State>, j: nat, k: nat, i: nat, e: JsonPath.ProxyEntry)
    requires IsRun(run) && j < k < |run| && Decides(run, j, i) && e in run[j].runners[i].pc.batch
    requires i < |run[k].runners| && run[k].runners[i].lastRun.Some?
    requires run[k].runners[i].lastRun.value.cycle == run[j].runners[i].cycle
    ensures DealtWith(run, k, i, run[j].runners[i].cycle, e)
  {
    hide DealtWith, Decides;
    BatchIsWorkedOff(run, j, k, i);
    RunKeepsInvariant(run, k);
    assert RunnerSound(run, k, i);
  }

  // ----- Reports -----

  /** A pending report was made up in this cycle, at this point. */
  lemma {:induction false} PendingReport(run: seq<State>, k: nat, i: nat) returns (j: nat)
    requires IsRun(run) && k < |run| && i < |run[k].runners| && run[k].runners[i].pc.Publishing?
    ensures j < k && i < |run[j].runners| && run[j].runners[i].cycle == run[k].runners[i].cycle
    ensures Reports(run[j].runners[i], run[k].runners[i].pc.report)
  {
    hide IsRun, BatchOutcome, CrawlOutcome, Reports;
    StepCameFrom(run, k, i);
    if run[k - 1].runners[i].pc.Publishing? && Same(run[k - 1].runners[i], run[k].runners[i]) {
      j := PendingReport(run, k - 1, i);
    } else {
      j := k - 1;
    }
  }

  lemma LastRunStep(s: State, t: State, r: Runner, q: Runner)
    requires Rests(r, q) || Moves(r, q) || OffersOne(s, t, r, q)
    ensures r.lastRun == q.lastRun || (q.lastRun.Some? && r.pc == Publishing(q.lastRun.value))
  {
    hide CrawlOutcome, BatchOutcome, ValidEntries, BatchAdd.OfferedName, BatchAdd.SuffixedName;
  }

  /** A published report was pending before. */
  lemma {:induction false} PublishedReport(run: seq<State>, k: nat, i: nat) returns (j: nat)
    requires IsRun(run) && k < |run| && i < |run[k].runners| && run[k].runners[i].lastRun.Some?
    ensures j < k && i < |run[j].runners| && run[j].runners[i].pc == Publishing(run[k].runners[i].lastRun.value)
  {
    assert k > 0;
    RunnerStep(run, k, i);
    var s, t := run[k - 1], run[k];
    var r, q := s.runners[i], t.runners[i];
    LastRunStep(s, t, r, q);
    hide IsRun, Moves, OffersOne;
    if r.lastRun == q.lastRun {
      j := PublishedReport(run, k - 1, i);
    } else {
      j := k - 1;
    }
  }

  /** Runner i has these entries from the crawl of cycle c. */
  ghost predicate HasCrawled(s: State, i: nat, c: nat, entries: seq<JsonPath.ProxyEntry>) {
    && i < |s.runners| && s.runners[i].cycle == c
    && s.runners[i].pc.Crawled? && s.runners[i].pc.crawl.entries == entries && CrawlOutcome(s.runners[i].pc.crawl)
  }

  /** The results of runner i in cycle c, and the crawl they go back to. */
  lemma ResultsGoBack(run: seq<State>, k: nat, i: nat) returns (j: nat)
    requires IsRun(run) && k < |run| && i < |run[k].runners| && run[k].runners[i].pc.Validated?
    ensures j < k && i < |run[j].runners| && run[j].runners[i].pc.Crawled?
    ensures var entries := run[j].runners[i].pc.crawl.entries;
            && HasCrawled(run[j], i, run[k].runners[i].cycle, entries) && !run[j].runners[i].flags.cancelled
            && entries != [] && run[k].runners[i].pc.fetched == |entries|
            && exists probe :: Judged(entries, probe, run[k].runners[i].pc.results)
  {
    var m, probe := ResultsWereJudged(run, k, i);
    j := EntriesWereCrawled(run, m, i);
    RunKeepsInvariant(run, m);
    assert RunnerSound(run, m, i);
    hide IsRun, CrawlOutcome, Judged, Booked;
  }

  /** Runner i holds these results in cycle c. */
  predicate HoldsResults(s: State, i: nat, c: nat, results: seq<Validator.ValidateResult>) {
    && i < |s.runners| && s.runners[i].cycle == c
    && s.runners[i].pc.Validated? && s.runners[i].pc.results == results
  }

  predicate WasCancelled(s: State, i: nat, c: nat) {
    i < |s.runners| && s.runners[i].cycle == c && s.runners[i].flags.cancelled
  }

  /** What a report says about the crawl, the validation and the look at the context of its cycle. */
  predicate TrueReport(
    report: Report, look: State, i: nat, entries: seq<JsonPath.ProxyEntry>, results: seq<Validator.ValidateResult>)
  {
    && report.fetched == |entries|
    && report.error in {"", "cancelled", "no proxies fetched"}
    && (report.error == "no proxies fetched" <==> entries == [] && report.error != "cancelled")
    && (report.error == "no proxies fetched" ==> report.valid == 0)
    && (report.error == "cancelled" ==> WasCancelled(look, i, report.cycle))
    && (report.error == "" || report.valid > 0 ==> report.valid == NumberValid(results))
  }

  /** A report about results that were held in state m. */
  lemma LateReport(run: seq<State>, m: nat, i: nat, report: Report) returns (j: nat)
    requires IsRun(run) && m < |run| && i < |run[m].runners| && run[m].runners[i].pc.Validated?
    requires var r := run[m].runners[i];
             && report.cycle == r.cycle && report.fetched == r.pc.fetched
             && report.valid == NumberValid(r.pc.results)
             && (report.error == "" || (report.error == "cancelled" && r.flags.cancelled))
    ensures j < |run| && i < |run[j].runners| && run[j].runners[i].pc.Crawled?
    ensures var entries := run[j].runners[i].pc.crawl.entries;
            && HasCrawled(run[j], i, report.cycle, entries)
            && TrueReport(report, run[m], i, entries, run[m].runners[i].pc.results)
  {
    hide IsRun, HasCrawled, NumberValid;
    j := ResultsGoBack(run, m, i);
  }

  /** A report about a batch. */
  lemma BatchReport(run: seq<State>, m: nat, i: nat, report: Report)
    returns (j: nat, look: nat, entries: seq<JsonPath.ProxyEntry>, results: seq<Validator.ValidateResult>)
    requires IsRun(run) && m < |run| && i < |run[m].runners| && PastCheck(run[m].runners[i].pc)
    requires Reports(run[m].runners[i], report)
    ensures j < |run| && look < |run| && HasCrawled(run[j], i, report.cycle, entries)
    ensures HoldsResults(run[look], i, report.cycle, results) && TrueReport(report, run[look], i, entries, results)
  {
    hide IsRun, HasCrawled, NumberValid, TrueReport;
    look, results := BatchWasValidated(run, m, i);
    j := LateReport(run, look, i, report);
    entries := run[j].runners[i].pc.crawl.entries;
  }

  lemma EarlyReport(run: seq<State>, m: nat, i: nat, report: Report)
    requires IsRun(run) && m < |run| && i < |run[m].runners| && run[m].runners[i].pc.Crawled?
    requires Reports(run[m].runners[i], report) && PcSound(run[m].runners[i])
    ensures HasCrawled(run[m], i, report.cycle, run[m].runners[i].pc.crawl.entries)
    ensures TrueReport(report, run[m], i, run[m].runners[i].pc.crawl.entries, [])
    ensures report.error != "" && report.valid == 0
  {
    CrawledIsOutcome(run, m, i);
    hide IsRun, CrawlOutcome;
  }

  /** Every pending report tells what happened in its cycle. */
  lemma PendingIsTrue(run: seq<State>, k: nat, i: nat)
    returns (j: nat, look: nat, entries: seq<JsonPath.ProxyEntry>, results: seq<Validator.ValidateResult>)
    requires IsRun(run) && k < |run| && i < |run[k].runners| && run[k].runners[i].pc.Publishing?
    ensures var report := run[k].runners[i].pc.report;
            && j < |run| && look < |run| && HasCrawled(run[j], i, report.cycle, entries)
            && (report.error == "" || report.valid > 0 ==> HoldsResults(run[look], i, report.cycle, results))
            && TrueReport(report, run[look], i, entries, results)
  {
    var m := PendingReport(run, k, i);
    var r, report := run[m].runners[i], run[k].runners[i].pc.report;
    RunKeepsInvariant(run, m);
    assert RunnerSound(run, m, i);
    hide IsRun, Booked, CrawlOutcome, ValidOnes, NumberValid, HasCrawled, TrueReport;
    match r.pc
    case Crawled(crawl) =>
      j, look, entries, results := m, m, crawl.entries, [];
      EarlyReport(run, m, i, report);
    case Validated(_, rs) =>
      ValidEntriesMeaning(rs);
      j := LateReport(run, m, i, report);
      look, entries, results := m, run[j].runners[i].pc.crawl.entries, rs;
    case Deciding(_, _) => j, look, entries, results := BatchReport(run, m, i, report);
    case Adding(_, _, _, _, _) => j, look, entries, results := BatchReport(run, m, i, report);
  }

  /**
   * Every published report tells what happened in its cycle: how much the crawl fetched, how many of the
   * results were valid, and why it ended early if it did.
   */
  lemma ReportIsTrue(run: seq<State>, k: nat, i: nat)
    returns (j: nat, look: nat, entries: seq<JsonPath.ProxyEntry>, results: seq<Validator.ValidateResult>)
    requires IsRun(run) && k < |run| && i < |run[k].runners| && run[k].runners[i].lastRun.Some?
    ensures var report := run[k].runners[i].lastRun.value;
            && j < |run| && look < |run| && HasCrawled(run[j], i, report.cycle, entries)
            && (report.error == "" || report.valid > 0 ==> HoldsResults(run[look], i, report.cycle, results))
            && TrueReport(report, run[look], i, entries, results)
  {
    hide IsRun, HasCrawled, HoldsResults, TrueReport;
    var m := PublishedReport(run, k, i);
    j, look, entries, results := PendingIsTrue(run, m, i);
  }
}
