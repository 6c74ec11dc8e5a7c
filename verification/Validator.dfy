/**
 * Concurrent validation (internal/freeproxy/validator.go): one goroutine per entry, a semaphore of
 * concurrency slots, shared counters and a shared result list, as interleaved steps. ValidateBatch is
 * the same without the two counters.
 */
module Validator {
  import opened Counting
  import opened JsonPath
  import opened Sequences

  /** What is validated, how many at once, and what the probe of each entry will say. */
  datatype Batch = Batch(entries: seq<ProxyEntry>, concurrency: int, probe: nat -> bool)

  datatype ValidateResult = ValidateResult(entry: ProxyEntry, valid: bool)

  /** Where the goroutine of one entry is. */
  datatype Pc =
    | NotStarted
    | Ready                  // about to take a slot of the semaphore
    | Probing                // inside testProxyMulti
    | Verdict(ok: bool)      // about to count a valid entry
    | Tallied(ok: bool)      // about to append its result
    | Appended(ok: bool)     // about to count itself done
    | CountedDone(ok: bool)  // about to give the slot back
    | Released(ok: bool)     // about to call wg.Done
    | Finished(ok: bool)

  datatype Worker = Worker(entry: ProxyEntry, pc: Pc)

  datatype Main = Spawning | Waiting | Returned

  datatype State = State(
    workers: seq<Worker>, spawned: nat, main: Main,
    sem: nat, valid: nat, done: nat, results: seq<ValidateResult>)

  /** concurrency as ValidateAsync and ValidateBatch use it. */
  function Slots(concurrency: int): (n: nat)
    ensures n >= 1
  {
    if concurrency <= 0 then 20 else concurrency
  }

  function Init(entries: seq<ProxyEntry>): State {
    State(seq(|entries|, i requires 0 <= i < |entries| => Worker(entries[i], NotStarted)), 0, Spawning, 0, 0, 0, [])
  }

  // ----- Steps -----

  /** The loop over the entries starts the next goroutine, or is done. */
  predicate Spawns(s: State, t: State) {
    && s.main.Spawning?
    && t == if s.spawned < |s.workers|
            then s.(workers := s.workers[s.spawned := s.workers[s.spawned].(pc := Ready)], spawned := s.spawned + 1)
            else s.(main := Waiting)
  }

  predicate CanAct(pc: Pc) {
    !pc.NotStarted? && !pc.Finished?
  }

  function Advance(pc: Pc, ok: bool): Pc
    requires CanAct(pc)
  {
    match pc
    case Ready => Probing
    case Probing => Verdict(ok)
    case Verdict(v) => Tallied(v)
    case Tallied(v) => Appended(v)
    case Appended(v) => CountedDone(v)
    case CountedDone(v) => Released(v)
    case Released(v) => Finished(v)
  }

  /** What goroutine i does next; ok is the outcome of its probe. */
  function Act(s: State, i: nat, ok: bool): State
    requires i < |s.workers| && CanAct(s.workers[i].pc)
  {
    var w := s.workers[i];
    var next := Advance(w.pc, ok);
    var t := s.(workers := s.workers[i := w.(pc := next)]);
    match w.pc
    case Ready => t.(sem := s.sem + 1)
    case Verdict(v) => if v then t.(valid := s.valid + 1) else t
    case Tallied(v) => t.(results := s.results + [ValidateResult(w.entry, v)])
    case Appended(_) => t.(done := s.done + 1)
    case CountedDone(_) => t.(sem := if s.sem > 0 then s.sem - 1 else 0)
    case _ => t
  }

  /** Goroutine i takes a step; taking a slot needs a free one. */
  ghost predicate Works(b: Batch, s: State, t: State, i: nat) {
    && i < |s.workers| && CanAct(s.workers[i].pc)
    && (s.workers[i].pc.Ready? ==> s.sem < Slots(b.concurrency))
    && t == Act(s, i, b.probe(i))
  }

  predicate AllFinished(s: State) {
    forall w | w in s.workers :: w.pc.Finished?
  }

  /** wg.Wait returns. */
  predicate Returns(s: State, t: State) {
    s.main.Waiting? && AllFinished(s) && t == s.(main := Returned)
  }

  ghost predicate Next(b: Batch, s: State, t: State) {
    Spawns(s, t) || Returns(s, t) || exists i: nat :: Works(b, s, t, i)
  }

  // ----- The invariant -----

  predicate Holding(w: Worker) {
    w.pc.Probing? || w.pc.Verdict? || w.pc.Tallied? || w.pc.Appended? || w.pc.CountedDone?
  }

  predicate InProbe(w: Worker) {
    w.pc.Probing?
  }

  /** Past the tally, with a valid verdict. */
  predicate TalliedValid(w: Worker) {
    (w.pc.Tallied? || w.pc.Appended? || w.pc.CountedDone? || w.pc.Released? || w.pc.Finished?) && w.pc.ok
  }

  predicate HasResult(w: Worker) {
    w.pc.Appended? || w.pc.CountedDone? || w.pc.Released? || w.pc.Finished?
  }

  predicate HasValidResult(w: Worker) {
    HasResult(w) && w.pc.ok
  }

  predicate IsDone(w: Worker) {
    w.pc.CountedDone? || w.pc.Released? || w.pc.Finished?
  }

  predicate IsValid(r: ValidateResult) {
    r.valid
  }

  /** Its probe has returned. */
  predicate Decided(pc: Pc) {
    !pc.NotStarted? && !pc.Ready? && !pc.Probing?
  }

  function ResultOf(w: Worker): ValidateResult {
    ValidateResult(w.entry, Decided(w.pc) && w.pc.ok)
  }

  function EntryOf(w: Worker): ProxyEntry {
    w.entry
  }

  function EntriesOf(results: seq<ValidateResult>): (es: seq<ProxyEntry>)
    ensures |es| == |results|
  {
    Map((r: ValidateResult) => r.entry, results)
  }

  ghost predicate Shape(b: Batch, s: State) {
    && |s.workers| == |b.entries| && s.spawned <= |b.entries|
    && (forall i | 0 <= i < |b.entries| :: s.workers[i].entry == b.entries[i])
    && (forall i | 0 <= i < |b.entries| :: s.workers[i].pc.NotStarted? <==> s.spawned <= i)
    && (!s.main.Spawning? ==> s.spawned == |b.entries|)
    && (s.main.Returned? ==> AllFinished(s))
  }

  /** Every shared counter is determined by where the goroutines are. */
  ghost predicate Counters(b: Batch, s: State) {
    && s.sem == Count(Holding, s.workers) && s.sem <= Slots(b.concurrency)
    && s.valid == Count(TalliedValid, s.workers)
    && s.done == Count(IsDone, s.workers)
  }

  /** And so is the result list, up to its order. */
  ghost predicate ResultList(s: State) {
    && |s.results| == Count(HasResult, s.workers)
    && Count(IsValid, s.results) == Count(HasValidResult, s.workers)
    && multiset(EntriesOf(s.results)) == Collect(HasResult, EntryOf, s.workers)
  }

  /** The verdict of every goroutine that has one is that of its probe. */
  ghost predicate Verdicts(b: Batch, s: State) {
    forall i: nat | i < |s.workers| && Decided(s.workers[i].pc) :: s.workers[i].pc.ok == b.probe(i)
  }

  /** The result list holds what the goroutines that have appended had to say. */
  ghost predicate Outcomes(s: State) {
    multiset(s.results) == Collect(HasResult, ResultOf, s.workers)
  }

  ghost predicate Tallies(b: Batch, s: State) {
    Counters(b, s) && ResultList(s)
  }

  ghost predicate Invariant(b: Batch, s: State) {
    Shape(b, s) && Tallies(b, s) && Verdicts(b, s) && Outcomes(s)
  }

  /** How the counts move when worker i moves. */
  lemma CountsMove(s: State, i: nat, w: Worker)
    requires i < |s.workers|
    ensures var ws := s.workers[i := w];
            var v := s.workers[i];
            && Count(Holding, ws) + (if Holding(v) then 1 else 0)
               == Count(Holding, s.workers) + (if Holding(w) then 1 else 0)
            && Count(TalliedValid, ws) + (if TalliedValid(v) then 1 else 0)
               == Count(TalliedValid, s.workers) + (if TalliedValid(w) then 1 else 0)
            && Count(IsDone, ws) + (if IsDone(v) then 1 else 0)
               == Count(IsDone, s.workers) + (if IsDone(w) then 1 else 0)
            && Count(HasResult, ws) + (if HasResult(v) then 1 else 0)
               == Count(HasResult, s.workers) + (if HasResult(w) then 1 else 0)
            && Count(HasValidResult, ws) + (if HasValidResult(v) then 1 else 0)
               == Count(HasValidResult, s.workers) + (if HasValidResult(w) then 1 else 0)
  {
    hide Holding, TalliedValid, IsDone, HasResult, HasValidResult;
    CountUpdate(Holding, s.workers, i, w);
    CountUpdate(TalliedValid, s.workers, i, w);
    CountUpdate(IsDone, s.workers, i, w);
    CountUpdate(HasResult, s.workers, i, w);
    CountUpdate(HasValidResult, s.workers, i, w);
  }

  lemma CollectMoves(s: State, i: nat, w: Worker)
    requires i < |s.workers| && w.entry == s.workers[i].entry
    requires HasResult(s.workers[i]) ==> HasResult(w)
    ensures Collect(HasResult, EntryOf, s.workers[i := w]) == Collect(HasResult, EntryOf, s.workers)
              + (if HasResult(w) && !HasResult(s.workers[i]) then multiset{w.entry} else multiset{})
  {
    CollectUpdate(HasResult, EntryOf, s.workers, i, w);
    if HasResult(s.workers[i]) {
      Cancel(Collect(HasResult, EntryOf, s.workers[i := w]), Collect(HasResult, EntryOf, s.workers),
             Contribution(HasResult, EntryOf, w));
    }
  }

  lemma OutcomesMove(s: State, i: nat, w: Worker)
    requires i < |s.workers|
    requires HasResult(s.workers[i]) ==> HasResult(w) && ResultOf(w) == ResultOf(s.workers[i])
    ensures Collect(HasResult, ResultOf, s.workers[i := w]) == Collect(HasResult, ResultOf, s.workers)
              + (if HasResult(w) && !HasResult(s.workers[i]) then multiset{ResultOf(w)} else multiset{})
  {
    CollectUpdate(HasResult, ResultOf, s.workers, i, w);
    if HasResult(s.workers[i]) {
      Cancel(Collect(HasResult, ResultOf, s.workers[i := w]), Collect(HasResult, ResultOf, s.workers),
             Contribution(HasResult, ResultOf, w));
    }
  }

  lemma ResultAppended(results: seq<ValidateResult>, r: ValidateResult)
    ensures Count(IsValid, results + [r]) == Count(IsValid, results) + (if r.valid then 1 else 0)
    ensures multiset(EntriesOf(results + [r])) == multiset(EntriesOf(results)) + multiset{r.entry}
  {
    assert (results + [r])[..|results|] == results;
    assert EntriesOf(results + [r]) == EntriesOf(results) + [r.entry];
  }

  /** What one step of goroutine i changes, variable by variable. */
  lemma ActEffects(s: State, i: nat, ok: bool)
    requires i < |s.workers| && CanAct(s.workers[i].pc)
    ensures var t, pc := Act(s, i, ok), s.workers[i].pc;
            && t.workers == s.workers[i := s.workers[i].(pc := Advance(pc, ok))]
            && t.spawned == s.spawned && t.main == s.main
            && t.sem == (if pc.Ready? then s.sem + 1 else if pc.CountedDone? && s.sem > 0 then s.sem - 1 else s.sem)
            && t.valid == (if pc.Verdict? && pc.ok then s.valid + 1 else s.valid)
            && t.done == (if pc.Appended? then s.done + 1 else s.done)
            && t.results == (if pc.Tallied? then s.results + [ValidateResult(s.workers[i].entry, pc.ok)] else s.results)
  {
  }

  lemma WorkKeepsCounters(b: Batch, s: State, t: State, i: nat)
    requires Counters(b, s) && Works(b, s, t, i)
    ensures Counters(b, t)
  {
    ActEffects(s, i, b.probe(i));
    hide Act;
    CountsMove(s, i, t.workers[i]);
    CountAtLeast(Holding, s.workers, i);
    hide Count;
  }

  lemma WorkKeepsResults(b: Batch, s: State, t: State, i: nat)
    requires ResultList(s) && Works(b, s, t, i)
    ensures ResultList(t)
  {
    hide Act, Count, Collect, EntriesOf, Holding, TalliedValid, IsDone;
    ActEffects(s, i, b.probe(i));
    var v, w := s.workers[i], t.workers[i];
    CountsMove(s, i, w);
    CollectMoves(s, i, w);
    if v.pc.Tallied? {
      ResultAppended(s.results, ValidateResult(v.entry, v.pc.ok));
      hide HasResult, HasValidResult;
    }
  }

  lemma WorkKeepsOutcomes(b: Batch, s: State, t: State, i: nat)
    requires Outcomes(s) && Works(b, s, t, i)
    ensures Outcomes(t)
  {
    hide Act, Collect;
    ActEffects(s, i, b.probe(i));
    OutcomesMove(s, i, t.workers[i]);
    hide HasResult;
  }

  lemma WorkKeepsVerdicts(b: Batch, s: State, t: State, i: nat)
    requires Verdicts(b, s) && Works(b, s, t, i)
    ensures Verdicts(b, t)
  {
    ActEffects(s, i, b.probe(i));
    hide Act;
  }

  lemma WorkKeepsShape(b: Batch, s: State, t: State, i: nat)
    requires Shape(b, s) && Works(b, s, t, i)
    ensures Shape(b, t)
  {
  }

  lemma SpawnKeepsTallies(b: Batch, s: State, t: State)
    requires Tallies(b, s) && Spawns(s, t)
    requires s.spawned < |s.workers| ==> s.workers[s.spawned].pc.NotStarted?
    ensures Tallies(b, t)
  {
    if s.spawned < |s.workers| {
      CountsMove(s, s.spawned, t.workers[s.spawned]);
      CollectMoves(s, s.spawned, t.workers[s.spawned]);
    }
  }

  lemma SpawnKeepsOutcomes(b: Batch, s: State, t: State)
    requires Outcomes(s) && Spawns(s, t)
    requires s.spawned < |s.workers| ==> s.workers[s.spawned].pc.NotStarted?
    ensures Outcomes(t)
  {
    if s.spawned < |s.workers| {
      OutcomesMove(s, s.spawned, t.workers[s.spawned]);
    }
    hide Collect;
  }

  lemma SpawnKeepsShape(b: Batch, s: State, t: State)
    requires Shape(b, s) && Verdicts(b, s) && Spawns(s, t)
    ensures Shape(b, t) && Verdicts(b, t)
  {
  }

  lemma SpawnKeepsInvariant(b: Batch, s: State, t: State)
    requires Invariant(b, s) && Spawns(s, t)
    ensures Invariant(b, t)
  {
    assert s.spawned < |s.workers| ==> s.workers[s.spawned].pc.NotStarted?;
    hide Spawns, Shape, Tallies, Outcomes, Verdicts;
    SpawnKeepsTallies(b, s, t);
    SpawnKeepsOutcomes(b, s, t);
    SpawnKeepsShape(b, s, t);
  }

  lemma ReturnKeepsInvariant(b: Batch, s: State, t: State)
    requires Invariant(b, s) && Returns(s, t)
    ensures Invariant(b, t)
  {
    hide Count, Collect;
  }

  lemma WorkKeepsInvariant(b: Batch, s: State, t: State, i: nat)
    requires Invariant(b, s) && Works(b, s, t, i)
    ensures Invariant(b, t)
  {
    hide Works, Counters, ResultList, Shape, Outcomes, Verdicts;
    WorkKeepsCounters(b, s, t, i);
    WorkKeepsResults(b, s, t, i);
    WorkKeepsShape(b, s, t, i);
    WorkKeepsOutcomes(b, s, t, i);
    WorkKeepsVerdicts(b, s, t, i);
  }

  lemma StepKeepsInvariant(b: Batch, s: State, t: State)
    requires Invariant(b, s) && Next(b, s, t)
    ensures Invariant(b, t)
  {
    hide Invariant, Spawns, Returns, Works;
    if Spawns(s, t) {
      SpawnKeepsInvariant(b, s, t);
    } else if Returns(s, t) {
      ReturnKeepsInvariant(b, s, t);
    } else {
      var i: nat :| Works(b, s, t, i);
      WorkKeepsInvariant(b, s, t, i);
    }
  }

  lemma InitTallies(b: Batch)
    ensures Tallies(b, Init(b.entries)) && Outcomes(Init(b.entries))
  {
    var ws := Init(b.entries).workers;
    assert forall w | w in ws :: w.pc.NotStarted?;
    hide Count, Collect;
    CountBound(Holding, ws);
    CountBound(TalliedValid, ws);
    CountBound(IsDone, ws);
    CountBound(HasResult, ws);
    CountBound(HasValidResult, ws);
    CountBound(IsValid, []);
    CollectNone(HasResult, EntryOf, ws);
    CollectNone(HasResult, ResultOf, ws);
    assert EntriesOf([]) == [];
  }

  lemma InitInvariant(b: Batch)
    ensures Invariant(b, Init(b.entries))
  {
    InitTallies(b);
    hide Tallies, Outcomes;
  }

  // ----- Runs -----

  ghost predicate IsRun(b: Batch, run: seq<State>) {
    run != [] && run[0] == Init(b.entries) && forall i | 0 < i < |run| :: Next(b, run[i - 1], run[i])
  }

  lemma {:induction false} RunKeepsInvariant(b: Batch, run: seq<State>, i: nat)
    requires IsRun(b, run) && i < |run|
    ensures Invariant(b, run[i])
  {
    hide Next, Invariant;
    if i == 0 {
      InitInvariant(b);
    } else {
      RunKeepsInvariant(b, run, i - 1);
      StepKeepsInvariant(b, run[i - 1], run[i]);
    }
  }

  predicate JustAppended(w: Worker) {
    w.pc.Appended?
  }

  predicate JustTallied(w: Worker) {
    w.pc.Tallied? && w.pc.ok
  }

  /** The result of every entry, with the verdict of its probe. */
  function Judgements(entries: seq<ProxyEntry>, probe: nat -> bool): (results: seq<ValidateResult>)
    ensures |results| == |entries|
    ensures forall i | 0 <= i < |results| :: results[i] == ValidateResult(entries[i], probe(i))
  {
    seq(|entries|, i requires 0 <= i < |entries| => ValidateResult(entries[i], probe(i)))
  }

  /** How many of the first n probes succeed. */
  function Successes(probe: nat -> bool, n: nat): nat {
    if n == 0 then 0 else Successes(probe, n - 1) + (if probe(n - 1) then 1 else 0)
  }

  lemma InvariantIsHonest(b: Batch, s: State)
    requires Invariant(b, s)
    ensures var limit := Slots(b.concurrency);
            && Count(InProbe, s.workers) <= limit
            && s.done <= |s.results| <= |b.entries|
            && |s.results| - s.done <= limit
            && 0 <= s.valid - Count(IsValid, s.results) <= limit
            && multiset(s.results) <= multiset(Judgements(b.entries, b.probe))
  {
    var ws := s.workers;
    hide Count, Collect, EntriesOf;
    CountMonotone(InProbe, Holding, ws);
    CountMonotone(JustAppended, Holding, ws);
    CountMonotone(JustTallied, Holding, ws);
    CountSplit(IsDone, JustAppended, HasResult, ws);
    CountSplit(HasValidResult, JustTallied, TalliedValid, ws);
    CountBound(HasResult, ws);
    CollectWithin(HasResult, ResultOf, ws, Judgements(b.entries, b.probe));
  }

  /**
   * What the progress counters say in any state of any run: at most concurrency probes at once, and the
   * counters differ from the result list by at most the number of goroutines holding a slot. The results so far
   * are among those expected, so each carries the verdict of its own probe.
   */
  lemma ProgressIsHonest(b: Batch, run: seq<State>, i: nat)
    requires IsRun(b, run) && i < |run|
    ensures var s, limit := run[i], if b.concurrency > 0 then b.concurrency else 20;
            && Count(InProbe, s.workers) <= limit
            && s.done <= |s.results| <= |b.entries|
            && |s.results| - s.done <= limit
            && 0 <= s.valid - Count(IsValid, s.results) <= limit
            && multiset(s.results) <= multiset(Judgements(b.entries, b.probe))
  {
    RunKeepsInvariant(b, run, i);
    hide IsRun;
    InvariantIsHonest(b, run[i]);
  }

  /** A goroutine takes a slot exactly while fewer than concurrency, or 20 by default, are taken. */
  lemma EverySlotIsUsed(b: Batch, run: seq<State>, k: nat, i: nat)
    requires IsRun(b, run) && k < |run| && i < |run[k].workers| && run[k].workers[i].pc.Ready?
    ensures (exists t :: Works(b, run[k], t, i))
       <==> Count(Holding, run[k].workers) < if b.concurrency > 0 then b.concurrency else 20
  {
    RunKeepsInvariant(b, run, k);
    hide IsRun;
    assert Works(b, run[k], Act(run[k], i, b.probe(i)), i) <==> run[k].sem < Slots(b.concurrency);
  }

  lemma {:induction false} ValidAreSuccesses(b: Batch, ws: seq<Worker>)
    requires |ws| <= |b.entries|
    requires forall i: nat | i < |ws| :: ws[i].pc.Finished? && ws[i].pc.ok == b.probe(i)
    ensures Count(TalliedValid, ws) == Successes(b.probe, |ws|)
  {
    if ws != [] {
      ValidAreSuccesses(b, ws[..|ws| - 1]);
    }
  }

  lemma FinishedResults(b: Batch, s: State)
    requires Invariant(b, s) && s.main.Returned?
    ensures multiset(EntriesOf(s.results)) == multiset(b.entries)
    ensures multiset(s.results) == multiset(Judgements(b.entries, b.probe))
    ensures |s.results| == |b.entries|
  {
    hide Count, Collect, EntriesOf, Counters;
    var ws := s.workers;
    assert forall i: nat | i < |ws| :: ws[i] in ws && ws[i].pc.Finished?;
    CountBound(HasResult, ws);
    CollectAll(HasResult, EntryOf, ws, b.entries);
    CollectAll(HasResult, ResultOf, ws, Judgements(b.entries, b.probe));
  }

  lemma FinishedCounters(b: Batch, s: State)
    requires Invariant(b, s) && s.main.Returned?
    ensures s.done == |b.entries| && s.valid == Count(IsValid, s.results) && s.sem == 0
    ensures s.valid == Successes(b.probe, |b.entries|)
  {
    hide Count, Collect, EntriesOf, Successes, Outcomes;
    var ws := s.workers;
    assert forall i: nat | i < |ws| :: ws[i] in ws && ws[i].pc.Finished?;
    CountBound(Holding, ws);
    CountBound(IsDone, ws);
    CountSplit(HasValidResult, JustTallied, TalliedValid, ws);
    CountBound(JustTallied, ws);
    ValidAreSuccesses(b, ws);
  }

  /**
   * When wg.Wait has returned, the results are a permutation of the entries with the verdicts of their probes,
   * and the counters are exact: Valid is the number of probes that succeeded.
   */
  lemma ResultIsComplete(b: Batch, run: seq<State>, i: nat)
    requires IsRun(b, run) && i < |run| && run[i].main.Returned?
    ensures var s := run[i];
            && multiset(s.results) == multiset(Judgements(b.entries, b.probe))
            && multiset(EntriesOf(s.results)) == multiset(b.entries)
            && s.done == |s.results| == |b.entries|
            && s.valid == Count(IsValid, s.results) == Successes(b.probe, |b.entries|)
            && s.sem == 0
  {
    RunKeepsInvariant(b, run, i);
    hide IsRun, Invariant;
    FinishedResults(b, run[i]);
    FinishedCounters(b, run[i]);
  }

  function StepsLeft(w: Worker): nat {
    match w.pc
    case NotStarted => 8
    case Ready => 7
    case Probing => 6
    case Verdict(_) => 5
    case Tallied(_) => 4
    case Appended(_) => 3
    case CountedDone(_) => 2
    case Released(_) => 1
    case Finished(_) => 0
  }

  function Measure(s: State): nat {
    Sum(StepsLeft, s.workers) + (if s.main.Spawning? then 2 else if s.main.Waiting? then 1 else 0)
  }

  lemma WorkLowersMeasure(b: Batch, s: State, t: State, i: nat)
    requires Works(b, s, t, i)
    ensures Measure(t) < Measure(s)
  {
    ActEffects(s, i, b.probe(i));
    hide Act;
    SumUpdate(StepsLeft, s.workers, i, t.workers[i]);
  }

  lemma SpawnLowersMeasure(b: Batch, s: State, t: State)
    requires Shape(b, s) && Spawns(s, t)
    ensures Measure(t) < Measure(s)
  {
    if s.spawned < |s.workers| {
      SumUpdate(StepsLeft, s.workers, s.spawned, t.workers[s.spawned]);
    }
  }

  /** Each step lowers the measure. */
  lemma StepLowersMeasure(b: Batch, s: State, t: State)
    requires Shape(b, s) && Next(b, s, t)
    ensures Measure(t) < Measure(s)
  {
    hide Shape, Works;
    if Spawns(s, t) {
      SpawnLowersMeasure(b, s, t);
    } else if i: nat :| Works(b, s, t, i) {
      WorkLowersMeasure(b, s, t, i);
    }
  }

  lemma {:induction false} InitialSum(ws: seq<Worker>)
    requires forall w | w in ws :: w.pc.NotStarted?
    ensures Sum(StepsLeft, ws) == 8 * |ws|
  {
    if ws != [] {
      assert ws[|ws| - 1] in ws;
      InitialSum(ws[..|ws| - 1]);
    }
  }

  /** Every run ends: under no schedule are there more than 8n + 2 steps. */
  lemma {:induction false} RunIsBounded(b: Batch, run: seq<State>, i: nat)
    requires IsRun(b, run) && i < |run|
    ensures Measure(run[i]) + i <= 8 * |b.entries| + 2
  {
    if i == 0 {
      InitialSum(Init(b.entries).workers);
    } else {
      hide Next, Measure, Shape, Tallies;
      RunIsBounded(b, run, i - 1);
      RunKeepsInvariant(b, run, i - 1);
      StepLowersMeasure(b, run[i - 1], run[i]);
    }
  }

  lemma SomeoneCanWork(b: Batch, s: State) returns (i: nat)
    requires Tallies(b, s) && !AllFinished(s)
    requires forall w | w in s.workers :: !w.pc.NotStarted?
    ensures i < |s.workers| && CanAct(s.workers[i].pc) && (s.workers[i].pc.Ready? ==> s.sem < Slots(b.concurrency))
  {
    CountBound(Holding, s.workers);
    if j :| 0 <= j < |s.workers| && Holding(s.workers[j]) {
      i := j;
    } else {
      i :| 0 <= i < |s.workers| && !s.workers[i].pc.Finished?;
      assert s.workers[i] in s.workers;
      assert forall w | w in s.workers :: !Holding(w);
    }
  }

  /** And until wg.Wait has returned some step is possible: the semaphore never blocks everybody. */
  lemma NoDeadlock(b: Batch, s: State)
    requires Invariant(b, s) && !s.main.Returned?
    ensures exists t :: Next(b, s, t)
  {
    if s.main.Spawning? {
      var t := if s.spawned < |s.workers|
               then s.(workers := s.workers[s.spawned := s.workers[s.spawned].(pc := Ready)], spawned := s.spawned + 1)
               else s.(main := Waiting);
      assert Spawns(s, t) && Next(b, s, t);
    } else if AllFinished(s) {
      assert Returns(s, s.(main := Returned)) && Next(b, s, s.(main := Returned));
    } else {
      var i := SomeoneCanWork(b, s);
      assert Works(b, s, Act(s, i, b.probe(i)), i) && Next(b, s, Act(s, i, b.probe(i)));
    }
  }

  /** Some run ends. */
  lemma {:induction false} ExtendRun(b: Batch, run: seq<State>) returns (whole: seq<State>)
    requires IsRun(b, run)
    ensures IsRun(b, whole) && whole[|whole| - 1].main.Returned?
    decreases 8 * |b.entries| + 3 - |run|
  {
    var s := run[|run| - 1];
    if s.main.Returned? {
      whole := run;
    } else {
      RunKeepsInvariant(b, run, |run| - 1);
      NoDeadlock(b, s);
      var t :| Next(b, s, t);
      hide Next, Invariant, Measure;
      assert IsRun(b, run + [t]);
      RunIsBounded(b, run + [t], |run|);
      whole := ExtendRun(b, run + [t]);
    }
  }

  lemma SomeCompleteRun(b: Batch) returns (run: seq<State>)
    ensures IsRun(b, run) && run[|run| - 1].main.Returned?
  {
    run := ExtendRun(b, [Init(b.entries)]);
  }

  /** Snapshot: the valid results in order. */
  method Snapshot(results: seq<ValidateResult>) returns (out: seq<ValidateResult>)
    ensures out == Filter(IsValid, results) && |out| == Count(IsValid, results)
  {
    out := [];
    for i := 0 to |results|
      invariant out == Filter(IsValid, results[..i]) && |out| == Count(IsValid, results[..i])
    {
      assert results[..i + 1][..i] == results[..i];
      if results[i].valid {
        out := out + [results[i]];
      }
    }
    assert results[..|results|] == results;
  }
}
