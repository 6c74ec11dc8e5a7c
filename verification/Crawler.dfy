/**
 * The concurrent crawl (internal/freeproxy/crawler.go): one goroutine per enabled source merges its
 * entries, under a mutex, into one de-duplicated result.
 */
module Crawler {
  import opened Counting
  import opened JsonPath
  import opened Sequences

  /** What fetching and parsing a source comes to. */
  datatype Fetch = Failed(error: string) | Fetched(entries: seq<ProxyEntry>)

  datatype Source = Source(name: string, enabled: bool, fetch: Fetch)

  /** The key under which an entry is remembered as seen. */
  function Key(e: ProxyEntry): string {
    e.addr + "|" + e.kind
  }

  function Keys(es: seq<ProxyEntry>): (keys: seq<string>)
    ensures |keys| == |es| && forall i | 0 <= i < |es| :: keys[i] == Key(es[i])
  {
    Map(Key, es)
  }

  function Pair(e: ProxyEntry): (string, string) {
    (e.addr, e.kind)
  }

  /** The key tells address and type apart as long as the type has no bar. */
  lemma KeyInjective(d: ProxyEntry, e: ProxyEntry)
    requires '|' !in d.kind && '|' !in e.kind && Key(d) == Key(e)
    ensures Pair(d) == Pair(e)
  {
    var k := Key(d);
    assert forall i | |d.addr| < i < |k| :: k[i] == d.kind[i - |d.addr| - 1];
    assert forall i | |e.addr| < i < |k| :: k[i] == e.kind[i - |e.addr| - 1];
    assert k[|d.addr|] == '|' && k[|e.addr|] == '|';
    assert |d.addr| == |e.addr|;
    assert d.addr == k[..|d.addr|] && d.kind == k[|d.addr| + 1..];
    assert e.addr == k[..|e.addr|] && e.kind == k[|e.addr| + 1..];
  }

  /** The entries kept after offering es to those kept before. */
  function AddAll(kept: seq<ProxyEntry>, es: seq<ProxyEntry>): seq<ProxyEntry> {
    if es == [] then kept
    else
      var before := AddAll(kept, es[..|es| - 1]);
      if Key(es[|es| - 1]) in Keys(before) then before else before + [es[|es| - 1]]
  }

  lemma KeysSnoc(es: seq<ProxyEntry>, e: ProxyEntry)
    ensures Keys(es + [e]) == Keys(es) + [Key(e)]
    ensures Elements(Keys(es + [e])) == Elements(Keys(es)) + {Key(e)}
    ensures Key(e) in Keys(es) <==> Key(e) in Elements(Keys(es))
  {
  }

  /** Merging adds exactly the keys that were missing, each once, after what was there. */
  lemma {:induction false} AddAllMeaning(kept: seq<ProxyEntry>, es: seq<ProxyEntry>)
    requires NoDuplicates(Keys(kept))
    ensures NoDuplicates(Keys(AddAll(kept, es)))
    ensures Elements(Keys(AddAll(kept, es))) == Elements(Keys(kept)) + Elements(Keys(es))
    ensures kept <= AddAll(kept, es)
    ensures forall e | e in AddAll(kept, es) :: e in kept || e in es
  {
    if es != [] {
      var n := |es| - 1;
      var before := AddAll(kept, es[..n]);
      AddAllMeaning(kept, es[..n]);
      assert es == es[..n] + [es[n]];
      KeysSnoc(es[..n], es[n]);
      KeysSnoc(before, es[n]);
    } else {
      assert Elements(Keys(es)) == {};
    }
  }

  // ----- The result -----

  datatype Result = Result(entries: seq<ProxyEntry>, counts: map<string, nat>, total: nat, errors: seq<string>)

  function Extra(kept: seq<ProxyEntry>, es: seq<ProxyEntry>): nat {
    if |AddAll(kept, es)| >= |kept| then |AddAll(kept, es)| - |kept| else 0
  }

  /** One completed source, merged into the shared result. */
  function MergeSource(r: Result, s: Source): Result {
    match s.fetch
    case Failed(error) => r.(errors := r.errors + [error])
    case Fetched(es) =>
      var count := Extra(r.entries, es);
      Result(AddAll(r.entries, es), r.counts[s.name := count], r.total + count, r.errors)
  }

  // ----- The critical section -----

  class Collector {
    var seen: set<string>
    var entries: seq<ProxyEntry>
    var counts: map<string, nat>
    var total: nat
    var errors: seq<string>

    constructor ()
      ensures Valid() && entries == [] && counts == map[] && total == 0 && errors == []
    {
      seen, entries, counts, total, errors := {}, [], map[], 0, [];
      assert Keys([]) == [];
    }

    ghost predicate Valid()
      reads this
    {
      seen == Elements(Keys(entries)) && NoDuplicates(Keys(entries))
    }

    /** The result as a value. */
    function View(): Result
      reads this
    {
      Result(entries, counts, total, errors)
    }

    /** What a goroutine does while it holds the mutex after a successful fetch. */
    method Merge(name: string, es: seq<ProxyEntry>)
      requires Valid()
      modifies this
      ensures Valid() && View() == MergeSource(old(View()), Source(name, true, Fetched(es)))
    {
      var count := 0;
      ghost var kept := entries;
      for i := 0 to |es|
        invariant Valid() && entries == AddAll(kept, es[..i]) && |entries| == |kept| + count
        invariant counts == old(counts) && total == old(total) && errors == old(errors)
      {
        var e := es[i];
        assert es[..i + 1][..i] == es[..i];
        KeysSnoc(entries, e);
        if Key(e) !in seen {
          seen := seen + {Key(e)};
          entries := entries + [e];
          count := count + 1;
        }
      }
      assert es[..|es|] == es;
      counts := counts[name := count];
      total := total + count;
    }

    /** And after a failed one. */
    method Fail(name: string, error: string)
      requires Valid()
      modifies this`errors
      ensures Valid() && View() == MergeSource(old(View()), Source(name, true, Failed(error)))
    {
      errors := errors + [error];
    }
  }

  // ----- All interleavings -----

  /** finished[i] tells whether the goroutine of source i has merged. */
  datatype State = State(finished: seq<bool>, result: Result)

  function Init(sources: seq<Source>): State {
    State(seq(|sources|, i => false), Result([], map[], 0, []))
  }

  /** The goroutine of source i completes. */
  predicate Completes(sources: seq<Source>, s: State, t: State, i: nat) {
    && |s.finished| == |sources| && i < |sources| && sources[i].enabled && !s.finished[i]
    && t == State(s.finished[i := true], MergeSource(s.result, sources[i]))
  }

  ghost predicate Next(sources: seq<Source>, s: State, t: State) {
    exists i: nat :: Completes(sources, s, t, i)
  }

  ghost predicate IsRun(sources: seq<Source>, run: seq<State>) {
    run != [] && run[0] == Init(sources) && forall k | 0 < k < |run| :: Next(sources, run[k - 1], run[k])
  }

  /** wg.Wait returns when every enabled source has completed. */
  predicate Complete(sources: seq<Source>, s: State) {
    |s.finished| == |sources| && forall i | 0 <= i < |sources| && sources[i].enabled :: s.finished[i]
  }

  /** Source i has completed successfully. */
  predicate Merged(sources: seq<Source>, s: State, i: nat)
    requires |s.finished| == |sources|
  {
    i < |sources| && sources[i].enabled && s.finished[i] && sources[i].fetch.Fetched?
  }

  /** The keys of the first n sources that have been merged. */
  function MergedKeys(sources: seq<Source>, s: State, n: nat): set<string>
    requires |s.finished| == |sources| && n <= |sources|
  {
    if n == 0 then {}
    else MergedKeys(sources, s, n - 1) +
         (if Merged(sources, s, n - 1) then Elements(Keys(sources[n - 1].fetch.entries)) else {})
  }

  /** The error that an enabled source leaves. */
  function ErrorOf(s: Source): multiset<string> {
    if s.enabled && s.fetch.Failed? then multiset{s.fetch.error} else multiset{}
  }

  /** The errors of those of the first n sources that have failed. */
  function Failures(sources: seq<Source>, s: State, n: nat): multiset<string>
    requires |s.finished| == |sources| && n <= |sources|
  {
    if n == 0 then multiset{}
    else Failures(sources, s, n - 1) +
         (if s.finished[n - 1] then ErrorOf(sources[n - 1]) else multiset{})
  }

  /** Some merged source has this name. */
  ghost predicate MergedUnder(sources: seq<Source>, s: State, name: string)
    requires |s.finished| == |sources|
  {
    exists i: nat :: Merged(sources, s, i) && sources[i].name == name
  }

  ghost predicate Invariant(sources: seq<Source>, s: State) {
    var r := s.result;
    && |s.finished| == |sources|
    && NoDuplicates(Keys(r.entries))
    && Elements(Keys(r.entries)) == MergedKeys(sources, s, |sources|)
    && r.total == |r.entries|
    && multiset(r.errors) == Failures(sources, s, |sources|)
    && (forall e | e in r.entries :: exists i: nat :: Merged(sources, s, i) && e in sources[i].fetch.entries)
    && (forall name :: name in r.counts <==> MergedUnder(sources, s, name))
  }

  /** Completing source j adds its own contribution to every sum over the sources. */
  lemma {:induction false} MergedKeysMove(sources: seq<Source>, s: State, t: State, j: nat, n: nat)
    requires Completes(sources, s, t, j) && n <= |sources|
    ensures MergedKeys(sources, t, n) == MergedKeys(sources, s, n) +
              (if j < n && sources[j].fetch.Fetched? then Elements(Keys(sources[j].fetch.entries)) else {})
  {
    hide MergeSource, Keys, Elements;
    if n > 0 {
      MergedKeysMove(sources, s, t, j, n - 1);
    }
  }

  lemma {:induction false} FailuresMove(sources: seq<Source>, s: State, t: State, j: nat, n: nat)
    requires Completes(sources, s, t, j) && n <= |sources|
    ensures Failures(sources, t, n) == Failures(sources, s, n) + (if j < n then ErrorOf(sources[j]) else multiset{})
  {
    hide MergeSource, ErrorOf;
    if n > 0 {
      FailuresMove(sources, s, t, j, n - 1);
      if n - 1 == j {
        assert Failures(sources, t, n) == Failures(sources, t, j) + ErrorOf(sources[j]);
        assert Failures(sources, s, n) == Failures(sources, s, j);
      } else {
        SwapSum(Failures(sources, s, n - 1), if j < n - 1 then ErrorOf(sources[j]) else multiset{},
                if s.finished[n - 1] then ErrorOf(sources[n - 1]) else multiset{});
      }
    }
  }

  lemma MergeKeepsEntries(sources: seq<Source>, s: State, t: State, j: nat)
    requires Invariant(sources, s) && Completes(sources, s, t, j)
    ensures NoDuplicates(Keys(t.result.entries)) && t.result.total == |t.result.entries|
    ensures Elements(Keys(t.result.entries)) == MergedKeys(sources, t, |sources|)
    ensures multiset(t.result.errors) == Failures(sources, t, |sources|)
  {
    MergedKeysMove(sources, s, t, j, |sources|);
    FailuresMove(sources, s, t, j, |sources|);
    if sources[j].fetch.Fetched? {
      AddAllMeaning(s.result.entries, sources[j].fetch.entries);
    }
    hide AddAll, MergedKeys, Failures;
  }

  lemma StepKeepsInvariant(sources: seq<Source>, s: State, t: State, j: nat)
    requires Invariant(sources, s) && Completes(sources, s, t, j)
    ensures Invariant(sources, t) && |t.finished| == |sources|
  {
    MergeKeepsEntries(sources, s, t, j);
    assert forall i: nat | Merged(sources, s, i) :: Merged(sources, t, i);
    if sources[j].fetch.Fetched? {
      AddAllMeaning(s.result.entries, sources[j].fetch.entries);
      assert Merged(sources, t, j);
    }
    hide AddAll, MergedKeys, Failures;
  }

  lemma {:induction false} NothingMerged(sources: seq<Source>, n: nat)
    requires n <= |sources|
    ensures MergedKeys(sources, Init(sources), n) == {} && Failures(sources, Init(sources), n) == multiset{}
  {
    if n > 0 {
      NothingMerged(sources, n - 1);
    }
  }

  lemma InitInvariant(sources: seq<Source>)
    ensures Invariant(sources, Init(sources)) && |Init(sources).finished| == |sources|
  {
    NothingMerged(sources, |sources|);
    assert Keys([]) == [];
  }

  lemma {:induction false} RunKeepsInvariant(sources: seq<Source>, run: seq<State>, i: nat)
    requires IsRun(sources, run) && i < |run|
    ensures Invariant(sources, run[i]) && |run[i].finished| == |sources|
  {
    hide Invariant, Completes;
    if i == 0 {
      InitInvariant(sources);
    } else {
      RunKeepsInvariant(sources, run, i - 1);
      var j: nat :| Completes(sources, run[i - 1], run[i], j);
      StepKeepsInvariant(sources, run[i - 1], run[i], j);
    }
  }

  // ----- What every schedule comes to -----

  predicate Succeeds(sources: seq<Source>, i: nat) {
    i < |sources| && sources[i].enabled && sources[i].fetch.Fetched?
  }

  function AllErrors(sources: seq<Source>): multiset<string> {
    if sources == [] then multiset{}
    else AllErrors(sources[..|sources| - 1]) + ErrorOf(sources[|sources| - 1])
  }

  lemma {:induction false} MergedKeysMeaning(sources: seq<Source>, s: State, n: nat, key: string)
    requires |s.finished| == |sources| && n <= |sources|
    ensures key in MergedKeys(sources, s, n) <==>
            exists i: nat :: i < n && Merged(sources, s, i) && key in Keys(sources[i].fetch.entries)
  {
    if n > 0 {
      MergedKeysMeaning(sources, s, n - 1, key);
    }
  }

  lemma NoErrorWhenDisabled(s: Source)
    requires !s.enabled
    ensures ErrorOf(s) == multiset{}
  {
  }

  lemma {:induction false} FailuresAreAll(sources: seq<Source>, s: State, n: nat)
    requires Complete(sources, s) && n <= |sources|
    ensures Failures(sources, s, n) == AllErrors(sources[..n])
  {
    hide ErrorOf;
    if n > 0 {
      FailuresAreAll(sources, s, n - 1);
      var last := sources[n - 1];
      assert sources[..n][..n - 1] == sources[..n - 1] && sources[..n][n - 1] == last;
      assert AllErrors(sources[..n]) == AllErrors(sources[..n - 1]) + ErrorOf(last);
      if !s.finished[n - 1] {
        NoErrorWhenDisabled(last);
      }
    }
  }

  /**
   * However the goroutines are scheduled, the crawl collects exactly the keys of the sources that
   * succeeded, each once, and exactly the errors of those that failed.
   */
  lemma CrawlIsTheUnion(sources: seq<Source>, run: seq<State>, k: nat)
    requires IsRun(sources, run) && k < |run| && Complete(sources, run[k])
    ensures var r := run[k].result;
            && NoDuplicates(Keys(r.entries)) && r.total == |r.entries|
            && multiset(r.errors) == AllErrors(sources)
            && (forall key :: key in Keys(r.entries) <==>
                  exists i: nat :: Succeeds(sources, i) && key in Keys(sources[i].fetch.entries))
            && (forall e | e in r.entries :: exists i: nat :: Succeeds(sources, i) && e in sources[i].fetch.entries)
  {
    var s := run[k];
    RunKeepsInvariant(sources, run, k);
    FailuresAreAll(sources, s, |sources|);
    assert sources[..|sources|] == sources;
    assert forall i: nat :: Merged(sources, s, i) <==> Succeeds(sources, i);
    hide MergedKeys, Failures, AllErrors, Keys;
    forall key
      ensures key in Keys(s.result.entries) <==>
              exists i: nat :: Succeeds(sources, i) && key in Keys(sources[i].fetch.entries)
    {
      MergedKeysMeaning(sources, s, |sources|, key);
      assert key in Keys(s.result.entries) <==> key in Elements(Keys(s.result.entries));
    }
  }

  /** Two schedules of the same crawl agree on the keys, on the total and on the errors up to their order. */
  lemma ScheduleIndependence(sources: seq<Source>, run: seq<State>, k: nat, other: seq<State>, l: nat)
    requires IsRun(sources, run) && k < |run| && Complete(sources, run[k])
    requires IsRun(sources, other) && l < |other| && Complete(sources, other[l])
    ensures var r, q := run[k].result, other[l].result;
            && Elements(Keys(r.entries)) == Elements(Keys(q.entries))
            && r.total == q.total && multiset(r.errors) == multiset(q.errors)
  {
    CrawlIsTheUnion(sources, run, k);
    CrawlIsTheUnion(sources, other, l);
    var r, q := Keys(run[k].result.entries), Keys(other[l].result.entries);
    assert forall key :: key in Elements(r) <==> key in Elements(q);
    NoDuplicatesSize(r);
    NoDuplicatesSize(q);
  }

  predicate BarFree(sources: seq<Source>) {
    forall i, e | 0 <= i < |sources| && sources[i].fetch.Fetched? && e in sources[i].fetch.entries :: '|' !in e.kind
  }

  /** Some entry of es is for this address and type. */
  ghost predicate Offers(es: seq<ProxyEntry>, p: (string, string)) {
    exists e :: e in es && Pair(e) == p
  }

  /** While no type contains a bar, the keys stand for the address and type pairs themselves. */
  lemma PairsAreTheUnion(sources: seq<Source>, run: seq<State>, k: nat)
    requires IsRun(sources, run) && k < |run| && Complete(sources, run[k]) && BarFree(sources)
    ensures NoDuplicates(Map(Pair, run[k].result.entries))
    ensures forall p :: Offers(run[k].result.entries, p) <==>
                        exists i: nat :: Succeeds(sources, i) && Offers(sources[i].fetch.entries, p)
  {
    var es := run[k].result.entries;
    CrawlIsTheUnion(sources, run, k);
    assert forall e | e in es :: '|' !in e.kind;
    forall i, j | 0 <= i < j < |es|
      ensures Pair(es[i]) != Pair(es[j])
    {
      assert Keys(es)[i] != Keys(es)[j];
    }
    forall p, i: nat | Succeeds(sources, i) && Offers(sources[i].fetch.entries, p)
      ensures Offers(es, p)
    {
      var d :| d in sources[i].fetch.entries && Pair(d) == p;
      var m :| 0 <= m < |sources[i].fetch.entries| && sources[i].fetch.entries[m] == d;
      assert Keys(sources[i].fetch.entries)[m] == Key(d);
      assert Key(d) in Keys(es);
      var n :| 0 <= n < |es| && Keys(es)[n] == Key(d);
      KeyInjective(d, es[n]);
      assert es[n] in es;
    }
  }

  // ----- Every run ends -----

  predicate Same(b: bool) {
    b
  }

  /** After i steps exactly i goroutines have finished, so no run has more steps than there are sources. */
  lemma {:induction false} RunIsBounded(sources: seq<Source>, run: seq<State>, i: nat)
    requires IsRun(sources, run) && i < |run|
    ensures Count(Same, run[i].finished) == i <= |sources|
  {
    if i == 0 {
      CountBound(Same, run[0].finished);
    } else {
      RunIsBounded(sources, run, i - 1);
      var j: nat :| Completes(sources, run[i - 1], run[i], j);
      CountUpdate(Same, run[i - 1].finished, j, true);
      CountBound(Same, run[i].finished);
    }
  }

  /** Until wg.Wait returns, some goroutine can complete. */
  lemma NoDeadlock(sources: seq<Source>, s: State)
    requires |s.finished| == |sources| && !Complete(sources, s)
    ensures exists t :: Next(sources, s, t)
  {
    var i: nat :| i < |sources| && sources[i].enabled && !s.finished[i];
    var t := State(s.finished[i := true], MergeSource(s.result, sources[i]));
    assert Completes(sources, s, t, i);
    assert Next(sources, s, t);
  }
}
