/** The per-source counts of a crawl (internal/freeproxy/crawler.go): when they add up, and when they are determined. */
module CrawlCounts {
  import opened Counting
  import opened Crawler
  import opened JsonPath
  import opened Sequences

  // ----- Building runs -----

  /** The distinct keys of a successful source. */
  function KeySet(s: Source): set<string> {
    if s.fetch.Fetched? then Elements(Keys(s.fetch.entries)) else {}
  }

  /** A merge adds the keys that were not there yet. */
  lemma ExtraMeaning(kept: seq<ProxyEntry>, es: seq<ProxyEntry>)
    requires NoDuplicates(Keys(kept))
    ensures Extra(kept, es) == |Elements(Keys(es)) - Elements(Keys(kept))|
  {
    AddAllMeaning(kept, es);
    var all, a, b := AddAll(kept, es), Elements(Keys(kept)), Elements(Keys(es));
    hide AddAll, Keys, Elements;
    NoDuplicatesSize(Keys(kept));
    NoDuplicatesSize(Keys(all));
    assert a + b == a + (b - a) && a !! (b - a);
  }

  /** A run goes on until every enabled source has completed. */
  lemma {:induction false} ExtendRun(sources: seq<Source>, run: seq<State>) returns (whole: seq<State>)
    requires IsRun(sources, run)
    ensures IsRun(sources, whole) && run <= whole && Complete(sources, whole[|whole| - 1])
    decreases |sources| + 1 - |run|
  {
    var s := run[|run| - 1];
    RunKeepsInvariant(sources, run, |run| - 1);
    hide Invariant;
    if Complete(sources, s) {
      whole := run;
    } else {
      NoDeadlock(sources, s);
      var t :| Next(sources, s, t);
      hide Next;
      RunIsBounded(sources, run + [t], |run|);
      whole := ExtendRun(sources, run + [t]);
    }
  }

  /** The run that begins with sources i and j. */
  lemma FirstTwo(sources: seq<Source>, i: nat, j: nat) returns (run: seq<State>)
    requires i != j && Succeeds(sources, i) && Succeeds(sources, j)
    ensures IsRun(sources, run) && |run| == 3
    ensures Completes(sources, run[0], run[1], i) && Completes(sources, run[1], run[2], j)
  {
    var a := Init(sources);
    var b := State(a.finished[i := true], MergeSource(a.result, sources[i]));
    var c := State(b.finished[j := true], MergeSource(b.result, sources[j]));
    run := [a, b, c];
    assert Completes(sources, a, b, i) && Completes(sources, b, c, j);
    hide Completes;
    assert Next(sources, a, b) && Next(sources, b, c);
  }

  // ----- The sum of the counts -----

  /** The part of the total that the counts do not show. */
  ghost function Lost(r: Result): int {
    r.total - SumValues(r.counts)
  }

  /** A successful source loses the count published before under its name. */
  lemma LostMoves(sources: seq<Source>, s: State, t: State, j: nat)
    requires Completes(sources, s, t, j)
    ensures var r, name := s.result, sources[j].name;
            Lost(t.result) == Lost(r) +
              (if sources[j].fetch.Fetched? && name in r.counts then r.counts[name] else 0)
  {
    if sources[j].fetch.Fetched? {
      var r, name, es := s.result, sources[j].name, sources[j].fetch.entries;
      SumValuesUpdate(r.counts, name, Extra(r.entries, es));
    }
  }

  lemma {:induction false} LostGrows(sources: seq<Source>, run: seq<State>, k: nat, l: nat)
    requires IsRun(sources, run) && k <= l < |run|
    ensures Lost(run[k].result) <= Lost(run[l].result)
  {
    hide Completes, Lost;
    if k < l {
      LostGrows(sources, run, k, l - 1);
      var j: nat :| Completes(sources, run[l - 1], run[l], j);
      LostMoves(sources, run[l - 1], run[l], j);
    }
  }

  /** Two distinct successful sources share a name only if neither has an entry. */
  predicate Tame(sources: seq<Source>) {
    forall i: nat, j: nat | i < |sources| && j < |sources| && i != j && Succeeds(sources, i) && Succeeds(sources, j)
                            && sources[i].name == sources[j].name ::
      sources[i].fetch.entries == [] && sources[j].fetch.entries == []
  }

  ghost predicate NothingLost(sources: seq<Source>, s: State)
    requires |s.finished| == |sources|
  {
    && Lost(s.result) == 0
    && forall i: nat | Merged(sources, s, i) && sources[i].fetch.entries == [] ::
         sources[i].name in s.result.counts && s.result.counts[sources[i].name] == 0
  }

  lemma TameStep(sources: seq<Source>, s: State, t: State, j: nat)
    requires Tame(sources) && Invariant(sources, s) && NothingLost(sources, s) && Completes(sources, s, t, j)
    ensures NothingLost(sources, t)
  {
    LostMoves(sources, s, t, j);
    hide Lost;
    var name := sources[j].name;
    if sources[j].fetch.Fetched? && name in s.result.counts {
      assert MergedUnder(sources, s, name);
      var i: nat :| Merged(sources, s, i) && sources[i].name == name;
      assert Succeeds(sources, i) && Succeeds(sources, j) && i != j;
      assert s.result.counts[name] == 0;
    }
    forall i: nat | Merged(sources, t, i) && sources[i].fetch.entries == []
      ensures sources[i].name in t.result.counts && t.result.counts[sources[i].name] == 0
    {
      assert i != j ==> Merged(sources, s, i);
      assert i != j && sources[j].fetch.Fetched? && sources[i].name == name ==> sources[j].fetch.entries == [] by {
        assert Succeeds(sources, i);
        assert sources[j].fetch.Fetched? ==> Succeeds(sources, j);
      }
    }
  }

  lemma {:induction false} TameRun(sources: seq<Source>, run: seq<State>, k: nat)
    requires Tame(sources) && IsRun(sources, run) && k < |run|
    ensures |run[k].finished| == |sources| && NothingLost(sources, run[k])
  {
    RunKeepsInvariant(sources, run, k);
    if k > 0 {
      TameRun(sources, run, k - 1);
      RunKeepsInvariant(sources, run, k - 1);
      hide Completes, Invariant, Tame, NothingLost;
      var j: nat :| Completes(sources, run[k - 1], run[k], j);
      TameStep(sources, run[k - 1], run[k], j);
    }
  }

  /** The counts of every complete run sum to its total. */
  ghost predicate AlwaysSums(sources: seq<Source>) {
    forall run: seq<State>, k: nat | IsRun(sources, run) && k < |run| && Complete(sources, run[k]) ::
      SumValues(run[k].result.counts) == run[k].result.total
  }

  /** With a name used twice and an entry under it, some run loses a count. */
  lemma SharedNameLoses(sources: seq<Source>, i: nat, j: nat) returns (run: seq<State>)
    requires i != j && Succeeds(sources, i) && Succeeds(sources, j) && sources[i].name == sources[j].name
    requires sources[i].fetch.entries != []
    ensures IsRun(sources, run) && Complete(sources, run[|run| - 1])
    ensures SumValues(run[|run| - 1].result.counts) < run[|run| - 1].result.total
  {
    var start := FirstTwo(sources, i, j);
    LostMoves(sources, start[0], start[1], i);
    LostMoves(sources, start[1], start[2], j);
    ExtraMeaning([], sources[i].fetch.entries);
    var first := Key(sources[i].fetch.entries[0]);
    assert first in KeySet(sources[i]) by {
      assert Keys(sources[i].fetch.entries)[0] == first;
    }
    run := ExtendRun(sources, start);
    LostGrows(sources, run, 2, |run| - 1);
  }

  /** The counts sum to the total in every run exactly when no name with an entry is shared. */
  lemma CountsSumExact(sources: seq<Source>)
    ensures AlwaysSums(sources) <==> Tame(sources)
  {
    hide Complete, IsRun;
    if Tame(sources) {
      forall run: seq<State>, k: nat | IsRun(sources, run) && k < |run| && Complete(sources, run[k])
        ensures SumValues(run[k].result.counts) == run[k].result.total
      {
        TameRun(sources, run, k);
      }
    }
    forall i: nat, j: nat | i < |sources| && j < |sources| && i != j && Succeeds(sources, i) && Succeeds(sources, j)
                            && sources[i].name == sources[j].name && sources[i].fetch.entries != []
      ensures !AlwaysSums(sources)
    {
      var run := SharedNameLoses(sources, i, j);
    }
  }

  predicate DistinctNames(sources: seq<Source>) {
    forall i: nat, j: nat | i < |sources| && j < |sources| && i != j && Succeeds(sources, i) && Succeeds(sources, j) ::
      sources[i].name != sources[j].name
  }

  ghost predicate SucceedsUnder(sources: seq<Source>, name: string) {
    exists i: nat :: Succeeds(sources, i) && sources[i].name == name
  }

  /** The successful sources have a count, and while their names are distinct the counts sum to the total. */
  lemma CountsSumToTotal(sources: seq<Source>, run: seq<State>, k: nat)
    requires IsRun(sources, run) && k < |run| && Complete(sources, run[k])
    ensures forall name :: name in run[k].result.counts <==> SucceedsUnder(sources, name)
    ensures DistinctNames(sources) ==> SumValues(run[k].result.counts) == run[k].result.total
  {
    RunKeepsInvariant(sources, run, k);
    assert forall i: nat :: Merged(sources, run[k], i) <==> Succeeds(sources, i);
    assert forall name :: MergedUnder(sources, run[k], name) <==> SucceedsUnder(sources, name);
    if DistinctNames(sources) {
      TameRun(sources, run, k);
    }
  }

  function OneEntrySource(name: string, addr: string): Source {
    Source(name, true, Fetched([ProxyEntry(addr, "http", name)]))
  }

  /** For instance two sources of one name with an entry each. */
  lemma DuplicateNamesLoseCounts(name: string, addr: string, other: string) returns (run: seq<State>)
    ensures var sources := [OneEntrySource(name, addr), OneEntrySource(name, other)];
            && IsRun(sources, run) && Complete(sources, run[|run| - 1])
            && SumValues(run[|run| - 1].result.counts) < run[|run| - 1].result.total
  {
    run := SharedNameLoses([OneEntrySource(name, addr), OneEntrySource(name, other)], 0, 1);
  }

  // ----- Which source is credited -----

  predicate DisjointKeys(sources: seq<Source>) {
    forall i: nat, j: nat | i < |sources| && j < |sources| && i != j && Succeeds(sources, i) && Succeeds(sources, j) ::
      KeySet(sources[i]) !! KeySet(sources[j])
  }

  /** Each merged source is credited with all its keys. */
  ghost predicate FullCredit(sources: seq<Source>, s: State)
    requires |s.finished| == |sources|
  {
    forall i: nat | Merged(sources, s, i) ::
      sources[i].name in s.result.counts && s.result.counts[sources[i].name] == |KeySet(sources[i])|
  }

  lemma FullCreditStep(sources: seq<Source>, s: State, t: State, j: nat)
    requires DistinctNames(sources) && DisjointKeys(sources)
    requires Invariant(sources, s) && FullCredit(sources, s) && Completes(sources, s, t, j)
    ensures FullCredit(sources, t)
  {
    if sources[j].fetch.Fetched? {
      var kept, es := Elements(Keys(s.result.entries)), sources[j].fetch.entries;
      assert Succeeds(sources, j);
      forall key | key in kept
        ensures key !in KeySet(sources[j])
      {
        MergedKeysMeaning(sources, s, |sources|, key);
        var i: nat :| Merged(sources, s, i) && key in Keys(sources[i].fetch.entries);
        assert Succeeds(sources, i) && key in KeySet(sources[i]);
      }
      ExtraMeaning(s.result.entries, es);
      assert KeySet(sources[j]) - kept == KeySet(sources[j]);
    }
    hide KeySet, Extra, AddAll;
    forall i: nat | Merged(sources, t, i)
      ensures sources[i].name in t.result.counts && t.result.counts[sources[i].name] == |KeySet(sources[i])|
    {
      if i != j {
        assert Merged(sources, s, i) && Succeeds(sources, i);
        assert sources[j].fetch.Fetched? ==> Succeeds(sources, j);
      }
    }
  }

  lemma {:induction false} FullCreditRun(sources: seq<Source>, run: seq<State>, k: nat)
    requires DistinctNames(sources) && DisjointKeys(sources) && IsRun(sources, run) && k < |run|
    ensures |run[k].finished| == |sources| && FullCredit(sources, run[k])
  {
    hide Completes, Invariant, DistinctNames, DisjointKeys, KeySet;
    RunKeepsInvariant(sources, run, k);
    if k > 0 {
      hide FullCredit;
      FullCreditRun(sources, run, k - 1);
      RunKeepsInvariant(sources, run, k - 1);
      var j: nat :| Completes(sources, run[k - 1], run[k], j);
      FullCreditStep(sources, run[k - 1], run[k], j);
    }
  }

  /** With distinct names, a published count is never changed. */
  lemma {:induction false} CountStays(sources: seq<Source>, run: seq<State>, k: nat, l: nat, i: nat)
    requires DistinctNames(sources) && IsRun(sources, run) && k <= l < |run|
    requires |run[k].finished| == |sources| && Merged(sources, run[k], i) && sources[i].name in run[k].result.counts
    ensures |run[l].finished| == |sources| && Merged(sources, run[l], i)
    ensures sources[i].name in run[l].result.counts
    ensures run[l].result.counts[sources[i].name] == run[k].result.counts[sources[i].name]
  {
    if k < l {
      CountStays(sources, run, k, l - 1, i);
      var j: nat :| Completes(sources, run[l - 1], run[l], j);
      assert Succeeds(sources, i) && (sources[j].fetch.Fetched? ==> Succeeds(sources, j));
      hide AddAll;
    }
  }

  lemma SameCredit(sources: seq<Source>, run: seq<State>, k: nat, other: seq<State>, l: nat)
    requires DistinctNames(sources) && DisjointKeys(sources)
    requires IsRun(sources, run) && k < |run| && Complete(sources, run[k])
    requires IsRun(sources, other) && l < |other| && Complete(sources, other[l])
    ensures run[k].result.counts == other[l].result.counts
  {
    CountsSumToTotal(sources, run, k);
    CountsSumToTotal(sources, other, l);
    FullCreditRun(sources, run, k);
    FullCreditRun(sources, other, l);
    var a, b := run[k].result.counts, other[l].result.counts;
    hide IsRun, DistinctNames, DisjointKeys, KeySet;
    assert forall name :: name in a <==> name in b;
    forall name | name in a
      ensures a[name] == b[name]
    {
      assert SucceedsUnder(sources, name);
      var i: nat :| Succeeds(sources, i) && sources[i].name == name;
      assert Merged(sources, run[k], i) && Merged(sources, other[l], i);
    }
  }

  lemma SubsetSize(a: set<string>, b: set<string>)
    requires a < b
    ensures |a| < |b|
  {
    assert b == a + (b - a) && a !! (b - a);
    var x :| x in b && x !in a;
    assert x in b - a;
  }

  lemma FewerKeys(a: set<string>, b: set<string>)
    requires !(a !! b)
    ensures |a - b| < |a|
  {
    var x :| x in a && x in b;
    assert a - b < a;
    SubsetSize(a - b, a);
  }

  /** All complete runs publish the same counts. */
  ghost predicate CountsAgree(sources: seq<Source>) {
    forall run: seq<State>, k: nat, other: seq<State>, l: nat |
      IsRun(sources, run) && k < |run| && Complete(sources, run[k]) &&
      IsRun(sources, other) && l < |other| && Complete(sources, other[l]) ::
      run[k].result.counts == other[l].result.counts
  }

  /** The run that begins with i and then j credits i with all its keys. */
  lemma FirstIsCredited(sources: seq<Source>, i: nat, j: nat) returns (run: seq<State>)
    requires DistinctNames(sources) && i != j && Succeeds(sources, i) && Succeeds(sources, j)
    ensures IsRun(sources, run) && Complete(sources, run[|run| - 1])
    ensures var counts := run[|run| - 1].result.counts;
            && sources[i].name in counts && counts[sources[i].name] == |KeySet(sources[i])|
            && sources[j].name in counts && counts[sources[j].name] == |KeySet(sources[j]) - KeySet(sources[i])|
  {
    var start := FirstTwo(sources, i, j);
    var es, fs := sources[i].fetch.entries, sources[j].fetch.entries;
    ExtraMeaning([], es);
    assert Keys([]) == [] && KeySet(sources[i]) - {} == KeySet(sources[i]);
    assert NoDuplicates(Keys([]));
    AddAllMeaning([], es);
    assert Elements(Keys(AddAll([], es))) == KeySet(sources[i]);
    ExtraMeaning(AddAll([], es), fs);
    hide KeySet, Extra, AddAll;
    run := ExtendRun(sources, start);
    CountStays(sources, run, 1, |run| - 1, i);
    CountStays(sources, run, 2, |run| - 1, j);
  }

  /** With distinct names, the counts are independent of the schedule exactly when no two sources share a key. */
  lemma CountsAgreeExact(sources: seq<Source>)
    requires DistinctNames(sources)
    ensures CountsAgree(sources) <==> DisjointKeys(sources)
  {
    if DisjointKeys(sources) {
      forall run: seq<State>, k: nat, other: seq<State>, l: nat |
        IsRun(sources, run) && k < |run| && Complete(sources, run[k]) &&
        IsRun(sources, other) && l < |other| && Complete(sources, other[l])
        ensures run[k].result.counts == other[l].result.counts
      {
        SameCredit(sources, run, k, other, l);
      }
    }
    forall i: nat, j: nat | i < |sources| && j < |sources| && i != j && Succeeds(sources, i) && Succeeds(sources, j)
                            && !(KeySet(sources[i]) !! KeySet(sources[j]))
      ensures !CountsAgree(sources)
    {
      var run := FirstIsCredited(sources, i, j);
      var other := FirstIsCredited(sources, j, i);
      hide IsRun, Complete;
      FewerKeys(KeySet(sources[i]), KeySet(sources[j]));
      assert run[|run| - 1].result.counts[sources[i].name] != other[|other| - 1].result.counts[sources[i].name];
    }
  }

  /** For instance two sources that share an entry: the one that comes first is credited with it. */
  lemma CountsDependOnOrder(addr: string)
    ensures !CountsAgree([OneEntrySource("a", addr), OneEntrySource("b", addr)])
  {
    var sources := [OneEntrySource("a", addr), OneEntrySource("b", addr)];
    assert Succeeds(sources, 0) && Succeeds(sources, 1);
    var key := addr + "|" + "http";
    assert Keys(sources[0].fetch.entries)[0] == key && Keys(sources[1].fetch.entries)[0] == key;
    assert key in KeySet(sources[0]) && key in KeySet(sources[1]);
    CountsAgreeExact(sources);
  }
}
