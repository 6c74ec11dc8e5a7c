/** The in-memory log of internal/freeproxy/logger.go: a ring buffer and its query. */
module RingLog {
  import opened Arithmetic
  import opened Sequences

  /** time is the formatted time stamp; only a slot never written has an empty one. */
  datatype Record = Record(time: string, level: string, area: string, message: string)

  const BLANK: Record := Record("", "", "", "")

  /** The empty level asks for every record. */
  predicate Matches(level: string, r: Record) {
    level == "" || r.level == level
  }

  function Matcher(level: string): Record -> bool {
    r => Matches(level, r)
  }

  /** The newest record number that shares the slot of record number k, out of n records. */
  function Latest(k: nat, n: nat, cap: nat): nat
    requires k < n && cap > 0
  {
    k + (n - 1 - k) / cap * cap
  }

  lemma LatestMeaning(k: nat, n: nat, cap: nat)
    requires k < n && cap > 0
    ensures k <= Latest(k, n, cap) < n && Latest(k, n, cap) + cap >= n
    ensures Latest(k, n, cap) % cap == k % cap
    ensures k + cap >= n ==> Latest(k, n, cap) == k
  {
    var q := (n - 1 - k) / cap;
    assert n - 1 - k == q * cap + (n - 1 - k) % cap;
    ModShift(k, q, cap);
    if k + cap >= n {
      assert q == 0;
    }
  }

  /** The records the backward walk from record number i - 1 down to 0 looks at, newest first. */
  function Walk(h: seq<Record>, cap: nat, i: nat): seq<Record>
    requires cap > 0 && i <= |h|
  {
    if i == 0 then []
    else
      LatestMeaning(i - 1, |h|, cap);
      [h[Latest(i - 1, |h|, cap)]] + Walk(h, cap, i - 1)
  }

  /** The newest k records of h, newest first. */
  function Newest(h: seq<Record>, k: nat): (r: seq<Record>)
    requires k <= |h|
    ensures |r| == k && forall j | 0 <= j < k :: r[j] == h[|h| - 1 - j]
  {
    seq(k, j requires 0 <= j < k => h[|h| - 1 - j])
  }

  function Take<T>(s: seq<T>, k: nat): seq<T> {
    if |s| <= k then s else s[..k]
  }

  function EffectiveLimit(limit: int, cap: nat): nat
    requires cap > 0
  {
    if limit <= 0 || limit > cap then cap else limit
  }

  /** What Query computes: the walk goes on past the window until the limit is met. */
  function Queried(h: seq<Record>, cap: nat, level: string, limit: int): seq<Record>
    requires cap > 0
  {
    Take(Filter(Matcher(level), Walk(h, cap, |h|)), EffectiveLimit(limit, cap))
  }

  /** What a bounded log should answer: the newest matches among the last cap records. */
  function Ideal(h: seq<Record>, cap: nat, level: string, limit: int): seq<Record>
    requires cap > 0
  {
    Take(Filter(Matcher(level), Newest(h, Min(|h|, cap))), EffectiveLimit(limit, cap))
  }

  class Logger {
    const buf: array<Record>
    const cap: nat
    var pos: nat
    var total: nat
    /** Everything ever logged. */
    ghost var history: seq<Record>

    ghost predicate Valid()
      reads this, buf
    {
      && cap > 0 && buf.Length == cap
      && pos == total == |history|
      && (forall k | 0 <= k < |history| :: history[k].time != "")
      && (forall k | 0 <= k < |history| && |history| - cap <= k :: buf[k % cap] == history[k])
    }

    constructor (cap: int)
      ensures Valid() && history == [] && fresh(buf)
      ensures this.cap == if cap <= 0 then 500 else cap
    {
      var size := if cap <= 0 then 500 else cap;
      this.cap := size;
      buf := new Record[size](_ => BLANK);
      pos, total, history := 0, 0, [];
    }

    method Log(r: Record)
      requires Valid() && r.time != ""
      modifies this, buf
      ensures Valid() && history == old(history) + [r]
    {
      forall k | 0 <= k < |history| && |history| + 1 - cap <= k
        ensures k % cap != pos % cap
      {
        SlotsDiffer(k, pos, cap);
      }
      buf[pos % cap] := r;
      pos := pos + 1;
      total := total + 1;
      history := history + [r];
    }

    method Query(level: string, limit: int) returns (result: seq<Record>)
      requires Valid()
      ensures result == Queried(history, cap, level, limit)
    {
      var max := EffectiveLimit(limit, cap);
      result := [];
      ghost var read := [];
      assert Filter(Matcher(level), read) == [];
      var i := pos - 1;
      while i >= 0 && |result| < max
        invariant -1 <= i < pos
        invariant |result| <= max
        invariant read + Walk(history, cap, i + 1) == Walk(history, cap, pos)
        invariant result == Filter(Matcher(level), read)
        decreases i
      {
        var e := buf[i % cap];
        LatestMeaning(i, pos, cap);
        ghost var later := Walk(history, cap, i);
        assert e == history[Latest(i, pos, cap)];
        if e.time == "" {
          break;
        }
        ghost var before := read;
        read := read + [e];
        Associative(before, [e], later);
        assert read[..|read| - 1] == before;
        if Matches(level, e) {
          result := result + [e];
        }
        i := i - 1;
      }
      FilterAppend(Matcher(level), read, Walk(history, cap, i + 1));
      assert i < 0 ==> read == Walk(history, cap, pos);
    }
  }

  /** The walk first crosses the window of the last cap records, then reads the same slots again. */
  lemma {:induction false} WalkWindow(h: seq<Record>, cap: nat, i: nat)
    requires cap > 0 && i <= |h| && |h| - cap <= i
    ensures var older := if |h| <= cap then 0 else |h| - cap;
            Walk(h, cap, i) == Newest(h, |h| - older)[|h| - i..] + Walk(h, cap, older)
    decreases i
  {
    var older := if |h| <= cap then 0 else |h| - cap;
    var window := Newest(h, |h| - older);
    if i == older {
      assert window[|h| - i..] == [];
    } else {
      WalkWindow(h, cap, i - 1);
      LatestMeaning(i - 1, |h|, cap);
      assert window[|h| - i..] == [h[i - 1]] + window[|h| - (i - 1)..];
      Associative([h[i - 1]], window[|h| - (i - 1)..], Walk(h, cap, older));
    }
  }

  lemma LatestOneRound(k: nat, n: nat, cap: nat)
    requires k + cap < n <= k + 2 * cap
    ensures Latest(k, n, cap) == k + cap
  {
    DivModUnique(n - 1 - k, 1, n - 1 - k - cap, cap);
  }

  function LatestOf(h: seq<Record>, cap: nat, k: nat): (l: nat)
    requires cap > 0 && k < |h|
    ensures k <= l < |h| <= l + cap
  {
    LatestMeaning(k, |h|, cap);
    Latest(k, |h|, cap)
  }

  lemma {:induction false} WalkReads(h: seq<Record>, cap: nat, i: nat, r: Record)
    requires cap > 0 && i <= |h|
    ensures r in Walk(h, cap, i) <==> exists k | 0 <= k < i :: r == h[LatestOf(h, cap, k)]
  {
    if i > 0 {
      WalkReads(h, cap, i - 1, r);
      assert LatestOf(h, cap, i - 1) == Latest(i - 1, |h|, cap);
    }
  }

  /** Past the window, the walk reads again exactly the newest min(|h| - cap, cap) records. */
  lemma WalkAgain(h: seq<Record>, cap: nat)
    requires 0 < cap <= |h|
    ensures Elements(Walk(h, cap, |h| - cap)) == Elements(Newest(h, Min(|h| - cap, cap)))
  {
    var older := |h| - cap;
    var again := Newest(h, Min(older, cap));
    forall r: Record
      ensures r in Elements(Walk(h, cap, older)) <==> r in Elements(again)
    {
      WalkReads(h, cap, older, r);
      if r in again {
        var j :| 0 <= j < |again| && again[j] == r;
        LatestOneRound(older - 1 - j, |h|, cap);
        assert LatestOf(h, cap, older - 1 - j) == |h| - 1 - j;
      }
      if r in Walk(h, cap, older) {
        var k :| 0 <= k < older && r == h[LatestOf(h, cap, k)];
        if older - cap <= k {
          LatestOneRound(k, |h|, cap);
        }
        assert again[|h| - 1 - LatestOf(h, cap, k)] == r;
      }
    }
  }

  lemma TakeExact<T>(a: seq<T>, b: seq<T>, k: nat)
    ensures Take(a + b, k) == Take(a, k) <==> |a| >= k || b == []
  {
  }

  /**
   * A query answers with the newest matches of the window exactly when nothing has been overwritten,
   * or the window alone meets the limit, or none of the records that would be read again matches.
   */
  lemma QueryExact(h: seq<Record>, cap: nat, level: string, limit: int)
    requires cap > 0
    ensures Queried(h, cap, level, limit) == Ideal(h, cap, level, limit)
       <==> || |h| <= cap
            || |Filter(Matcher(level), Newest(h, cap))| >= EffectiveLimit(limit, cap)
            || forall r | r in Newest(h, Min(|h| - cap, cap)) :: !Matches(level, r)
  {
    var older := if |h| <= cap then 0 else |h| - cap;
    var window, again := Newest(h, |h| - older), Walk(h, cap, older);
    WalkWindow(h, cap, |h|);
    assert window[0..] == window;
    FilterAppend(Matcher(level), window, again);
    TakeExact(Filter(Matcher(level), window), Filter(Matcher(level), again), EffectiveLimit(limit, cap));
    FilterEmpty(Matcher(level), again);
    if |h| > cap {
      WalkAgain(h, cap);
      var reread := Newest(h, Min(older, cap));
      assert forall r :: r in again <==> r in Elements(again);
      assert forall r :: r in reread <==> r in Elements(reread);
    }
  }

  /** Without a level a query returns exactly the last min(limit, cap, count) records, newest first. */
  lemma UnfilteredQuery(h: seq<Record>, cap: nat, limit: int)
    requires cap > 0
    ensures Queried(h, cap, "", limit) == Newest(h, Min(|h|, EffectiveLimit(limit, cap)))
  {
    QueryExact(h, cap, "", limit);
    FilterAll(Matcher(""), Newest(h, Min(|h|, cap)));
  }

  lemma FilterOne(r: Record, level: string)
    ensures Filter(Matcher(level), [r]) == if Matches(level, r) then [r] else []
  {
  }

  /** The remaining case is real: one matching record out of three in a two-slot log is returned twice. */
  lemma QueryRepeats(a: Record, b: Record, c: Record, level: string)
    requires !Matches(level, a) && !Matches(level, b) && Matches(level, c)
    ensures Queried([a, b, c], 2, level, 2) == [c, c]
  {
    var h := [a, b, c];
    WalkWindow(h, 2, 3);
    LatestOneRound(0, 3, 2);
    assert Walk(h, 2, 1) == [c] + Walk(h, 2, 0);
    assert Newest(h, 2)[0..] == [c] + [b];
    FilterOne(c, level);
    FilterOne(b, level);
    FilterAppend(Matcher(level), [c], [b]);
    FilterAppend(Matcher(level), [c] + [b], [c]);
  }

  /** The walk reads nothing but the last cap records. */
  lemma {:induction false} WalkStaysInWindow(h: seq<Record>, cap: nat, i: nat)
    requires cap > 0 && i <= |h|
    ensures forall r | r in Walk(h, cap, i) :: exists k :: 0 <= k < |h| && k + cap >= |h| && h[k] == r
  {
    if i > 0 {
      LatestMeaning(i - 1, |h|, cap);
      WalkStaysInWindow(h, cap, i - 1);
    }
  }

  lemma {:induction false} FilteredMatch(level: string, s: seq<Record>)
    ensures forall r | r in Filter(Matcher(level), s) :: r in s && (level == "" || r.level == level)
  {
    if s != [] {
      FilteredMatch(level, s[..|s| - 1]);
    }
  }

  /**
   * Every record a query returns has the level asked for and is one of the last cap records; there are at most
   * limit of them, where a limit that is not positive or above cap means cap.
   */
  lemma QueryReturns(h: seq<Record>, cap: nat, level: string, limit: int)
    requires cap > 0
    ensures forall r | r in Queried(h, cap, level, limit) ::
              && (level == "" || r.level == level)
              && exists k :: 0 <= k < |h| && k + cap >= |h| && h[k] == r
    ensures |Queried(h, cap, level, limit)| <= if 0 < limit <= cap then limit else cap
  {
    WalkStaysInWindow(h, cap, |h|);
    FilteredMatch(level, Walk(h, cap, |h|));
    hide Walk, Filter;
  }

  lemma {:induction false} WalkSeesWindow(h: seq<Record>, cap: nat, i: nat, k: nat)
    requires cap > 0 && k < i <= |h| && k + cap >= |h|
    ensures h[k] in Walk(h, cap, i)
  {
    LatestMeaning(i - 1, |h|, cap);
    if k < i - 1 {
      WalkSeesWindow(h, cap, i - 1, k);
    } else {
      LatestMeaning(k, |h|, cap);
    }
  }

  lemma {:induction false} FilterKeeps(level: string, s: seq<Record>, r: Record)
    requires r in s && (level == "" || r.level == level)
    ensures r in Filter(Matcher(level), s)
  {
    if r in s[..|s| - 1] {
      FilterKeeps(level, s[..|s| - 1], r);
    } else {
      assert s == s[..|s| - 1] + [s[|s| - 1]];
    }
  }

  /** A query that stays below its limit has missed none of the last cap records of the level asked for. */
  lemma QueryMissesNone(h: seq<Record>, cap: nat, level: string, limit: int, k: nat)
    requires cap > 0 && k < |h| && k + cap >= |h| && (level == "" || h[k].level == level)
    requires |Queried(h, cap, level, limit)| < if 0 < limit <= cap then limit else cap
    ensures h[k] in Queried(h, cap, level, limit)
  {
    WalkSeesWindow(h, cap, |h|, k);
    FilterKeeps(level, Walk(h, cap, |h|), h[k]);
    hide Walk, Filter;
  }

  /** The newest matches of the window stand at falling record numbers. */
  lemma IdealOrder(h: seq<Record>, cap: nat, level: string, limit: int) returns (at: seq<nat>)
    requires cap > 0
    ensures |at| == |Ideal(h, cap, level, limit)|
    ensures forall j | 0 <= j < |at| ::
              at[j] < |h| && at[j] + cap >= |h| && h[at[j]] == Ideal(h, cap, level, limit)[j]
    ensures forall i, j | 0 <= i < j < |at| :: at[i] > at[j]
  {
    var n := Min(|h|, cap);
    var back := FilterOrdered(Matcher(level), Newest(h, n));
    hide Filter;
    at := seq(|Ideal(h, cap, level, limit)|, j requires 0 <= j < |back| && back[j] < n => |h| - 1 - back[j]);
  }

  /** Without a level there are as many as the limit, the capacity and the history allow. */
  lemma UnfilteredLength(h: seq<Record>, cap: nat, limit: int)
    requires cap > 0
    ensures var n := |Queried(h, cap, "", limit)|;
            && n <= cap && n <= |h| && (limit > 0 ==> n <= limit)
            && (n == cap || n == |h| || n == limit)
  {
    UnfilteredQuery(h, cap, limit);
  }
}
