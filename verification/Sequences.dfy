/** Sequence vocabulary shared by the parsers, the crawler and the log. */
module Sequences {

  predicate NoDuplicates<T(==)>(s: seq<T>) {
    forall i, j | 0 <= i < j < |s| :: s[i] != s[j]
  }

  function Elements<T>(s: seq<T>): set<T> {
    set x | x in s
  }

  /** The elements of s in order, each kept only where it first occurs. */
  function FirstOccurrences<T(==)>(s: seq<T>): seq<T> {
    if s == [] then []
    else
      var before := FirstOccurrences(s[..|s| - 1]);
      if s[|s| - 1] in s[..|s| - 1] then before else before + [s[|s| - 1]]
  }

  /** Where x first occurs in s. */
  function FirstIndex<T(==)>(s: seq<T>, x: T): (i: nat)
    requires x in s
    ensures i < |s| && s[i] == x
    ensures forall k | 0 <= k < i :: s[k] != x
  {
    if s[0] == x then 0 else 1 + FirstIndex(s[1..], x)
  }

  lemma ElementsSnoc<T>(s: seq<T>, x: T)
    ensures Elements(s + [x]) == Elements(s) + {x}
  {
  }

  /** FirstOccurrences keeps every element once. */
  lemma {:induction false} FirstOccurrencesMeaning<T>(s: seq<T>)
    ensures NoDuplicates(FirstOccurrences(s))
    ensures Elements(FirstOccurrences(s)) == Elements(s)
    ensures forall x :: x in FirstOccurrences(s) <==> x in s
  {
    if s != [] {
      var n := |s| - 1;
      var before := FirstOccurrences(s[..n]);
      FirstOccurrencesMeaning(s[..n]);
      ElementsSnoc(s[..n], s[n]);
      ElementsSnoc(before, s[n]);
      assert s == s[..n] + [s[n]];
    }
  }

  lemma FirstIndexUnique<T>(s: seq<T>, x: T, i: nat)
    requires i < |s| && s[i] == x && forall k | 0 <= k < i :: s[k] != x
    ensures FirstIndex(s, x) == i
  {
  }

  /** The elements kept are in the order of their first occurrence. */
  lemma {:induction false} FirstOccurrencesOrder<T>(s: seq<T>)
    ensures forall x | x in FirstOccurrences(s) :: x in s
    ensures forall i, j | 0 <= i < j < |FirstOccurrences(s)| ::
              FirstIndex(s, FirstOccurrences(s)[i]) < FirstIndex(s, FirstOccurrences(s)[j])
  {
    if s != [] {
      var n := |s| - 1;
      var before, d := FirstOccurrences(s[..n]), FirstOccurrences(s);
      FirstOccurrencesOrder(s[..n]);
      FirstOccurrencesMeaning(s);
      forall x | x in s[..n]
        ensures x in s && FirstIndex(s, x) == FirstIndex(s[..n], x) < n
      {
        FirstIndexUnique(s, x, FirstIndex(s[..n], x));
      }
      forall i, j | 0 <= i < j < |d|
        ensures FirstIndex(s, d[i]) < FirstIndex(s, d[j])
      {
        assert d[i] == before[i] && before[i] in s[..n];
        if j < |before| {
          assert d[j] == before[j] && before[j] in s[..n];
        } else {
          assert forall k | 0 <= k < n :: s[..n][k] == s[k];
          FirstIndexUnique(s, s[n], n);
        }
      }
    }
  }

  /** Element-wise pairing, cut to the shorter argument. */
  function Zip<A, B>(a: seq<A>, b: seq<B>): (z: seq<(A, B)>)
    ensures |z| == if |a| < |b| then |a| else |b|
  {
    seq(if |a| < |b| then |a| else |b|, i requires 0 <= i < |a| && i < |b| => (a[i], b[i]))
  }

  function Map<A, B>(f: A -> B, s: seq<A>): (r: seq<B>)
    ensures |r| == |s|
    ensures forall i | 0 <= i < |s| :: r[i] == f(s[i])
  {
    seq(|s|, i requires 0 <= i < |s| => f(s[i]))
  }

  lemma Associative<T>(a: seq<T>, b: seq<T>, c: seq<T>)
    ensures (a + b) + c == a + (b + c)
  {
  }

  lemma CutPrefix<T>(s: seq<T>, k: nat, n: nat)
    requires n <= k <= |s|
    ensures s[..k][..n] == s[..n] && s[..k][n..] == s[n..][..k - n]
  {
  }

  lemma CutSum<T>(s: seq<T>, tail: seq<T>, n: nat)
    requires n <= |s|
    ensures (s + tail)[..n] == s[..n] && (s + tail)[n..] == s[n..] + tail
  {
  }

  lemma PrefixOfSum<T>(a: seq<T>, b: seq<T>, n: nat)
    requires n <= |a| + |b|
    ensures (a + b)[..n] == if n < |a| then a[..n] else a + b[..n - |a|]
  {
  }

  /** The concatenation of f over the elements. */
  function FlatMap<A, B>(f: A -> seq<B>, s: seq<A>): seq<B> {
    if s == [] then [] else FlatMap(f, s[..|s| - 1]) + f(s[|s| - 1])
  }

  lemma FlatMapOne<A, B>(f: A -> seq<B>, x: A)
    ensures FlatMap(f, [x]) == f(x)
  {
  }

  lemma {:induction false} FlatMapAppend<A, B>(f: A -> seq<B>, a: seq<A>, b: seq<A>)
    ensures FlatMap(f, a + b) == FlatMap(f, a) + FlatMap(f, b)
  {
    if b == [] {
      assert a + b == a;
    } else {
      var n := |b| - 1;
      FlatMapAppend(f, a, b[..n]);
      assert (a + b)[..|a + b| - 1] == a + b[..n];
      Associative(FlatMap(f, a), FlatMap(f, b[..n]), f(b[n]));
    }
  }

  function Filter<T>(p: T -> bool, s: seq<T>): seq<T> {
    if s == [] then []
    else Filter(p, s[..|s| - 1]) + (if p(s[|s| - 1]) then [s[|s| - 1]] else [])
  }

  lemma {:induction false} FilterAppend<T>(p: T -> bool, a: seq<T>, b: seq<T>)
    ensures Filter(p, a + b) == Filter(p, a) + Filter(p, b)
  {
    if b == [] {
      assert a + b == a;
    } else {
      var n := |b| - 1;
      FilterAppend(p, a, b[..n]);
      assert (a + b)[..|a + b| - 1] == a + b[..n];
      Associative(Filter(p, a), Filter(p, b[..n]), if p(b[n]) then [b[n]] else []);
    }
  }

  lemma {:induction false} FilterShorter<T>(p: T -> bool, s: seq<T>)
    ensures |Filter(p, s)| <= |s|
  {
    if s != [] {
      FilterShorter(p, s[..|s| - 1]);
    }
  }

  lemma {:induction false} FilterAll<T>(p: T -> bool, s: seq<T>)
    requires forall x | x in s :: p(x)
    ensures Filter(p, s) == s
  {
    if s != [] {
      var n := |s| - 1;
      assert s == s[..n] + [s[n]];
      FilterAll(p, s[..n]);
    }
  }

  /** A filtered sequence holds exactly the matching elements. */
  lemma {:induction false} FilterMembers<T>(p: T -> bool, s: seq<T>)
    ensures forall x :: x in Filter(p, s) <==> x in s && p(x)
  {
    if s != [] {
      FilterMembers(p, s[..|s| - 1]);
      assert s == s[..|s| - 1] + [s[|s| - 1]];
    }
  }

  /** A filtered sequence keeps the order: its elements stand at increasing positions. */
  lemma {:induction false} FilterOrdered<T>(p: T -> bool, s: seq<T>) returns (at: seq<nat>)
    ensures |at| == |Filter(p, s)|
    ensures forall k | 0 <= k < |at| :: at[k] < |s| && s[at[k]] == Filter(p, s)[k]
    ensures forall j, k | 0 <= j < k < |at| :: at[j] < at[k]
  {
    at := [];
    if s != [] {
      var n := |s| - 1;
      var front := Filter(p, s[..n]);
      assert Filter(p, s) == front + (if p(s[n]) then [s[n]] else []);
      at := FilterOrdered(p, s[..n]);
      hide Filter;
      assert forall k | 0 <= k < |at| :: s[at[k]] == front[k];
      if p(s[n]) {
        at := at + [n];
      }
    }
  }

  /** A filtered sequence is empty exactly when nothing matches. */
  lemma {:induction false} FilterEmpty<T>(p: T -> bool, s: seq<T>)
    ensures Filter(p, s) == [] <==> forall x | x in s :: !p(x)
  {
    if s != [] {
      FilterEmpty(p, s[..|s| - 1]);
      assert s == s[..|s| - 1] + [s[|s| - 1]];
    }
  }

  lemma NoDuplicatesSize<T>(s: seq<T>)
    requires NoDuplicates(s)
    ensures |s| == |Elements(s)|
  {
    if s != [] {
      var n := |s| - 1;
      NoDuplicatesSize(s[..n]);
      assert s == s[..n] + [s[n]];
      assert Elements(s) == Elements(s[..n]) + {s[n]};
    }
  }
}
