/** Counting and collecting over the positions of a sequence, one update at a time. */
module Counting {

  /** How many elements satisfy p. */
  function Count<T>(p: T -> bool, s: seq<T>): nat {
    if s == [] then 0 else Count(p, s[..|s| - 1]) + (if p(s[|s| - 1]) then 1 else 0)
  }

  lemma {:induction false} CountBound<T>(p: T -> bool, s: seq<T>)
    ensures Count(p, s) <= |s|
    ensures Count(p, s) == |s| <==> forall x | x in s :: p(x)
    ensures Count(p, s) == 0 <==> forall x | x in s :: !p(x)
  {
    if s != [] {
      CountBound(p, s[..|s| - 1]);
      assert s == s[..|s| - 1] + [s[|s| - 1]];
    }
  }

  /** Changing one element changes the count by at most that element. */
  lemma {:induction false} CountUpdate<T>(p: T -> bool, s: seq<T>, i: nat, x: T)
    requires i < |s|
    ensures Count(p, s[i := x]) + (if p(s[i]) then 1 else 0) == Count(p, s) + (if p(x) then 1 else 0)
  {
    var n := |s| - 1;
    if i == n {
      assert s[i := x][..n] == s[..n];
    } else {
      CountUpdate(p, s[..n], i, x);
      assert s[i := x][..n] == s[..n][i := x];
    }
  }

  lemma {:induction false} CountAtLeast<T>(p: T -> bool, s: seq<T>, i: nat)
    requires i < |s|
    ensures p(s[i]) ==> Count(p, s) > 0
  {
    if i < |s| - 1 {
      CountAtLeast(p, s[..|s| - 1], i);
    }
  }

  /** If p implies q, there are at most as many of p. */
  lemma {:induction false} CountMonotone<T>(p: T -> bool, q: T -> bool, s: seq<T>)
    requires forall x | x in s :: p(x) ==> q(x)
    ensures Count(p, s) <= Count(q, s)
  {
    if s != [] {
      assert s == s[..|s| - 1] + [s[|s| - 1]];
      CountMonotone(p, q, s[..|s| - 1]);
    }
  }

  /** Two exclusive properties that make up a third. */
  lemma {:induction false} CountSplit<T>(p: T -> bool, q: T -> bool, r: T -> bool, s: seq<T>)
    requires forall x | x in s :: r(x) == (p(x) || q(x)) && !(p(x) && q(x))
    ensures Count(r, s) == Count(p, s) + Count(q, s)
  {
    if s != [] {
      assert s == s[..|s| - 1] + [s[|s| - 1]];
      CountSplit(p, q, r, s[..|s| - 1]);
    }
  }

  /** The sum of a measure over the elements. */
  function Sum<T>(f: T -> nat, s: seq<T>): nat {
    if s == [] then 0 else Sum(f, s[..|s| - 1]) + f(s[|s| - 1])
  }

  lemma {:induction false} SumUpdate<T>(f: T -> nat, s: seq<T>, i: nat, x: T)
    requires i < |s|
    ensures Sum(f, s[i := x]) + f(s[i]) == Sum(f, s) + f(x)
  {
    var n := |s| - 1;
    if i == n {
      assert s[i := x][..n] == s[..n];
    } else {
      SumUpdate(f, s[..n], i, x);
      assert s[i := x][..n] == s[..n][i := x];
    }
  }

  /** What one element contributes. */
  function Contribution<T, U>(p: T -> bool, g: T -> U, x: T): multiset<U> {
    if p(x) then multiset{g(x)} else multiset{}
  }

  /** The multiset of g over the elements that satisfy p. */
  function Collect<T, U>(p: T -> bool, g: T -> U, s: seq<T>): multiset<U> {
    if s == [] then multiset{} else Collect(p, g, s[..|s| - 1]) + Contribution(p, g, s[|s| - 1])
  }

  lemma CollectLast<T, U>(p: T -> bool, g: T -> U, s: seq<T>)
    requires s != []
    ensures Collect(p, g, s) == Collect(p, g, s[..|s| - 1]) + Contribution(p, g, s[|s| - 1])
  {
  }

  lemma SwapSum<T>(a: multiset<T>, b: multiset<T>, c: multiset<T>)
    ensures (a + b) + c == (a + c) + b
  {
  }

  lemma Cancel<T>(a: multiset<T>, b: multiset<T>, c: multiset<T>)
    requires a + c == b + c
    ensures a == b
  {
    forall x
      ensures a[x] == b[x]
    {
      assert (a + c)[x] == (b + c)[x];
    }
  }

  lemma {:induction false} CollectNone<T, U>(p: T -> bool, g: T -> U, s: seq<T>)
    requires forall x | x in s :: !p(x)
    ensures Collect(p, g, s) == multiset{}
  {
    if s != [] {
      assert s == s[..|s| - 1] + [s[|s| - 1]];
      CollectNone(p, g, s[..|s| - 1]);
    }
  }

  /** Moving one element into another changes the collection by the two contributions. */
  lemma {:induction false} CollectUpdate<T, U>(p: T -> bool, g: T -> U, s: seq<T>, i: nat, x: T)
    requires i < |s|
    ensures Collect(p, g, s[i := x]) + Contribution(p, g, s[i]) == Collect(p, g, s) + Contribution(p, g, x)
  {
    hide Collect, Contribution;
    var n := |s| - 1;
    var front, last := Collect(p, g, s[..n]), Contribution(p, g, s[n]);
    CollectLast(p, g, s);
    CollectLast(p, g, s[i := x]);
    if i == n {
      assert s[i := x][..n] == s[..n];
      SwapSum(front, last, Contribution(p, g, x));
    } else {
      CollectUpdate(p, g, s[..n], i, x);
      assert s[i := x][..n] == s[..n][i := x];
      SwapSum(Collect(p, g, s[..n][i := x]), last, Contribution(p, g, s[i]));
      SwapSum(front, last, Contribution(p, g, x));
    }
  }

  lemma {:induction false} CollectWithin<T, U>(p: T -> bool, g: T -> U, s: seq<T>, values: seq<U>)
    requires |values| == |s|
    requires forall i | 0 <= i < |s| && p(s[i]) :: g(s[i]) == values[i]
    ensures Collect(p, g, s) <= multiset(values)
  {
    if s != [] {
      var n := |s| - 1;
      CollectWithin(p, g, s[..n], values[..n]);
      assert values == values[..n] + [values[n]];
    }
  }

  lemma {:induction false} CollectAll<T, U>(p: T -> bool, g: T -> U, s: seq<T>, values: seq<U>)
    requires |values| == |s|
    requires forall i | 0 <= i < |s| :: p(s[i]) && g(s[i]) == values[i]
    ensures Collect(p, g, s) == multiset(values)
  {
    if s != [] {
      var n := |s| - 1;
      CollectAll(p, g, s[..n], values[..n]);
      assert values == values[..n] + [values[n]];
    }
  }

  /** The sum of the values of a map. */
  ghost function SumValues<K>(m: map<K, nat>): nat {
    if m == map[] then 0
    else
      var k :| k in m;
      m[k] + SumValues(m - {k})
  }

  /** Any key can be taken out of the sum first. */
  lemma {:induction false} SumValuesAny<K>(m: map<K, nat>, k: K)
    requires k in m
    ensures SumValues(m) == m[k] + SumValues(m - {k})
  {
    var j :| j in m && SumValues(m) == m[j] + SumValues(m - {j});
    if j != k {
      SumValuesAny(m - {j}, k);
      SumValuesAny(m - {k}, j);
      assert m - {j} - {k} == m - {k} - {j};
    }
  }

  lemma SumValuesUpdate<K>(m: map<K, nat>, k: K, v: nat)
    ensures SumValues(m[k := v]) + (if k in m then m[k] else 0) == SumValues(m) + v
  {
    SumValuesAny(m[k := v], k);
    assert m[k := v] - {k} == m - {k};
    if k in m {
      SumValuesAny(m, k);
    } else {
      assert m - {k} == m;
    }
  }
}
