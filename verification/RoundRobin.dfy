/** The round-robin tickets of Pool.Select (internal/pool/pool.go): a uint64 counter, taken modulo the healthy list. */
module RoundRobin {
  import opened Arithmetic
  import opened Selection

  /** The ticket drawn after k earlier draws, with the 64-bit wrap-around. */
  function TicketAt(t: nat, k: nat): (n: nat)
    ensures n < TICKETS
  {
    (t + k) % TICKETS
  }

  /** The position that ticket picks among h candidates. */
  function PositionAt(t: nat, k: nat, h: nat): (i: nat)
    requires h > 0
    ensures i < h
  {
    TicketAt(t, k) % h
  }

  lemma TicketNext(t: nat, k: nat)
    requires t < TICKETS
    ensures TicketAt(t, 0) == t
    ensures NextTicket(TicketAt(t, k)) == TicketAt(t, k + 1)
  {
  }

  lemma TicketUnwrapped(t: nat, k: nat)
    requires t + k < TICKETS
    ensures TicketAt(t, k) == t + k
  {
  }

  lemma TicketWrapped(t: nat, k: nat)
    requires TICKETS <= t + k < 2 * TICKETS
    ensures TicketAt(t, k) == t + k - TICKETS
  {
  }

  /** How far the first ticket that picks position i of h is from t. */
  function FirstHit(t: nat, h: nat, i: nat): (k: nat)
    requires i < h
    ensures k < h
  {
    (i + h - t % h) % h
  }

  /** Without a wrap, position i is picked exactly by the offsets that agree with the first hit modulo h. */
  lemma HitsOf(t: nat, h: nat, i: nat, k: nat)
    requires i < h
    ensures (t + k) % h == i <==> k % h == FirstHit(t, h, i)
  {
    var f, a := FirstHit(t, h, i), t % h;
    var b := k % h;
    if a <= i {
      DivModUnique(i + h - a, 1, i - a, h);
    } else {
      DivModUnique(i + h - a, 0, i + h - a, h);
    }
    assert t + k == (t / h + k / h) * h + (a + b);
    if a + b < h {
      DivModUnique(t + k, t / h + k / h, a + b, h);
    } else {
      assert t + k == (t / h + k / h + 1) * h + (a + b - h);
      DivModUnique(t + k, t / h + k / h + 1, a + b - h, h);
    }
  }

  lemma FirstHitHits(t: nat, h: nat, i: nat)
    requires i < h
    ensures (t + FirstHit(t, h, i)) % h == i
  {
    DivModUnique(FirstHit(t, h, i), 0, FirstHit(t, h, i), h);
    HitsOf(t, h, i, FirstHit(t, h, i));
  }

  lemma FirstHitFromZero(h: nat, i: nat)
    requires i < h
    ensures FirstHit(0, h, i) == i
  {
    DivModUnique(0, 0, 0, h);
    DivModUnique(i + h, 1, i, h);
  }

  /** When h divides 2^64, the wrap-around does not show. */
  lemma WrapInvisible(t: nat, k: nat, h: nat)
    requires h > 0 && TICKETS % h == 0
    ensures PositionAt(t, k, h) == (t + k) % h
  {
    var q, r, c := (t + k) / TICKETS, (t + k) % TICKETS, TICKETS / h;
    assert t + k == r + (q * c) * h by {
      assert (q * c) * h == q * (c * h);
    }
    ModShift(r, q * c, h);
  }

  // ----- Coverage -----

  /**
   * h + 2^64 mod h consecutive tickets pick every position among h candidates, even across the wrap-around.
   * That is never more than 2h - 1.
   */
  lemma EveryPosition(t: nat, h: nat, i: nat) returns (k: nat)
    requires t < TICKETS && i < h <= TICKETS
    ensures k < h + TICKETS % h && PositionAt(t, k, h) == i
  {
    var r, q := TICKETS % h, TICKETS / h;
    var before := TICKETS - t;
    if h <= before {
      k := FirstHit(t, h, i);
      FirstHitHits(t, h, i);
      TicketUnwrapped(t, k);
    } else if before + i < h + r {
      k := before + i;
      TicketWrapped(t, k);
      DivModUnique(i, 0, i, h);
    } else {
      k := before + i - h - r;
      TicketUnwrapped(t, k);
      assert t + k == (q - 1) * h + i by {
        assert TICKETS == q * h + r;
        assert (q - 1) * h == q * h - h;
      }
      DivModUnique(t + k, q - 1, i, h);
    }
  }

  /** Some of the m tickets drawn from t on picks position i. */
  ghost predicate Reaches(t: nat, m: nat, h: nat, i: nat)
    requires h > 0
  {
    exists k | 0 <= k < m :: PositionAt(t, k, h) == i
  }

  /** The positions of the last few tickets before the wrap-around and of those after it. */
  lemma AroundTheWrap(h: nat, k: nat)
    requires 0 < h <= TICKETS && k < h + TICKETS % h
    ensures var r := TICKETS % h; PositionAt(TICKETS - r, k, h) == if k < r then k else k - r
  {
    var r, q := TICKETS % h, TICKETS / h;
    assert TICKETS - r == q * h;
    if k < r {
      TicketUnwrapped(TICKETS - r, k);
      DivModUnique(TICKETS - r + k, q, k, h);
    } else {
      TicketWrapped(TICKETS - r, k);
      DivModUnique(k - r, 0, k - r, h);
    }
  }

  /** Fewer tickets miss the last position from some start. */
  lemma TooFewTickets(h: nat, m: nat) returns (t: nat)
    requires 0 < h <= TICKETS && m < h + TICKETS % h
    ensures t < TICKETS && !Reaches(t, m, h, h - 1)
  {
    var r := TICKETS % h;
    t := if r == 0 then 0 else TICKETS - r;
    forall k: nat | k < m
      ensures PositionAt(t, k, h) != h - 1
    {
      if r == 0 {
        TicketUnwrapped(t, k);
        DivModUnique(k, 0, k, h);
      } else {
        AroundTheWrap(h, k);
      }
    }
  }

  /** The exact number: m consecutive tickets always reach all h positions when m is at least h + 2^64 mod h. */
  lemma TicketsNeeded(h: nat, m: nat)
    requires 0 < h <= TICKETS
    ensures (forall t: nat, i: nat | t < TICKETS && i < h :: Reaches(t, m, h, i)) <==> m >= h + TICKETS % h
  {
    if m >= h + TICKETS % h {
      forall t: nat, i: nat | t < TICKETS && i < h
        ensures Reaches(t, m, h, i)
      {
        var k := EveryPosition(t, h, i);
      }
    } else {
      var t := TooFewTickets(h, m);
      assert !Reaches(t, m, h, h - 1);
    }
  }

  /** So 2h - 1 tickets can be needed: 274177 divides 2^64 + 1. */
  lemma TightInstance(m: nat)
    ensures (forall t: nat, i: nat | t < TICKETS && i < 274177 :: Reaches(t, m, 274177, i)) <==> m >= 2 * 274177 - 1
  {
    assert TICKETS % 274177 == 274177 - 1;
    TicketsNeeded(274177, m);
  }

  // ----- Fairness -----

  /** How many of the m tickets drawn from t on pick position i of h. */
  function Hits(t: nat, m: nat, h: nat, i: nat): nat
    requires i < h
  {
    if m == 0 then 0 else Hits(t, m - 1, h, i) + (if PositionAt(t, m - 1, h) == i then 1 else 0)
  }

  /** Position i gets floor(m/h) or ceil(m/h) of the m tickets. */
  predicate Fair(t: nat, m: nat, h: nat, i: nat)
    requires i < h
  {
    m / h <= Hits(t, m, h, i) <= (m + h - 1) / h
  }

  lemma StepOfQuotient(k: nat, f: nat, h: nat)
    requires f < h
    ensures (k + h - f) / h == (k + h - 1 - f) / h + (if k % h == f then 1 else 0)
  {
    var q, r := k / h, k % h;
    assert k == q * h + r;
    if r >= f {
      assert k + h - f == (q + 1) * h + (r - f);
      DivModUnique(k + h - f, q + 1, r - f, h);
      if r == f {
        DivModUnique(k + h - 1 - f, q, h - 1, h);
      } else {
        DivModUnique(k + h - 1 - f, q + 1, r - f - 1, h);
      }
    } else {
      DivModUnique(k + h - f, q, r + h - f, h);
      DivModUnique(k + h - 1 - f, q, r + h - f - 1, h);
    }
  }

  /** In a window without a visible wrap, the count in closed form. */
  lemma {:induction false} HitsClosedForm(t: nat, m: nat, h: nat, i: nat)
    requires i < h && (t + m <= TICKETS || TICKETS % h == 0)
    ensures Hits(t, m, h, i) == (m + h - 1 - FirstHit(t, h, i)) / h
  {
    var f := FirstHit(t, h, i);
    if m == 0 {
      DivModUnique(h - 1 - f, 0, h - 1 - f, h);
    } else {
      HitsClosedForm(t, m - 1, h, i);
      if TICKETS % h == 0 {
        WrapInvisible(t, m - 1, h);
      } else {
        TicketUnwrapped(t, m - 1);
      }
      HitsOf(t, h, i, m - 1);
      StepOfQuotient(m - 1, f, h);
    }
  }

  /** Over m tickets without a visible wrap, each of h positions is picked floor(m/h) or ceil(m/h) times. */
  lemma Fairness(t: nat, m: nat, h: nat, i: nat)
    requires i < h && (t + m <= TICKETS || TICKETS % h == 0)
    ensures Fair(t, m, h, i)
  {
    HitsClosedForm(t, m, h, i);
    DivMonotone(m, m + h - 1 - FirstHit(t, h, i), h);
    DivMonotone(m + h - 1 - FirstHit(t, h, i), m + h - 1, h);
  }

  lemma TicketFurther(t: nat, a: nat, b: nat)
    ensures TicketAt(TicketAt(t, a), b) == TicketAt(t, a + b)
  {
    var q, r := (t + a) / TICKETS, (t + a) % TICKETS;
    assert t + (a + b) == (r + b) + q * TICKETS;
    ModShift(r + b, q, TICKETS);
  }

  /** A window splits into two, the second starting at the ticket after the first. */
  lemma {:induction false} HitsSplit(t: nat, a: nat, b: nat, h: nat, i: nat)
    requires i < h
    ensures Hits(t, a + b, h, i) == Hits(t, a, h, i) + Hits(TicketAt(t, a), b, h, i)
  {
    if b > 0 {
      HitsSplit(t, a, b - 1, h, i);
      TicketFurther(t, a, b - 1);
    }
  }

  /** Across the wrap-around the count is that of the tickets before it plus that of the tickets after it. */
  lemma HitsAcrossWrap(t: nat, m: nat, h: nat, i: nat)
    requires i < h && t < TICKETS < t + m <= 2 * TICKETS
    ensures var before, after := TICKETS - t, t + m - TICKETS;
            Hits(t, m, h, i) == (before + h - 1 - FirstHit(t, h, i)) / h + (after + h - 1 - i) / h
  {
    var before, after := TICKETS - t, t + m - TICKETS;
    assert TicketAt(t, before) == 0 && before + after == m;
    hide Hits, TicketAt;
    HitsSplit(t, before, after, h, i);
    HitsClosedForm(t, before, h, i);
    HitsClosedForm(0, after, h, i);
    FirstHitFromZero(h, i);
  }

  lemma {:induction false} HitsAtLeastOne(t: nat, m: nat, h: nat, i: nat)
    requires i < h && m > 0 && PositionAt(t, 0, h) == i
    ensures Hits(t, m, h, i) >= 1
  {
    if m > 1 {
      HitsAtLeastOne(t, m - 1, h, i);
    }
  }

  /** Every window of tickets is fair to every position exactly when h divides 2^64. */
  lemma FairnessExact(h: nat)
    requires 0 < h <= TICKETS
    ensures (forall t: nat, m: nat, i: nat | t < TICKETS && i < h :: Fair(t, m, h, i)) <==> TICKETS % h == 0
  {
    var r := TICKETS % h;
    if r == 0 {
      forall t: nat, m: nat, i: nat | t < TICKETS && i < h
        ensures Fair(t, m, h, i)
      {
        Fairness(t, m, h, i);
      }
    } else {
      var t := TICKETS - r;
      AroundTheWrap(h, 0);
      AroundTheWrap(h, r);
      HitsAtLeastOne(t, r, h, 0);
      assert Hits(t, r + 1, h, 0) >= 2;
      DivModUnique(r + h, 1, r, h);
      assert !Fair(t, r + 1, h, 0);
    }
  }

  // ----- Fairness of Select -----

  /** One call of Select without a preferred name; a round-robin call draws a ticket. */
  datatype Call = Call(caller: nat, key: string, draw: nat)

  /** What call j picks when the calls draw consecutive tickets from t on. */
  function PickOf(v: PoolView, hash: string -> nat, t: nat, calls: seq<Call>, j: nat): Picked
    requires j < |calls|
  {
    Select(v, "", calls[j].key, TicketAt(t, j), calls[j].draw, hash)
  }

  /** How many of the calls pick u. */
  function Picks(v: PoolView, hash: string -> nat, t: nat, calls: seq<Call>, u: UpstreamView): nat {
    if calls == [] then 0
    else
      var m := |calls| - 1;
      Picks(v, hash, t, calls[..m], u) + (if PickOf(v, hash, t, calls, m) == Picked(u) then 1 else 0)
  }

  /** How often caller c is given u. */
  function Share(v: PoolView, hash: string -> nat, t: nat, calls: seq<Call>, u: UpstreamView, c: nat): nat {
    if calls == [] then 0
    else
      var m := |calls| - 1;
      Share(v, hash, t, calls[..m], u, c) +
      (if calls[m].caller == c && PickOf(v, hash, t, calls, m) == Picked(u) then 1 else 0)
  }

  /** How often the callers below n are given u. */
  function TotalShare(v: PoolView, hash: string -> nat, t: nat, calls: seq<Call>, u: UpstreamView, n: nat): nat {
    if n == 0 then 0 else TotalShare(v, hash, t, calls, u, n - 1) + Share(v, hash, t, calls, u, n - 1)
  }

  lemma {:induction false} TotalShareSnoc(
    v: PoolView, hash: string -> nat, t: nat, calls: seq<Call>, u: UpstreamView, n: nat)
    requires calls != []
    ensures var m := |calls| - 1;
            TotalShare(v, hash, t, calls, u, n) == TotalShare(v, hash, t, calls[..m], u, n)
              + (if calls[m].caller < n && PickOf(v, hash, t, calls, m) == Picked(u) then 1 else 0)
  {
    hide PickOf;
    if n > 0 {
      TotalShareSnoc(v, hash, t, calls, u, n - 1);
    }
  }

  lemma {:induction false} NoCalls(v: PoolView, hash: string -> nat, t: nat, u: UpstreamView, n: nat)
    ensures TotalShare(v, hash, t, [], u, n) == 0
  {
    if n > 0 {
      NoCalls(v, hash, t, u, n - 1);
    }
  }

  /** However the tickets are split among concurrent callers, their shares of an upstream add up to its picks. */
  lemma {:induction false} SharesAddUp(
    v: PoolView, hash: string -> nat, t: nat, calls: seq<Call>, u: UpstreamView, n: nat)
    requires forall j | 0 <= j < |calls| :: calls[j].caller < n
    ensures TotalShare(v, hash, t, calls, u, n) == Picks(v, hash, t, calls, u)
  {
    hide PickOf;
    if calls == [] {
      NoCalls(v, hash, t, u, n);
    } else {
      TotalShareSnoc(v, hash, t, calls, u, n);
      SharesAddUp(v, hash, t, calls[..|calls| - 1], u, n);
    }
  }

  lemma PickIsPosition(v: PoolView, hash: string -> nat, t: nat, calls: seq<Call>, j: nat)
    requires v.strategy == "round-robin" && v.all != [] && j < |calls|
    ensures var c := Candidates(v.all); PickOf(v, hash, t, calls, j) == Picked(c[PositionAt(t, j, |c|)])
  {
    hide Candidates, TicketAt;
  }

  lemma PicksLast(v: PoolView, hash: string -> nat, t: nat, calls: seq<Call>, i: nat)
    requires v.strategy == "round-robin" && UniqueViews(v.all) && v.all != [] && i < |Candidates(v.all)| && calls != []
    ensures var c, m := Candidates(v.all), |calls| - 1;
            Picks(v, hash, t, calls, c[i]) ==
            Picks(v, hash, t, calls[..m], c[i]) + (if PositionAt(t, m, |c|) == i then 1 else 0)
  {
    var c, m := Candidates(v.all), |calls| - 1;
    CandidatesUnique(v.all);
    PickIsPosition(v, hash, t, calls, m);
    hide Candidates, PickOf, PositionAt;
    var p := PositionAt(t, m, |c|);
    assert p != i ==> c[p].name != c[i].name;
  }

  /** Under round-robin, the calls that pick candidate i are those whose ticket picks position i. */
  lemma {:induction false} PicksAreHits(v: PoolView, hash: string -> nat, t: nat, calls: seq<Call>, i: nat)
    requires v.strategy == "round-robin" && UniqueViews(v.all) && v.all != [] && i < |Candidates(v.all)|
    ensures Picks(v, hash, t, calls, Candidates(v.all)[i]) == Hits(t, |calls|, |Candidates(v.all)|, i)
  {
    hide Candidates, PickOf, PositionAt;
    if calls != [] {
      PicksAreHits(v, hash, t, calls[..|calls| - 1], i);
      PicksLast(v, hash, t, calls, i);
      hide Picks;
    }
  }

  /** In any interleaving of callers, each candidate is picked floor(m/h) or ceil(m/h) times in all. */
  lemma FairAmongCallers(v: PoolView, hash: string -> nat, t: nat, calls: seq<Call>, u: UpstreamView, n: nat)
    requires v.strategy == "round-robin" && UniqueViews(v.all) && u in Candidates(v.all)
    requires forall j | 0 <= j < |calls| :: calls[j].caller < n
    requires t + |calls| <= TICKETS || TICKETS % |Candidates(v.all)| == 0
    ensures var m, h := |calls|, |Candidates(v.all)|;
            m / h <= TotalShare(v, hash, t, calls, u, n) <= (m + h - 1) / h
  {
    var c := Candidates(v.all);
    assert v.all != [];
    hide Candidates;
    var i: nat :| i < |c| && c[i] == u;
    SharesAddUp(v, hash, t, calls, u, n);
    PicksAreHits(v, hash, t, calls, i);
    Fairness(t, |calls|, |c|, i);
  }
}
