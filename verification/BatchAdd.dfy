/** Putting a batch of validated proxies into the pool (internal/api/api.go). */
module BatchAdd {
  import opened DecimalText
  import opened Pool
  import opened Selection
  import opened Sequences
  import JsonPath

  /** strings.Replace with count 1, for single characters. */
  function ReplaceFirst(s: string, from: char, to: char): string {
    if s == "" then ""
    else if s[0] == from then [to] + s[1..]
    else [s[0]] + ReplaceFirst(s[1..], from, to)
  }

  /** Exactly the first occurrence, if any, is replaced. */
  lemma {:induction false} ReplaceFirstMeaning(a: string, b: string, from: char, to: char)
    requires from !in a
    ensures ReplaceFirst(a, from, to) == a && ReplaceFirst(a + [from] + b, from, to) == a + [to] + b
  {
    if a == "" {
      assert (a + [from] + b)[1..] == b;
    } else {
      ReplaceFirstMeaning(a[1..], b, from, to);
      assert (a + [from] + b)[1..] == a[1..] + [from] + b;
    }
  }

  /** The name under which a proxy is offered; prefix is "dynamic" or "free". */
  function OfferedName(prefix: string, e: JsonPath.ProxyEntry): string {
    prefix + "-" + e.kind + "-" + ReplaceFirst(e.addr, ':', '-')
  }

  /** The second name tried; clock stands for the nanosecond clock. */
  function SuffixedName(prefix: string, e: JsonPath.ProxyEntry, clock: nat): string {
    OfferedName(prefix, e) + "-" + Decimal(clock % 1000)
  }

  function AddedAs(name: string, e: JsonPath.ProxyEntry): UpstreamView {
    UpstreamView(name, e.kind, e.addr, "", "", true)
  }

  function ViewNames(all: seq<UpstreamView>): set<string> {
    set u | u in all :: u.name
  }

  /** What offering one proxy appends to the pool. */
  function AddedOne(all: seq<UpstreamView>, prefix: string, e: JsonPath.ProxyEntry, clock: nat)
    : (added: seq<UpstreamView>)
    ensures |added| <= 1
  {
    var first, second := OfferedName(prefix, e), SuffixedName(prefix, e, clock);
    if first !in ViewNames(all) then [AddedAs(first, e)]
    else if second !in ViewNames(all) then [AddedAs(second, e)]
    else []
  }

  /** The pool after offering every proxy of the batch in turn. */
  function AfterBatch(all: seq<UpstreamView>, prefix: string, es: seq<JsonPath.ProxyEntry>, clocks: seq<nat>)
    : seq<UpstreamView>
    requires |clocks| == |es|
  {
    if es == [] then all
    else
      var n := |es| - 1;
      var before := AfterBatch(all, prefix, es[..n], clocks[..n]);
      before + AddedOne(before, prefix, es[n], clocks[n])
  }

  /** The positions in the batch of the proxies that enter, in order. */
  function Entrants(all: seq<UpstreamView>, prefix: string, es: seq<JsonPath.ProxyEntry>, clocks: seq<nat>): seq<nat>
    requires |clocks| == |es|
  {
    if es == [] then []
    else
      var n := |es| - 1;
      var before := AfterBatch(all, prefix, es[..n], clocks[..n]);
      Entrants(all, prefix, es[..n], clocks[..n])
      + (if AddedOne(before, prefix, es[n], clocks[n]) == [] then [] else [n])
  }

  /** u is proxy e, without credentials and healthy, under its own name or the suffixed one. */
  predicate Becomes(prefix: string, e: JsonPath.ProxyEntry, clock: nat, u: UpstreamView) {
    var name := prefix + "-" + e.kind + "-" + ReplaceFirst(e.addr, ':', '-');
    && u.kind == e.kind && u.addr == e.addr && u.username == "" && u.password == "" && u.healthy
    && (u.name == name || u.name == name + "-" + Decimal(clock % 1000))
  }

  lemma AddedOneMeaning(all: seq<UpstreamView>, prefix: string, e: JsonPath.ProxyEntry, clock: nat)
    ensures forall u | u in AddedOne(all, prefix, e, clock) :: Becomes(prefix, e, clock, u) && u.name !in ViewNames(all)
  {
  }

  lemma UniqueSnoc(all: seq<UpstreamView>, added: seq<UpstreamView>)
    requires UniqueViews(all) && |added| <= 1 && forall u | u in added :: u.name !in ViewNames(all)
    ensures UniqueViews(all + added)
  {
    assert forall i | 0 <= i < |all| :: all[i] in all && all[i].name in ViewNames(all);
    assert forall i | 0 <= i < |added| :: added[i] in added;
  }

  /**
   * A batch keeps the pool and appends upstreams with names of their own. They are made from proxies of the
   * batch in its order, each proxy used once at most.
   */
  lemma {:induction false} BatchAppends(
    all: seq<UpstreamView>, prefix: string, es: seq<JsonPath.ProxyEntry>, clocks: seq<nat>)
    requires |clocks| == |es| && UniqueViews(all)
    ensures var after, used := AfterBatch(all, prefix, es, clocks), Entrants(all, prefix, es, clocks);
            && all <= after && UniqueViews(after) && |after| == |all| + |used|
            && (forall j | 0 <= j < |used| ::
                  used[j] < |es| && Becomes(prefix, es[used[j]], clocks[used[j]], after[|all| + j]))
            && (forall j, k | 0 <= j < k < |used| :: used[j] < used[k])
  {
    hide AddedOne, ViewNames, UniqueViews, Becomes;
    if es != [] {
      var n := |es| - 1;
      var before := AfterBatch(all, prefix, es[..n], clocks[..n]);
      BatchAppends(all, prefix, es[..n], clocks[..n]);
      AddedOneMeaning(before, prefix, es[n], clocks[n]);
      UniqueSnoc(before, AddedOne(before, prefix, es[n], clocks[n]));
    }
  }

  lemma FreshOne(all: seq<UpstreamView>, prefix: string, e: JsonPath.ProxyEntry, clock: nat)
    requires OfferedName(prefix, e) !in ViewNames(all)
    ensures AddedOne(all, prefix, e, clock) == [AddedAs(OfferedName(prefix, e), e)]
  {
  }

  lemma NotAmong(all: seq<UpstreamView>, added: seq<UpstreamView>, name: string)
    requires name !in ViewNames(all) && forall u | u in added :: u.name != name
    ensures name !in ViewNames(all + added)
  {
  }

  /** The upstreams that the batch makes under the offered names. */
  function AllAdded(prefix: string, es: seq<JsonPath.ProxyEntry>): (all: seq<UpstreamView>)
    ensures |all| == |es| && forall i | 0 <= i < |es| :: all[i] == AddedAs(OfferedName(prefix, es[i]), es[i])
  {
    seq(|es|, i requires 0 <= i < |es| => AddedAs(OfferedName(prefix, es[i]), es[i]))
  }

  /** When the offered names are distinct and new to the pool, the whole batch enters under them, in order. */
  lemma {:induction false} FreshBatchEntersWhole(
    all: seq<UpstreamView>, prefix: string, es: seq<JsonPath.ProxyEntry>, clocks: seq<nat>)
    requires |clocks| == |es|
    requires forall i, j | 0 <= i < j < |es| :: OfferedName(prefix, es[i]) != OfferedName(prefix, es[j])
    requires forall e | e in es :: OfferedName(prefix, e) !in ViewNames(all)
    ensures AfterBatch(all, prefix, es, clocks) == all + AllAdded(prefix, es)
  {
    hide OfferedName, AddedOne, ViewNames;
    if es != [] {
      var n := |es| - 1;
      var before := AllAdded(prefix, es[..n]);
      assert forall e | e in es[..n] :: e in es;
      FreshBatchEntersWhole(all, prefix, es[..n], clocks[..n]);
      assert es[n] in es;
      NotAmong(all, before, OfferedName(prefix, es[n]));
      FreshOne(all + before, prefix, es[n], clocks[n]);
      assert AllAdded(prefix, es) == before + [AddedAs(OfferedName(prefix, es[n]), es[n])];
      Associative(all, before, [AddedAs(OfferedName(prefix, es[n]), es[n])]);
    } else {
      assert all + AllAdded(prefix, es) == all;
    }
  }

  lemma NamesOfViews(ups: seq<Upstream>, name: string)
    ensures name !in ViewNames(Views(ups)) <==> forall u | u in ups :: u.name != name
  {
  }

  lemma ViewsSnoc(ups: seq<Upstream>, up: Upstream)
    ensures Views(ups + [up]) == Views(ups) + [up.View()]
  {
  }

  method Offer(p: Pool, name: string, e: JsonPath.ProxyEntry) returns (ok: bool)
    requires p.Valid()
    modifies p`all, p`len, p`byName, p.all
    ensures p.Valid() && (p.all == old(p.all) || fresh(p.all))
    ensures ok <==> name !in ViewNames(old(p.View().all))
    ensures p.View().all == if ok then old(p.View().all) + [AddedAs(name, e)] else old(p.View().all)
  {
    hide ViewNames, Indexes, UniqueNames;
    ghost var ups, views := p.Contents(), p.View().all;
    NamesOfViews(ups, name);
    var up := new Upstream(name, e.kind, e.addr, "", "");
    ok := p.Add(up);
    assert Views(ups) == views;
    ViewsSnoc(ups, up);
  }

  /** One round of the loop: the offered name, then the suffixed one. */
  method OfferOne(p: Pool, prefix: string, e: JsonPath.ProxyEntry, clock: nat) returns (ok: bool)
    requires p.Valid()
    modifies p`all, p`len, p`byName, p.all
    ensures p.Valid() && (p.all == old(p.all) || fresh(p.all))
    ensures p.View().all == old(p.View().all) + AddedOne(old(p.View().all), prefix, e, clock)
    ensures ok <==> AddedOne(old(p.View().all), prefix, e, clock) != []
    ensures p.strategy == old(p.strategy) && p.pinned == old(p.pinned)
  {
    hide OfferedName, SuffixedName, ViewNames;
    ok := Offer(p, OfferedName(prefix, e), e);
    if !ok {
      ok := Offer(p, SuffixedName(prefix, e, clock), e);
    }
  }

  /** handlePoolAdd and the auto-add step: offers every proxy and counts the ones that entered. */
  method AddBatch(p: Pool, prefix: string, es: seq<JsonPath.ProxyEntry>, clocks: seq<nat>) returns (added: nat)
    requires p.Valid() && |clocks| == |es|
    modifies p`all, p`len, p`byName, p.all
    ensures p.Valid()
    ensures p.View().all == AfterBatch(old(p.View().all), prefix, es, clocks)
    ensures |p.View().all| == |old(p.View().all)| + added
  {
    added := 0;
    ghost var before := p.View().all;
    for i := 0 to |es|
      invariant p.Valid() && (p.all == old(p.all) || fresh(p.all))
      invariant p.View().all == AfterBatch(before, prefix, es[..i], clocks[..i])
      invariant |p.View().all| == |before| + added
    {
      assert es[..i + 1][..i] == es[..i] && clocks[..i + 1][..i] == clocks[..i];
      var ok := OfferOne(p, prefix, es[i], clocks[i]);
      if ok {
        added := added + 1;
      }
    }
    assert es[..|es|] == es && clocks[..|es|] == clocks;
  }
}
