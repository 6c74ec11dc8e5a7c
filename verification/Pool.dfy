/** The upstream pool (internal/pool/pool.go): an ordered slice and a name index, updated in place. */
module Pool {
  import opened Config
  import opened HostPort
  import opened Options
  import opened Selection
  import opened Sequences

  class Upstream {
    const name: string
    const kind: string
    const addr: string
    const username: string
    const password: string
    var healthy: bool

    constructor (name: string, kind: string, addr: string, username: string, password: string)
      ensures this.name == name && this.kind == kind && this.addr == addr
      ensures this.username == username && this.password == password && !healthy
    {
      this.name, this.kind, this.addr := name, kind, addr;
      this.username, this.password := username, password;
      healthy := false;
    }

    function View(): UpstreamView
      reads this
    {
      UpstreamView(name, kind, addr, username, password, healthy)
    }

    /** One probe of the health checker; reachable is the outcome of its TCP dial. */
    method Probe(reachable: bool)
      modifies this`healthy
      ensures healthy == (kind == "direct" || reachable)
    {
      if kind == "direct" {
        healthy := true;
      } else {
        healthy := reachable;
      }
    }
  }

  /** What New makes of one configuration entry. */
  function ViewOfEntry(e: ProxyEntry): UpstreamView {
    UpstreamView(e.name, e.kind,
                 if e.kind != "direct" then JoinHostPort(e.server, IntText(e.port)) else "",
                 e.username, e.password, true)
  }

  function Views(ups: seq<Upstream>): (v: seq<UpstreamView>)
    reads ups
    ensures |v| == |ups| && forall i | 0 <= i < |ups| :: v[i] == ups[i].View()
  {
    seq(|ups|, i requires 0 <= i < |ups| reads ups => ups[i].View())
  }

  predicate UniqueNames(ups: seq<Upstream>) {
    forall i, j | 0 <= i < j < |ups| :: ups[i].name != ups[j].name
  }

  /** The index maps exactly the names of the upstreams to them. */
  ghost predicate Indexes(index: map<string, Upstream>, ups: seq<Upstream>) {
    && (forall u | u in ups :: u.name in index && index[u.name] == u)
    && (forall n | n in index :: index[n] in ups && index[n].name == n)
  }

  /** Every direct upstream is healthy. */
  ghost predicate DirectsHealthy(ups: seq<Upstream>)
    reads ups
  {
    forall u | u in ups && u.kind == "direct" :: u.healthy
  }

  /** Order-preserving removal by name. */
  function Without(ups: seq<Upstream>, name: string): seq<Upstream> {
    if ups == [] then []
    else if ups[0].name == name then ups[1..]
    else [ups[0]] + Without(ups[1..], name)
  }

  lemma {:induction false} WithoutAt(ups: seq<Upstream>, i: nat)
    requires i < |ups| && UniqueNames(ups)
    ensures Without(ups, ups[i].name) == ups[..i] + ups[i + 1..]
  {
    if i > 0 {
      WithoutAt(ups[1..], i - 1);
      assert ups[0].name != ups[i].name;
      assert [ups[0]] + (ups[1..][..i - 1] + ups[1..][i..]) == ups[..i] + ups[i + 1..];
    }
  }

  lemma {:induction false} WithoutMissing(ups: seq<Upstream>, name: string)
    requires forall u | u in ups :: u.name != name
    ensures Without(ups, name) == ups
  {
    if ups != [] {
      WithoutMissing(ups[1..], name);
    }
  }

  /** Deleting a name from the index matches deleting its upstream. */
  lemma RemovedIndex(ups: seq<Upstream>, i: nat, index: map<string, Upstream>)
    requires i < |ups| && UniqueNames(ups) && Indexes(index, ups)
    ensures UniqueNames(ups[..i] + ups[i + 1..])
    ensures Indexes(index - {ups[i].name}, ups[..i] + ups[i + 1..])
  {
  }

  /** Looking a name up in the index agrees with searching the list. */
  lemma NamedInPool(ups: seq<Upstream>, index: map<string, Upstream>, name: string)
    requires UniqueNames(ups) && Indexes(index, ups)
    ensures name in index <==> HasName(Views(ups), name)
    ensures name in index ==> Named(Views(ups), name) == index[name].View()
  {
  }

  class Pool {
    /** The slice p.all: its backing array and its length. */
    var all: array<Upstream>
    var len: nat
    var byName: map<string, Upstream>
    var strategy: string
    var pinned: string
    /** The uint64 round-robin counter. */
    var rrCounter: nat

    ghost function Contents(): (ups: seq<Upstream>)
      reads this, all
      requires len <= all.Length
    {
      all[..len]
    }

    ghost predicate Valid()
      reads this, all
    {
      && len <= all.Length
      && rrCounter < TICKETS
      && UniqueNames(Contents())
      && Indexes(byName, Contents())
    }

    /** The state Select reads. */
    ghost function View(): PoolView
      reads this, all, if len <= all.Length then all[..len] else []
      requires len <= all.Length
    {
      PoolView(Views(Contents()), strategy, pinned)
    }

    /** append(p.all, u): in place when there is room, else into a larger array. */
    method Append(u: Upstream)
      requires len <= all.Length
      modifies this`all, this`len, all
      ensures len <= all.Length && Contents() == old(Contents()) + [u]
      ensures all == old(all) || fresh(all)
    {
      if len == all.Length {
        var source := all;
        var bigger := new Upstream[2 * len + 1](i reads source => if 0 <= i < source.Length then source[i] else u);
        assert bigger[..len] == source[..len];
        all := bigger;
      }
      all[len] := u;
      len := len + 1;
    }

    constructor Empty(strategy: string)
      ensures this.strategy == strategy && pinned == "" && rrCounter == 0
      ensures Valid() && fresh(all) && Contents() == []
    {
      this.strategy, pinned, rrCounter, byName := strategy, "", 0, map[];
      all := new Upstream[0];
      len := 0;
    }

    /** Appends to the slice and enters the name into the index. */
    method Enter(u: Upstream)
      requires len <= all.Length
      modifies this`all, this`len, this`byName, all
      ensures len <= all.Length && (all == old(all) || fresh(all))
      ensures Contents() == old(Contents()) + [u]
      ensures byName == old(byName)[u.name := u]
      ensures old(Valid()) && u.name !in old(byName) ==> Valid()
    {
      ghost var before := Contents();
      Append(u);
      byName := byName[u.name := u];
      assert forall v | v in Contents() :: v in before || v == u;
      assert forall v | v in before :: v in Contents();
      assert u in Contents();
    }

    /** The pool after New has entered the first i entries. */
    ghost predicate Built(strategy: string, proxies: seq<ProxyEntry>, i: nat)
      reads this, all, if len <= all.Length then all[..len] else []
    {
      && len == i <= |proxies| && i <= all.Length
      && this.strategy == strategy && pinned == "" && rrCounter == 0
      && (forall k | 0 <= k < i :: Contents()[k].View() == ViewOfEntry(proxies[k]))
      && (NoDuplicates(Names(proxies)) ==> Valid())
    }

    /** The upstream of one entry. */
    static method FromEntry(e: ProxyEntry) returns (u: Upstream)
      ensures fresh(u) && u.View() == ViewOfEntry(e)
    {
      var addr := "";
      if e.kind != "direct" {
        addr := JoinHostPort(e.server, IntText(e.port));
      }
      u := new Upstream(e.name, e.kind, addr, e.username, e.password);
      u.healthy := true;
    }

    /** One round of the loop in New. */
    method EnterEntry(strategy: string, proxies: seq<ProxyEntry>, i: nat)
      requires i < |proxies| && Built(strategy, proxies, i)
      modifies this, all
      ensures Built(strategy, proxies, i + 1)
      ensures all == old(all) || fresh(all)
      ensures Contents()[..i] == old(Contents()) && fresh(Contents()[i])
    {
      hide Indexes, UniqueNames, JoinHostPort, IntText;
      var u := FromEntry(proxies[i]);
      ghost var before := Contents();
      NewName(this, proxies, i);
      Enter(u);
      assert Contents()[i] == u;
      forall k | 0 <= k < i
        ensures Contents()[k].View() == ViewOfEntry(proxies[k])
      {
        assert Contents()[k] == before[k];
      }
    }

    /** New: one healthy upstream per entry, in order; the index is sound when the names are unique. */
    static method New(strategy: string, proxies: seq<ProxyEntry>) returns (p: Pool)
      ensures fresh(p) && p.len <= p.all.Length && fresh(p.all) && fresh(p.Contents())
      ensures p.View() == PoolView(Map(ViewOfEntry, proxies), strategy, "") && p.rrCounter == 0
      ensures NoDuplicates(Names(proxies)) ==> p.Valid() && DirectsHealthy(p.Contents())
    {
      hide Indexes, UniqueNames, ViewOfEntry;
      p := new Pool.Empty(strategy);
      for i := 0 to |proxies|
        invariant fresh(p) && fresh(p.all) && p.Built(strategy, proxies, i) && fresh(p.Contents())
      {
        p.EnterEntry(strategy, proxies, i);
      }
      BuiltPool(p, strategy, proxies);
    }

    /** Add: refuses a name already present, else appends and marks healthy. */
    method Add(u: Upstream) returns (ok: bool)
      requires Valid()
      modifies this`all, this`len, this`byName, all, u`healthy
      ensures Valid() && (all == old(all) || fresh(all))
      ensures ok <==> forall v | v in old(Contents()) :: v.name != u.name
      ensures Contents() == if ok then old(Contents()) + [u] else old(Contents())
      ensures u.healthy == (ok || old(u.healthy))
    {
      if u.name in byName {
        return false;
      }
      u.healthy := true;
      Enter(u);
      return true;
    }

    /** Remove: deletes by name, shifting the rest of the slice down in place. */
    method Remove(name: string) returns (found: bool)
      requires Valid()
      modifies this`len, this`byName, all
      ensures Valid()
      ensures found <==> exists v :: v in old(Contents()) && v.name == name
      ensures Contents() == Without(old(Contents()), name)
    {
      ghost var before := Contents();
      if name !in byName {
        WithoutMissing(before, name);
        return false;
      }
      var u := byName[name];
      ghost var index := byName;
      byName := byName - {name};
      var i := Find(u);
      WithoutAt(before, i);
      ShiftDown(i);
      RemovedIndex(before, i, index);
      return true;
    }

    /** The position of an upstream in the slice. */
    method Find(u: Upstream) returns (i: nat)
      requires len <= all.Length && u in Contents()
      ensures i < len && all[i] == u
    {
      i := 0;
      while all[i] != u
        invariant i < len && u in all[i..len]
        decreases len - i
      {
        assert all[i..len] == [all[i]] + all[i + 1..len];
        i := i + 1;
      }
    }

    /** append(p.all[:i], p.all[i+1:]...): the tail moves one place down, in place. */
    method ShiftDown(i: nat)
      requires i < len <= all.Length
      modifies this`len, all
      ensures len == old(len) - 1 <= all.Length
      ensures Contents() == old(Contents())[..i] + old(Contents())[i + 1..]
    {
      ghost var before := Contents();
      var j := i;
      while j + 1 < len
        invariant i <= j < len == old(len) <= all.Length
        invariant forall k | 0 <= k < i || j <= k < len :: all[k] == before[k]
        invariant forall k | i <= k < j :: all[k] == before[k + 1]
      {
        all[j] := all[j + 1];
        j := j + 1;
      }
      len := len - 1;
    }

    /** List: a copy of the slice. */
    method List() returns (out: array<Upstream>)
      requires len <= all.Length
      ensures fresh(out) && out[..] == Contents()
    {
      var src := all;
      out := new Upstream[len](i requires 0 <= i < src.Length reads src => src[i]);
      assert out[..] == all[..len];
    }

    /** The healthy upstreams, or the whole slice when there is none. */
    method CollectCandidates() returns (healthy: seq<Upstream>)
      requires len <= all.Length
      ensures Views(healthy) == Candidates(View().all)
      ensures forall u | u in healthy :: u in Contents()
    {
      healthy := [];
      ghost var views := Views(Contents());
      for i := 0 to len
        invariant Views(healthy) == Filter(IsHealthy, views[..i])
        invariant forall u | u in healthy :: u in Contents()
      {
        assert views[..i + 1][..i] == views[..i];
        assert all[i] == Contents()[i];
        if all[i].healthy {
          healthy := healthy + [all[i]];
        }
      }
      assert views[..len] == views;
      if |healthy| == 0 {
        healthy := all[..len];
      }
    }

    /**
     * Select: picks what the specification says, as an upstream of the pool, and takes one ticket
     * exactly when the round-robin branch runs. draw stands for the random number, hash for FNV-1a.
     */
    method Select(preferred: string, key: string, draw: nat, hash: string -> nat)
      returns (up: Option<Upstream>, picked: Picked)
      requires Valid()
      modifies this`rrCounter
      ensures Valid()
      ensures picked == Selection.Select(old(View()), preferred, key, old(rrCounter), draw, hash)
      ensures up.Some? <==> picked.Picked?
      ensures up.Some? ==> up.value in Contents() && up.value.View() == picked.upstream
      ensures rrCounter == if TakesTicket(old(View()), preferred) then NextTicket(old(rrCounter)) else old(rrCounter)
    {
      var ticketed;
      up, picked, ticketed := Choose(preferred, key, draw, hash);
      if ticketed {
        rrCounter := NextTicket(rrCounter);
      }
    }

    /** The choice of Select at the current ticket, and whether it uses the ticket. */
    method Choose(preferred: string, key: string, draw: nat, hash: string -> nat)
      returns (up: Option<Upstream>, picked: Picked, ticketed: bool)
      requires Valid()
      ensures picked == Selection.Select(View(), preferred, key, rrCounter, draw, hash)
      ensures up.Some? <==> picked.Picked?
      ensures up.Some? ==> up.value in Contents() && up.value.View() == picked.upstream
      ensures ticketed <==> TakesTicket(View(), preferred)
    {
      ghost var v := View();
      if len == 0 {
        return None, EmptyPool, false;
      }
      assert v.all != [];
      var effective := preferred;
      if effective == "" && strategy == "name" && pinned != "" {
        effective := pinned;
      }
      if effective != "" {
        up, picked := Lookup(effective);
        return up, picked, false;
      }
      var healthy := CollectCandidates();
      var i := 0;
      match strategy {
        case "random" => i := draw % |healthy|;
        case "round-robin" => i := rrCounter % |healthy|;
        case "hash" => i := hash(if key == "" then "default" else key) % |healthy|;
        case _ =>
      }
      assert i == Position(strategy, key, rrCounter, draw, hash, |healthy|);
      return Some(healthy[i]), Picked(healthy[i].View()), strategy == "round-robin";
    }

    /** The pinned or preferred branch of Select. */
    method Lookup(name: string) returns (up: Option<Upstream>, picked: Picked)
      requires Valid()
      ensures picked == if HasName(View().all, name) then Picked(Named(View().all, name)) else NotInPool(name)
      ensures up.Some? <==> picked.Picked?
      ensures up.Some? ==> up.value in Contents() && up.value.View() == picked.upstream
    {
      NamedInPool(Contents(), byName, name);
      if name in byName {
        return Some(byName[name]), Picked(byName[name].View());
      }
      return None, NotInPool(name);
    }
  }

  // ----- Runs -----

  /** One step that changes a pool or the health of an upstream. */
  datatype Op = AddOp(u: Upstream) | RemoveOp(name: string) | ProbeOp(u: Upstream, reachable: bool)

  predicate HasUpstream(ups: seq<Upstream>, name: string) {
    exists v :: v in ups && v.name == name
  }

  function After(ups: seq<Upstream>, op: Op): seq<Upstream> {
    match op
    case AddOp(u) => if HasUpstream(ups, u.name) then ups else ups + [u]
    case RemoveOp(name) => Without(ups, name)
    case ProbeOp(_, _) => ups
  }

  function AfterAll(ups: seq<Upstream>, ops: seq<Op>): seq<Upstream> {
    if ops == [] then ups else After(AfterAll(ups, ops[..|ops| - 1]), ops[|ops| - 1])
  }

  /** The upstreams whose health a run may set. */
  function Touched(ops: seq<Op>): set<Upstream> {
    set op | op in ops && !op.RemoveOp? :: op.u
  }

  lemma {:induction false} WithoutMembers(ups: seq<Upstream>, name: string)
    ensures forall u | u in Without(ups, name) :: u in ups
  {
    if ups != [] {
      WithoutMembers(ups[1..], name);
    }
  }

  method Do(p: Pool, op: Op)
    requires p.Valid() && DirectsHealthy(p.Contents())
    modifies p, p.all, (if op.RemoveOp? then {} else {op.u})`healthy
    ensures p.Valid() && DirectsHealthy(p.Contents())
    ensures p.all == old(p.all) || fresh(p.all)
    ensures p.Contents() == After(old(p.Contents()), op)
  {
    hide Indexes, UniqueNames;
    ghost var before := p.Contents();
    match op {
      case AddOp(u) =>
        var _ := p.Add(u);
      case RemoveOp(name) =>
        var _ := p.Remove(name);
        WithoutMembers(before, name);
      case ProbeOp(u, reachable) => u.Probe(reachable);
    }
  }

  /**
   * Every run keeps the names unique and the index exact, keeps every direct upstream healthy, gives
   * the contents of the list specification, and leaves alone any slice List returned before.
   */
  method Run(p: Pool, ops: seq<Op>, listed: array<Upstream>)
    requires p.Valid() && DirectsHealthy(p.Contents()) && listed != p.all
    modifies p, p.all, Touched(ops)`healthy
    ensures p.Valid() && DirectsHealthy(p.Contents()) && listed != p.all
    ensures p.Contents() == AfterAll(old(p.Contents()), ops)
    ensures listed[..] == old(listed[..])
  {
    for i := 0 to |ops|
      invariant p.Valid() && DirectsHealthy(p.Contents())
      invariant p.all == old(p.all) || fresh(p.all)
      invariant p.Contents() == AfterAll(old(p.Contents()), ops[..i])
      invariant listed[..] == old(listed[..])
    {
      assert ops[..i + 1][..i] == ops[..i] && ops[i] in ops;
      Do(p, ops[i]);
    }
    assert ops[..|ops|] == ops;
  }

  /** A pool from a valid configuration meets the conditions of Run. */
  method Start(strategy: string, proxies: seq<ProxyEntry>) returns (p: Pool)
    requires ValidProxies(proxies)
    ensures fresh(p) && p.Valid() && DirectsHealthy(p.Contents())
    ensures p.View() == PoolView(Map(ViewOfEntry, proxies), strategy, "")
  {
    p := Pool.New(strategy, proxies);
  }

  /** What New has made in the end. */
  lemma BuiltPool(p: Pool, strategy: string, proxies: seq<ProxyEntry>)
    requires p.len <= p.all.Length && p.Built(strategy, proxies, |proxies|)
    ensures p.View() == PoolView(Map(ViewOfEntry, proxies), strategy, "") && p.rrCounter == 0
    ensures NoDuplicates(Names(proxies)) ==> p.Valid() && DirectsHealthy(p.Contents())
  {
    assert Views(p.Contents()) == Map(ViewOfEntry, proxies);
    assert forall k | 0 <= k < p.len :: p.Contents()[k].View().healthy;
  }

  /** With distinct names, the next entry's name is not in the index yet. */
  lemma NewName(p: Pool, proxies: seq<ProxyEntry>, i: nat)
    requires p.len == i < |proxies| && i <= p.all.Length
    requires forall k | 0 <= k < i :: p.all[k].name == proxies[k].name
    ensures NoDuplicates(Names(proxies)) && p.Valid() ==> proxies[i].name !in p.byName
  {
  }
}
