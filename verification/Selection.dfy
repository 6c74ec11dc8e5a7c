/** Which upstream Pool.Select picks (internal/pool/pool.go), as a function of what it reads. */
module Selection {
  import opened Sequences

  /** The number of values of the uint64 ticket counter. */
  const TICKETS: nat := 0x1_0000_0000_0000_0000

  function NextTicket(t: nat): (n: nat)
    requires t < TICKETS
    ensures n < TICKETS
  {
    if t + 1 == TICKETS then 0 else t + 1
  }

  datatype UpstreamView = UpstreamView(
    name: string, kind: string, addr: string, username: string, password: string, healthy: bool)

  datatype Picked = Picked(upstream: UpstreamView) | EmptyPool | NotInPool(name: string)

  datatype PoolView = PoolView(all: seq<UpstreamView>, strategy: string, pinned: string)

  predicate IsHealthy(u: UpstreamView) {
    u.healthy
  }

  /** The healthy upstreams, or all of them when none is healthy. */
  function Candidates(all: seq<UpstreamView>): (c: seq<UpstreamView>)
    ensures all != [] ==> c != []
  {
    var healthy := Filter(IsHealthy, all);
    if healthy == [] then all else healthy
  }

  /** The name asked for: the explicit one, else the pin of strategy "name". */
  function Effective(v: PoolView, preferred: string): string {
    if preferred == "" && v.strategy == "name" then v.pinned else preferred
  }

  function HashKey(key: string): string {
    if key == "" then "default" else key
  }

  /** True when the call takes a round-robin ticket. */
  predicate TakesTicket(v: PoolView, preferred: string) {
    v.all != [] && Effective(v, preferred) == "" && v.strategy == "round-robin"
  }

  /** The position among the candidates, for a ticket, a random draw and a hash function. */
  function Position(strategy: string, key: string, ticket: nat, draw: nat, hash: string -> nat, n: nat): (i: nat)
    requires n > 0
    ensures i < n
  {
    match strategy
    case "random" => draw % n
    case "round-robin" => ticket % n
    case "hash" => hash(HashKey(key)) % n
    case _ => 0
  }

  predicate HasName(all: seq<UpstreamView>, name: string) {
    exists i :: 0 <= i < |all| && all[i].name == name
  }

  /** The upstream of that name; names in a pool are unique. */
  function Named(all: seq<UpstreamView>, name: string): (u: UpstreamView)
    requires HasName(all, name)
    ensures u in all && u.name == name
  {
    if all[0].name == name then all[0] else Named(all[1..], name)
  }

  function Select(v: PoolView, preferred: string, key: string, ticket: nat, draw: nat, hash: string -> nat): Picked {
    if v.all == [] then EmptyPool
    else if Effective(v, preferred) != "" then
      if HasName(v.all, Effective(v, preferred)) then Picked(Named(v.all, Effective(v, preferred)))
      else NotInPool(Effective(v, preferred))
    else
      Picked(Candidates(v.all)[Position(v.strategy, key, ticket, draw, hash, |Candidates(v.all)|)])
  }

  predicate UniqueViews(all: seq<UpstreamView>) {
    forall i, j | 0 <= i < j < |all| :: all[i].name != all[j].name
  }

  lemma {:induction false} NamedUnique(all: seq<UpstreamView>, name: string, i: nat)
    requires i < |all| && all[i].name == name && UniqueViews(all)
    ensures HasName(all, name) && Named(all, name) == all[i]
  {
  }

  lemma {:induction false} FilterUnique(p: UpstreamView -> bool, all: seq<UpstreamView>)
    requires UniqueViews(all)
    ensures UniqueViews(Filter(p, all))
  {
    if all != [] {
      var n := |all| - 1;
      FilterUnique(p, all[..n]);
      FilterMembers(p, all[..n]);
      assert forall u | u in all[..n] :: u.name != all[n].name;
    }
  }

  lemma CandidatesUnique(all: seq<UpstreamView>)
    requires UniqueViews(all)
    ensures UniqueViews(Candidates(all))
  {
    FilterUnique(IsHealthy, all);
  }

  /** Without a name asked for, a healthy upstream is picked whenever there is one. */
  lemma SelectIsHealthy(v: PoolView, key: string, ticket: nat, draw: nat, hash: string -> nat)
    requires v.all != [] && Effective(v, "") == ""
    ensures Select(v, "", key, ticket, draw, hash).Picked?
    ensures Select(v, "", key, ticket, draw, hash).upstream in v.all
    ensures (exists u :: u in v.all && u.healthy) ==> Select(v, "", key, ticket, draw, hash).upstream.healthy
  {
    FilterMembers(IsHealthy, v.all);
  }

  /** The candidates are the healthy upstreams in the order of the pool, or the whole pool when none is healthy. */
  lemma CandidatesMeaning(all: seq<UpstreamView>) returns (at: seq<nat>)
    ensures |at| == |Candidates(all)|
    ensures forall k | 0 <= k < |at| :: at[k] < |all| && all[at[k]] == Candidates(all)[k]
    ensures forall j, k | 0 <= j < k < |at| :: at[j] < at[k]
    ensures if exists u :: u in all && u.healthy then forall u :: u in Candidates(all) <==> u in all && u.healthy
            else Candidates(all) == all
  {
    FilterMembers(IsHealthy, all);
    if Filter(IsHealthy, all) == [] {
      at := seq(|all|, i => i);
    } else {
      at := FilterOrdered(IsHealthy, all);
      assert Filter(IsHealthy, all)[0] in Filter(IsHealthy, all);
    }
  }

  /** What each strategy picks when no name is asked for; an empty key counts as "default". */
  lemma PickByStrategy(v: PoolView, key: string, ticket: nat, draw: nat, hash: string -> nat)
    requires v.all != [] && (v.strategy == "name" ==> v.pinned == "")
    ensures var c, p := Candidates(v.all), Select(v, "", key, ticket, draw, hash);
            var h := |c|;
            && (v.strategy == "random" ==> p == Picked(c[draw % h]))
            && (v.strategy == "round-robin" ==> p == Picked(c[ticket % h]))
            && (v.strategy == "hash" && key != "" ==> p == Picked(c[hash(key) % h]))
            && (v.strategy == "hash" && key == "" ==> p == Picked(c[hash("default") % h]))
            && (v.strategy == "name" ==> p == Picked(c[0]))
  {
    hide Candidates;
  }

  /** A name asked for, or pinned, is picked whatever its health, and no other upstream stands in for it. */
  lemma PickByName(v: PoolView, preferred: string, key: string, ticket: nat, draw: nat, hash: string -> nat)
    requires v.all != [] && (preferred != "" || (v.strategy == "name" && v.pinned != ""))
    ensures var name := if preferred != "" then preferred else v.pinned;
            var p := Select(v, preferred, key, ticket, draw, hash);
            if exists u :: u in v.all && u.name == name then p.Picked? && p.upstream in v.all && p.upstream.name == name
            else p == NotInPool(name)
  {
    hide Candidates, Position;
    var name := if preferred != "" then preferred else v.pinned;
    if u :| u in v.all && u.name == name {
      var i :| 0 <= i < |v.all| && v.all[i] == u;
      assert HasName(v.all, name);
    }
  }
}
