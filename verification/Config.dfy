/** The pool section of the configuration and its validation (internal/config/config.go). */
module Config {
  import opened Options
  import opened Sequences

  datatype ProxyEntry = ProxyEntry(
    name: string, kind: string, server: string, port: int, username: string, password: string)

  datatype Fault =
    | NoProxies
    | UnknownStrategy
    | NameRequired(i: nat)
    | DuplicateName(i: nat)
    | ServerRequired(i: nat)
    | InvalidPort(i: nat)
    | UnknownType(i: nat)

  predicate KnownStrategy(s: string) {
    s in ["random", "round-robin", "hash", "name"]
  }

  /** The four strategies of the pool, and not the empty text. */
  lemma KnownStrategies(s: string)
    ensures KnownStrategy(s) <==> s == "random" || s == "round-robin" || s == "hash" || s == "name"
  {
  }

  function Names(proxies: seq<ProxyEntry>): (names: seq<string>)
    ensures |names| == |proxies| && forall i | 0 <= i < |proxies| :: names[i] == proxies[i].name
  {
    Map((e: ProxyEntry) => e.name, proxies)
  }

  /** What Validate accepts of one entry by itself. */
  predicate WellFormed(e: ProxyEntry) {
    && e.name != ""
    && (e.kind == "direct" || (e.kind in ["http", "socks5"] && e.server != "" && 0 < e.port <= 65535))
  }

  /** What Validate accepts: some proxies, all well formed, no name twice. */
  predicate ValidProxies(proxies: seq<ProxyEntry>) {
    && proxies != []
    && (forall e | e in proxies :: WellFormed(e))
    && NoDuplicates(Names(proxies))
  }

  /** The fault of entry i, given the names before it. */
  function EntryFault(proxies: seq<ProxyEntry>, i: nat): Option<Fault>
    requires i < |proxies|
  {
    var e := proxies[i];
    if e.name == "" then Some(NameRequired(i))
    else if e.name in Names(proxies)[..i] then Some(DuplicateName(i))
    else if e.kind == "direct" then None
    else if e.kind !in ["http", "socks5"] then Some(UnknownType(i))
    else if e.server == "" then Some(ServerRequired(i))
    else if e.port <= 0 || e.port > 65535 then Some(InvalidPort(i))
    else None
  }

  /** The first of these that applies: no name, a name used before, an unknown type, no server, no valid port. */
  lemma FaultMeaning(proxies: seq<ProxyEntry>, i: nat)
    requires i < |proxies|
    ensures var e, fault := proxies[i], EntryFault(proxies, i);
            var again := exists j :: 0 <= j < i && proxies[j].name == e.name;
            var known := e.name != "" && !again && (e.kind == "http" || e.kind == "socks5");
            && (fault == Some(NameRequired(i)) <==> e.name == "")
            && (fault == Some(DuplicateName(i)) <==> e.name != "" && again)
            && (fault == Some(UnknownType(i)) <==> e.name != "" && !again && !known && e.kind != "direct")
            && (fault == Some(ServerRequired(i)) <==> known && e.server == "")
            && (fault == Some(InvalidPort(i)) <==> known && e.server != "" && !(1 <= e.port <= 65535))
  {
    var e, before := proxies[i], Names(proxies)[..i];
    assert forall j | 0 <= j < i :: before[j] == proxies[j].name;
    if exists j :: 0 <= j < i && proxies[j].name == e.name {
      var j :| 0 <= j < i && proxies[j].name == e.name;
      assert before[j] in before;
    }
  }

  lemma NoFaultMeansValid(proxies: seq<ProxyEntry>)
    requires proxies != []
    ensures ValidProxies(proxies) <==> forall i | 0 <= i < |proxies| :: EntryFault(proxies, i).None?
  {
    var names := Names(proxies);
    if ValidProxies(proxies) {
      forall j | 0 <= j < |proxies|
        ensures EntryFault(proxies, j).None?
      {
        assert WellFormed(proxies[j]) && proxies[j].name == names[j];
        assert forall a | 0 <= a < j :: names[..j][a] == names[a];
      }
    }
    if forall i | 0 <= i < |proxies| :: EntryFault(proxies, i).None? {
      forall i, j | 0 <= i < j < |names|
        ensures names[i] != names[j]
      {
        assert EntryFault(proxies, j).None?;
        assert names[..j][i] == names[i];
      }
      forall e | e in proxies
        ensures WellFormed(e)
      {
        var i :| 0 <= i < |proxies| && proxies[i] == e;
        assert EntryFault(proxies, i).None?;
      }
    }
  }

  /** The fault is that of the first faulty entry. */
  ghost predicate FirstFault(proxies: seq<ProxyEntry>, fault: Option<Fault>) {
    exists i | 0 <= i < |proxies| ::
      fault == EntryFault(proxies, i) && forall j | 0 <= j < i :: EntryFault(proxies, j).None?
  }

  class PoolConfig {
    var strategy: string
    var proxies: seq<ProxyEntry>

    constructor (strategy: string, proxies: seq<ProxyEntry>)
      ensures this.strategy == strategy && this.proxies == proxies
    {
      this.strategy, this.proxies := strategy, proxies;
    }

    /** Accepts exactly the valid configurations, reports the first faulty entry, and fills in the default strategy. */
    method Validate() returns (fault: Option<Fault>)
      modifies this`strategy
      ensures strategy == if proxies != [] && old(strategy) == "" then "random" else old(strategy)
      ensures fault.None? <==> KnownStrategy(strategy) && ValidProxies(proxies)
      ensures fault == Some(NoProxies) <==> proxies == []
      ensures fault == Some(UnknownStrategy) <==> proxies != [] && !KnownStrategy(strategy)
      ensures proxies != [] && KnownStrategy(strategy) && fault.Some? ==> FirstFault(proxies, fault)
    {
      if |proxies| == 0 {
        return Some(NoProxies);
      }
      if strategy == "" {
        strategy := "random";
      }
      if !KnownStrategy(strategy) {
        return Some(UnknownStrategy);
      }
      NoFaultMeansValid(proxies);
      var seen: set<string> := {};
      for i := 0 to |proxies|
        invariant strategy == if old(strategy) == "" then "random" else old(strategy)
        invariant seen == Elements(Names(proxies)[..i])
        invariant forall j | 0 <= j < i :: EntryFault(proxies, j).None?
      {
        var p := proxies[i];
        assert p.name in seen <==> p.name in Names(proxies)[..i];
        ghost var expected := EntryFault(proxies, i);
        assert expected.Some? ==> FirstFault(proxies, expected);
        if p.name == "" {
          return Some(NameRequired(i));
        }
        if p.name in seen {
          return Some(DuplicateName(i));
        }
        assert Names(proxies)[..i + 1] == Names(proxies)[..i] + [p.name];
        ElementsSnoc(Names(proxies)[..i], p.name);
        seen := seen + {p.name};
        if p.kind == "direct" {
        } else if p.kind == "http" || p.kind == "socks5" {
          if p.server == "" {
            return Some(ServerRequired(i));
          }
          if p.port <= 0 || p.port > 65535 {
            return Some(InvalidPort(i));
          }
        } else {
          return Some(UnknownType(i));
        }
      }
      return None;
    }
  }
}
