/**
 * Saving the pool to the configuration and loading it again (internal/api/api.go, internal/pool/pool.go,
 * internal/config/config.go).
 */
module Persistence {
  import opened Arithmetic
  import opened Config
  import opened DecimalText
  import opened HostPort
  import opened Options
  import opened Pool
  import opened RoundRobin
  import opened Selection
  import opened Sequences
  import BatchAdd
  import JsonPath

  // ----- The entry that handlePoolSave writes for one upstream -----

  function SavedEntry(u: UpstreamView): ProxyEntry {
    if u.kind == "direct" then ProxyEntry("direct", "direct", "", 0, "", "")
    else
      var (host, port) := SplitHostPort(u.addr);
      ProxyEntry(u.name, u.kind, host, ScanInt(port), u.username, u.password)
  }

  function Saved(all: seq<UpstreamView>): (proxies: seq<ProxyEntry>)
    ensures |proxies| == |all|
  {
    Map(SavedEntry, all)
  }

  function Reloaded(proxies: seq<ProxyEntry>): (all: seq<UpstreamView>)
    ensures |all| == |proxies|
  {
    Map(ViewOfEntry, proxies)
  }

  /** A reload forgets the outcome of health checks. */
  function Healed(u: UpstreamView): UpstreamView {
    u.(healthy := true)
  }

  // ----- When one entry survives -----

  /** The canonical "host:port" text of a host without a colon and a port in range. */
  predicate PlainAddress(addr: string) {
    var (host, port) := SplitHostPort(addr);
    && host != "" && ':' !in host
    && 0 < ScanInt(port) <= 65535 && port == IntText(ScanInt(port))
  }

  /** What saving and reloading preserves; it does not depend on health. */
  predicate Persistable(u: UpstreamView) {
    if u.kind == "direct" then u.name == "direct" && u.addr == "" && u.username == "" && u.password == ""
    else u.kind in ["http", "socks5"] && u.name != "" && PlainAddress(u.addr)
  }

  /** Plain addresses are the ones joined from a plain host and a port. */
  lemma PlainAddressMeaning(addr: string)
    ensures PlainAddress(addr) <==>
            exists host: string, p: nat ::
              host != "" && ':' !in host && 0 < p <= 65535 && addr == host + ":" + Decimal(p)
  {
    var (host, port) := SplitHostPort(addr);
    SplitHostPortMeaning(addr);
    forall h: string, p: nat | h != "" && ':' !in h && 0 < p <= 65535 && addr == h + ":" + Decimal(p)
      ensures PlainAddress(addr)
    {
      ScanDecimal(p);
      SplitJoined(h, Decimal(p));
    }
    if PlainAddress(addr) {
      assert addr == host + ":" + Decimal(ScanInt(port));
    }
  }

  lemma SavedEntryOfJoined(u: UpstreamView, host: string, p: int)
    requires u.kind != "direct" && 0 < p <= 65535 && u.addr == JoinHostPort(host, IntText(p))
    ensures SavedEntry(u).port == p
    ensures SavedEntry(u).server == Bracketed(host)
  {
    hide Bracketed, SplitHostPort, ScanInt, Decimal;
    ScanDecimal(p);
    SplitJoined(Bracketed(host), Decimal(p));
  }

  /** Exactly the hosts with a colon are changed by the brackets. */
  lemma BracketedSame(host: string)
    ensures Bracketed(host) == host <==> ':' !in host
  {
  }

  /** Exactly the persistable upstreams give a valid entry that reloads to the same upstream. */
  lemma EntrySurvives(u: UpstreamView)
    ensures Persistable(u) <==> WellFormed(SavedEntry(u)) && ViewOfEntry(SavedEntry(u)) == Healed(u)
  {
    if u.kind != "direct" {
      var e := SavedEntry(u);
      SplitHostPortMeaning(u.addr);
      if Persistable(u) {
        BracketedSame(e.server);
        assert JoinHostPort(e.server, IntText(e.port)) == u.addr;
      }
      if WellFormed(e) && ViewOfEntry(e) == Healed(u) {
        SavedEntryOfJoined(u, e.server, e.port);
        BracketedSame(e.server);
        ScanDecimal(e.port);
        SplitJoined(e.server, IntText(e.port));
      }
    }
  }

  // ----- Whole pools -----

  /** For a pool with unique names the saved names are unique too, once the upstreams are persistable. */
  lemma NamesSurvive(all: seq<UpstreamView>)
    requires UniqueViews(all) && forall u | u in all :: Persistable(u)
    ensures NoDuplicates(Names(Saved(all)))
  {
    forall i | 0 <= i < |all|
      ensures Names(Saved(all))[i] == all[i].name
    {
      assert Persistable(all[i]);
    }
  }

  /**
   * For a pool with unique names, the saved list passes validation and reloads to the same names, types,
   * addresses, credentials and order exactly when it is not empty and every upstream is persistable.
   */
  lemma SaveReload(all: seq<UpstreamView>)
    requires UniqueViews(all)
    ensures ValidProxies(Saved(all)) && Reloaded(Saved(all)) == Map(Healed, all)
            <==> all != [] && forall u | u in all :: Persistable(u)
  {
    var saved := Saved(all);
    hide Persistable, WellFormed, SavedEntry, ViewOfEntry;
    forall i: nat | i < |all|
      ensures Persistable(all[i]) <==> WellFormed(saved[i]) && Reloaded(saved)[i] == Map(Healed, all)[i]
    {
      EntrySurvives(all[i]);
    }
    if all != [] && forall u | u in all :: Persistable(u) {
      assert forall i: nat | i < |all| :: all[i] in all;
      assert Reloaded(saved) == Map(Healed, all);
      NamesSurvive(all);
    }
    if ValidProxies(saved) && Reloaded(saved) == Map(Healed, all) {
      forall u | u in all
        ensures Persistable(u)
      {
        var i: nat :| i < |all| && all[i] == u;
        assert saved[i] in saved;
      }
    }
  }

  /** A server with a colon is saved with the brackets of its address, and reloading adds a second pair. */
  lemma BracketsDouble(u: UpstreamView, host: string, p: int)
    requires u.kind != "direct" && 0 < p <= 65535 && ':' in host && u.addr == JoinHostPort(host, IntText(p))
    ensures SavedEntry(u).server == "[" + host + "]"
    ensures ViewOfEntry(SavedEntry(u)).addr == "[" + ("[" + host + "]") + "]" + ":" + IntText(p) != u.addr
  {
    SavedEntryOfJoined(u, host, p);
    var once := "[" + host + "]";
    var k :| 0 <= k < |host| && host[k] == ':';
    assert once[k + 1] == ':';
    assert |Bracketed(once)| == |once| + 2;
  }

  /** Entries of a configuration that saving writes back unchanged. */
  predicate Storable(e: ProxyEntry) {
    if e.kind == "direct" then e == ProxyEntry("direct", "direct", "", 0, "", "") else ':' !in e.server
  }

  /** Loading a valid configuration and saving it at once gives it back exactly when every entry is storable. */
  lemma ReloadSave(proxies: seq<ProxyEntry>)
    requires ValidProxies(proxies)
    ensures Saved(Reloaded(proxies)) == proxies <==> forall e | e in proxies :: Storable(e)
  {
    var again := Saved(Reloaded(proxies));
    forall i: nat | i < |proxies|
      ensures again[i] == proxies[i] <==> Storable(proxies[i])
    {
      var e := proxies[i];
      assert WellFormed(e);
      if e.kind != "direct" {
        SavedEntryOfJoined(ViewOfEntry(e), e.server, e.port);
        BracketedSame(e.server);
      }
    }
    hide Storable, SavedEntry, ViewOfEntry;
    forall e | e in proxies
      ensures again == proxies ==> Storable(e)
    {
      var i: nat :| i < |proxies| && proxies[i] == e;
    }
    assert forall i: nat | i < |proxies| :: proxies[i] in proxies;
  }

  /** A storable, valid entry makes a persistable upstream. */
  lemma StorableIsPersistable(e: ProxyEntry)
    requires WellFormed(e) && Storable(e)
    ensures Persistable(ViewOfEntry(e))
  {
    if e.kind != "direct" {
      SavedEntryOfJoined(ViewOfEntry(e), e.server, e.port);
      assert SavedEntry(ViewOfEntry(e)) == e;
    }
    EntrySurvives(ViewOfEntry(e));
  }

  /** A healthy, persistable pool reloads to itself. */
  lemma HealthyReload(all: seq<UpstreamView>)
    requires UniqueViews(all) && forall u | u in all :: Persistable(u) && u.healthy
    ensures Reloaded(Saved(all)) == all
  {
    SaveReload(all);
    if all == [] {
      assert Reloaded(Saved(all)) == all;
    } else {
      assert forall i | 0 <= i < |all| :: all[i] in all;
      assert Map(Healed, all) == all;
    }
  }

  /** The upstream that the pool names without being asked. */
  predicate Pinned(v: PoolView) {
    v.strategy == "name" && v.pinned != ""
  }

  lemma AllAreCandidates(all: seq<UpstreamView>)
    requires forall u | u in all :: u.healthy
    ensures Candidates(all) == all
  {
    FilterAll(IsHealthy, all);
    hide Filter;
  }

  /** Without a pin, strategy "name" picks the first healthy upstream. */
  lemma UnpinnedPick(all: seq<UpstreamView>, key: string, ticket: nat, draw: nat, hash: string -> nat)
    requires all != [] && forall u | u in all :: u.healthy
    ensures Select(PoolView(all, "name", ""), "", key, ticket, draw, hash) == Picked(all[0])
  {
    AllAreCandidates(all);
    hide Candidates;
  }

  /** With a pin, it picks the first upstream exactly when that is the pinned one. */
  lemma PinnedPick(v: PoolView, key: string, ticket: nat, draw: nat, hash: string -> nat)
    requires UniqueViews(v.all) && v.all != [] && Pinned(v)
    ensures Select(v, "", key, ticket, draw, hash) == Picked(v.all[0]) <==> v.all[0].name == v.pinned
  {
    hide Candidates, Position;
    if v.all[0].name == v.pinned {
      NamedUnique(v.all, v.pinned, 0);
    }
  }

  /** With the same ticket, the reloaded pool picks the same unless the call follows a pin to a later upstream. */
  lemma PinDecides(v: PoolView, preferred: string, key: string, ticket: nat, draw: nat, hash: string -> nat)
    requires UniqueViews(v.all) && forall u | u in v.all :: Persistable(u) && u.healthy
    ensures Select(PoolView(Reloaded(Saved(v.all)), v.strategy, ""), preferred, key, ticket, draw, hash)
            == Select(v, preferred, key, ticket, draw, hash)
            <==> (Pinned(v) && preferred == "" ==> v.all == [] || v.all[0].name == v.pinned)
  {
    HealthyReload(v.all);
    hide Saved, Reloaded, Persistable;
    if Pinned(v) && preferred == "" && v.all != [] {
      UnpinnedPick(v.all, key, ticket, draw, hash);
      PinnedPick(v, key, ticket, draw, hash);
      hide Select;
    } else {
      assert v.all != [] ==> Effective(v, preferred) == Effective(v.(pinned := ""), preferred);
      hide Candidates, Position, HasName, Named;
    }
  }

  /** The call takes its pick from the round-robin counter. */
  predicate Rotates(v: PoolView, preferred: string) {
    v.strategy == "round-robin" && preferred == "" && v.all != []
  }

  lemma RotationPick(v: PoolView, key: string, ticket: nat, draw: nat, hash: string -> nat)
    requires Rotates(v, "") && forall u | u in v.all :: u.healthy
    ensures Select(v, "", key, ticket, draw, hash) == Picked(v.all[ticket % |v.all|])
  {
    AllAreCandidates(v.all);
    hide Candidates;
  }

  /** Without a pin, starting the counter again matters exactly when it is taken and stood elsewhere in the rotation. */
  lemma CounterDecides(v: PoolView, preferred: string, key: string, counter: nat, draw: nat, hash: string -> nat)
    requires UniqueViews(v.all) && forall u | u in v.all :: u.healthy
    ensures Select(v, preferred, key, counter, draw, hash) == Select(v, preferred, key, 0, draw, hash)
            <==> (Rotates(v, preferred) ==> counter % |v.all| == 0)
  {
    if Rotates(v, preferred) {
      RotationPick(v, key, counter, draw, hash);
      RotationPick(v, key, 0, draw, hash);
      hide Select;
      var i := counter % |v.all|;
      assert i != 0 ==> v.all[0].name != v.all[i].name;
    } else {
      hide Candidates, HasName, Named;
    }
  }

  /**
   * While all upstreams are healthy, a call of Select picks the same from the reloaded pool, whose counter starts
   * at 0 and which has no pin, exactly when it does not follow a pin to a later upstream and does not take a
   * ticket at which the rotation stood elsewhere. So hash, for one, keeps the upstream of every key.
   */
  lemma SelectionSurvives(v: PoolView, counter: nat, preferred: string, key: string, draw: nat, hash: string -> nat)
    requires UniqueViews(v.all) && forall u | u in v.all :: Persistable(u) && u.healthy
    ensures Select(PoolView(Reloaded(Saved(v.all)), v.strategy, ""), preferred, key, 0, draw, hash)
            == Select(v, preferred, key, counter, draw, hash)
            <==> && (Pinned(v) && preferred == "" ==> v.all == [] || v.all[0].name == v.pinned)
                 && (Rotates(v, preferred) ==> counter % |v.all| == 0)
  {
    HealthyReload(v.all);
    PinDecides(v, preferred, key, counter, draw, hash);
    CounterDecides(v.(pinned := ""), preferred, key, counter, draw, hash);
    hide Saved, Reloaded, Persistable, Select;
  }

  /** For instance a pool pinned to its second upstream. */
  lemma PinIsLost(a: UpstreamView, b: UpstreamView, counter: nat, key: string, draw: nat, hash: string -> nat)
    requires UniqueViews([a, b]) && forall u | u in [a, b] :: Persistable(u) && u.healthy
    ensures var v := PoolView([a, b], "name", b.name);
            Select(PoolView(Reloaded(Saved(v.all)), "name", ""), "", key, 0, draw, hash)
            != Select(v, "", key, counter, draw, hash)
  {
    assert b in [a, b] && [a, b][0].name != [a, b][1].name;
    assert b.name != "";
    SelectionSurvives(PoolView([a, b], "name", b.name), counter, "", key, draw, hash);
  }

  /** Or a round-robin pool of two after an odd number of calls. */
  lemma CounterIsLost(a: UpstreamView, b: UpstreamView, counter: nat, key: string, draw: nat, hash: string -> nat)
    requires UniqueViews([a, b]) && forall u | u in [a, b] :: Persistable(u) && u.healthy
    requires counter % 2 == 1
    ensures var v := PoolView([a, b], "round-robin", "");
            Select(PoolView(Reloaded(Saved(v.all)), "round-robin", ""), "", key, 0, draw, hash)
            != Select(v, "", key, counter, draw, hash)
  {
    SelectionSurvives(PoolView([a, b], "round-robin", ""), counter, "", key, draw, hash);
  }

  /** The call that comes j calls later picks the same position from the reloaded pool of n healthy upstreams. */
  predicate RotationAgrees(counter: nat, n: nat, j: nat)
    requires n > 0
  {
    PositionAt(counter, j, n) == PositionAt(0, j, n)
  }

  lemma MultipleIsInvisible(counter: nat, n: nat, j: nat)
    requires 0 < n && counter % n == 0 && TICKETS % n == 0
    ensures RotationAgrees(counter, n, j)
  {
    WrapInvisible(counter, j, n);
    WrapInvisible(0, j, n);
    assert counter + j == j + counter / n * n;
    ModShift(j, counter / n, n);
    hide PositionAt;
  }

  /** Agreement now and at the wrap-around of the old counter. */
  lemma AgreementMeansMultiple(counter: nat, n: nat)
    requires 0 < counter < TICKETS && 0 < n
    requires RotationAgrees(counter, n, 0) && RotationAgrees(counter, n, TICKETS - counter)
    ensures counter % n == 0 && TICKETS % n == 0
  {
    TicketUnwrapped(counter, 0);
    TicketUnwrapped(0, 0);
    TicketUnwrapped(0, TICKETS - counter);
    TicketWrapped(counter, TICKETS - counter);
    hide TicketAt;
    DivModUnique(0, 0, 0, n);
    MultiplesAdd(counter, TICKETS - counter, n);
  }

  /**
   * And the whole rotation goes on as before exactly when the counter stood at a multiple of the pool size and
   * its wrap-around will not show, or at 0.
   */
  lemma RotationSurvives(counter: nat, n: nat)
    requires counter < TICKETS && 0 < n
    ensures (forall j: nat :: RotationAgrees(counter, n, j)) <==> counter == 0 || (counter % n == 0 && TICKETS % n == 0)
  {
    if counter == 0 {
      assert forall j: nat :: RotationAgrees(counter, n, j);
    } else if counter % n == 0 && TICKETS % n == 0 {
      forall j: nat
        ensures RotationAgrees(counter, n, j)
      {
        MultipleIsInvisible(counter, n, j);
      }
    } else {
      hide RotationAgrees;
      if RotationAgrees(counter, n, 0) && RotationAgrees(counter, n, TICKETS - counter) {
        AgreementMeansMultiple(counter, n);
      }
    }
  }

  /** Removing and probing upstreams, and adding persistable ones, keeps a pool persistable. */
  lemma {:induction false} RunStaysPersistable(ups: seq<Upstream>, ops: seq<Op>)
    requires forall u | u in ups :: Persistable(u.View())
    requires forall op | op in ops && op.AddOp? :: Persistable(op.u.View())
    ensures forall u | u in AfterAll(ups, ops) :: Persistable(u.View())
  {
    if ops != [] {
      var before, op := AfterAll(ups, ops[..|ops| - 1]), ops[|ops| - 1];
      assert op in ops;
      RunStaysPersistable(ups, ops[..|ops| - 1]);
      if op.RemoveOp? {
        WithoutMembers(before, op.name);
      }
    }
  }

  /** Auto-added proxies survive a restart when their addresses are plain and their types known. */
  lemma BatchStaysPersistable(all: seq<UpstreamView>, prefix: string, es: seq<JsonPath.ProxyEntry>, clocks: seq<nat>)
    requires |clocks| == |es| && UniqueViews(all)
    requires forall u | u in all :: Persistable(u)
    requires forall e | e in es :: e.kind in ["http", "socks5"] && PlainAddress(e.addr)
    ensures forall u | u in BatchAdd.AfterBatch(all, prefix, es, clocks) :: Persistable(u)
  {
    hide PlainAddress, BatchAdd.AfterBatch, BatchAdd.Entrants;
    var after, used := BatchAdd.AfterBatch(all, prefix, es, clocks), BatchAdd.Entrants(all, prefix, es, clocks);
    BatchAdd.BatchAppends(all, prefix, es, clocks);
    forall i | 0 <= i < |after|
      ensures Persistable(after[i])
    {
      if i < |all| {
        assert after[i] == all[i] && all[i] in all;
      } else {
        var j := used[i - |all|];
        assert BatchAdd.Becomes(prefix, es[j], clocks[j], after[|all| + (i - |all|)]) && es[j] in es;
        assert |after[i].name| >= 2;
      }
    }
  }

  // ----- The handlers -----

  /** The list that handlePoolSave rebuilds from the pool. */
  method RebuildList(p: Pool) returns (proxies: seq<ProxyEntry>)
    requires p.Valid()
    ensures proxies == Saved(p.View().all)
  {
    var ups := p.List();
    ghost var views := p.View().all;
    proxies := [];
    for i := 0 to ups.Length
      invariant proxies == Saved(views[..i])
    {
      var u := ups[i];
      assert u == ups[..][i] && views[i] == u.View();
      assert Saved(views[..i + 1]) == Saved(views[..i]) + [SavedEntry(views[i])];
      if u.kind == "direct" {
        proxies := proxies + [ProxyEntry("direct", "direct", "", 0, "", "")];
      } else {
        var (host, portStr) := SplitHostPort(u.addr);
        proxies := proxies + [ProxyEntry(u.name, u.kind, host, ScanInt(portStr), u.username, u.password)];
      }
    }
    assert views[..ups.Length] == views;
  }

  lemma PoolNames(p: Pool)
    requires p.Valid()
    ensures UniqueViews(p.View().all)
  {
  }

  /** Starting from a loaded configuration: validation, then New; an empty strategy becomes "random". */
  method LoadPool(strategy: string, proxies: seq<ProxyEntry>) returns (fault: Option<Fault>, q: Pool?)
    ensures q != null <==> ValidProxies(proxies) && (strategy == "" || KnownStrategy(strategy))
    ensures q == null <==> fault.Some?
    ensures q != null ==> fresh(q) && q.Valid() && q.rrCounter == 0
    ensures q != null ==> q.View() == PoolView(Reloaded(proxies), if strategy == "" then "random" else strategy, "")
  {
    var c := new PoolConfig(strategy, proxies);
    fault := c.Validate();
    q := null;
    if fault == None {
      q := Pool.New(c.strategy, proxies);
    }
  }

  /** Saving a pool and starting again from the file. */
  method SaveAndReload(p: Pool) returns (fault: Option<Fault>, q: Pool?)
    requires p.Valid() && KnownStrategy(p.strategy)
    ensures q == null <==> fault.Some?
    ensures q != null ==> fresh(q) && q.Valid() && q.rrCounter == 0
    ensures q != null ==> q.View() == PoolView(Reloaded(Saved(p.View().all)), p.strategy, "")
    ensures q != null && q.View().all == Map(Healed, p.View().all)
            <==> p.View().all != [] && forall u | u in p.View().all :: Persistable(u)
  {
    hide Persistable, ValidProxies, Saved, Reloaded, UniqueViews, Healed, Map;
    ghost var all := p.View().all;
    var proxies := RebuildList(p);
    PoolNames(p);
    SaveReload(all);
    fault, q := LoadPool(p.strategy, proxies);
    assert p.View().all == all;
  }
}
