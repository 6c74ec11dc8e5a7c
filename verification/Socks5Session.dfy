/**
 * Both ends of the SOCKS5 handshake as two processes over byte queues. Bytes arrive in arbitrary pieces
 * and the processes take turns in any order.
 */
module Socks5Session {
  import opened Bytes
  import opened Socks5Wire
  import C = Socks5Client
  import S = Socks5Server

  /** What one session is about: what the client wants, and whether the server's dial succeeds. */
  datatype Case = Case(w: C.Wanted, dialOk: bool)

  /** The queues hold the bytes not yet used; the reader has already received the first cGot or sGot of them. */
  datatype State = State(
    cpc: C.ClientPc, spc: S.ServerPc,
    toServer: seq<byte>, toClient: seq<byte>,
    cGot: nat, sGot: nat)

  function Init(): State {
    State(C.Start, S.GreetHead, [], [], 0, 0)
  }

  predicate ClientClosed(s: State) {
    s.cpc.Failed?
  }

  predicate ServerClosed(s: State) {
    s.spc.Refused?
  }

  // ----- Steps -----

  /** One Read of the client returns k more bytes of a pending io.ReadFull. */
  predicate ClientReceives(s: State, t: State) {
    && C.Reading(s.cpc)
    && s.cGot < t.cGot <= C.Need(s.cpc) && t.cGot <= |s.toClient|
    && t == s.(cGot := t.cGot)
  }

  predicate ClientActs(c: Case, s: State, t: State)
    requires C.ValidWanted(c.w)
  {
    && C.Reading(s.cpc) && s.cGot == C.Need(s.cpc) <= |s.toClient|
    && var (next, out) := C.Step(c.w, s.cpc, s.toClient[..s.cGot]);
       t == s.(cpc := next, toServer := s.toServer + out, toClient := s.toClient[s.cGot..], cGot := 0)
  }

  /** The server has closed and the input ends before the read is complete. */
  predicate ClientEof(s: State, t: State) {
    && C.Reading(s.cpc) && ServerClosed(s) && |s.toClient| < C.Need(s.cpc)
    && t == s.(cpc := C.Failed(C.ReadFailed), toClient := [], cGot := 0)
  }

  predicate ServerReceives(s: State, t: State) {
    && S.Reading(s.spc)
    && s.sGot < t.sGot <= S.Need(s.spc) && t.sGot <= |s.toServer|
    && t == s.(sGot := t.sGot)
  }

  predicate ServerActs(s: State, t: State) {
    && S.Reading(s.spc) && s.sGot == S.Need(s.spc) <= |s.toServer|
    && var (next, out) := S.Step(s.spc, s.toServer[..s.sGot]);
       t == s.(spc := next, toClient := s.toClient + out, toServer := s.toServer[s.sGot..], sGot := 0)
  }

  /** dialWithFailover returns, and the server replies. */
  predicate ServerDials(c: Case, s: State, t: State) {
    && s.spc.Requested?
    && t == s.(spc := if c.dialOk then S.Tunnel(s.spc.user, s.spc.host, s.spc.port) else S.Refused(S.DialFailed),
               toClient := s.toClient + Reply(if c.dialOk then 0 else 5))
  }

  predicate ServerEof(s: State, t: State) {
    && S.Reading(s.spc) && ClientClosed(s) && |s.toServer| < S.Need(s.spc)
    && t == s.(spc := S.Refused(S.PeerClosed), toServer := [], sGot := 0)
  }

  predicate Next(c: Case, s: State, t: State)
    requires C.ValidWanted(c.w)
  {
    || ClientReceives(s, t) || ClientActs(c, s, t) || ClientEof(s, t)
    || ServerReceives(s, t) || ServerActs(s, t) || ServerDials(c, s, t) || ServerEof(s, t)
  }

  /** A read may return any part of what is still missing and has arrived, so every chunking occurs. */
  lemma EveryChunkingOccurs(c: Case, s: State, k: nat)
    requires C.ValidWanted(c.w)
    ensures C.Reading(s.cpc) && s.cGot < k <= C.Need(s.cpc) && k <= |s.toClient| ==> Next(c, s, s.(cGot := k))
    ensures S.Reading(s.spc) && s.sGot < k <= S.Need(s.spc) && k <= |s.toServer| ==> Next(c, s, s.(sGot := k))
  {
  }

  predicate Terminal(s: State) {
    !C.Reading(s.cpc) && (s.spc.Tunnel? || s.spc.Refused?)
  }

  // ----- What every reachable state looks like -----

  /** The credentials the client is able to send when the server asks for them. */
  predicate Sendable(w: C.Wanted) {
    w.user != [] && |w.user| <= 255 && |w.pass| <= 255
  }

  predicate AuthFails(w: C.Wanted) {
    C.OfferedMethod(w) == 2 && !Sendable(w)
  }

  function AuthFailure(w: C.Wanted): C.Failure {
    if w.user == [] then C.NeedCredentials else C.CredentialsTooLong
  }

  /** The user name the server sees. */
  function Shown(w: C.Wanted): seq<byte> {
    if C.OfferedMethod(w) == 2 then w.user else []
  }

  predicate Quiet(s: State, cpc: C.ClientPc, toServer: seq<byte>) {
    s.cpc == cpc && s.toServer == toServer && s.toClient == []
  }

  predicate Answered(s: State, cpc: C.ClientPc, toClient: seq<byte>) {
    s.cpc == cpc && s.toServer == [] && s.toClient == toClient
  }

  /** While the server reads the credentials. */
  predicate Authenticating(w: C.Wanted, s: State, toServer: seq<byte>) {
    C.OfferedMethod(w) == 2 && Sendable(w) && Quiet(s, C.AuthReply, toServer)
  }

  /** While the server reads the request, toServer being the part still unread. */
  predicate Requesting(w: C.Wanted, s: State, user: seq<byte>, toServer: seq<byte>) {
    !AuthFails(w) && Encodable(w.host) && user == Shown(w) && Quiet(s, C.ReplyHead, toServer)
  }

  predicate Invariant(c: Case, s: State)
    requires C.ValidWanted(c.w)
  {
    var w := c.w;
    var port := PortBytes(w.port);
    && (C.Reading(s.cpc) ==> s.cGot <= C.Need(s.cpc) && s.cGot <= |s.toClient|)
    && (S.Reading(s.spc) ==> s.sGot <= S.Need(s.spc) && s.sGot <= |s.toServer|)
    && match s.spc {
         case GreetHead =>
           Quiet(s, C.Start, []) || Quiet(s, C.MethodReply, [5, 1, C.OfferedMethod(w)])
         case Methods(n) => n == 1 && Quiet(s, C.MethodReply, [C.OfferedMethod(w)])
         case AuthVersion =>
           || (C.OfferedMethod(w) == 2 && Answered(s, C.MethodReply, [5, 2]))
           || (AuthFails(w) && Quiet(s, C.Failed(AuthFailure(w)), []))
           || (Sendable(w) && Authenticating(w, s, AuthBytes(w.user, w.pass)))
         case UserLength => Sendable(w) && Authenticating(w, s, [|w.user|] + (w.user + ([|w.pass|] + w.pass)))
         case User(n) => Sendable(w) && n == |w.user| && Authenticating(w, s, w.user + ([|w.pass|] + w.pass))
         case PassLength(u) => Sendable(w) && u == w.user && Authenticating(w, s, [|w.pass|] + w.pass)
         case Pass(u, n) => Sendable(w) && u == w.user && n == |w.pass| && Authenticating(w, s, w.pass)
         case RequestHead(u) =>
           && !AuthFails(w) && u == Shown(w)
           && (|| Answered(s, if C.OfferedMethod(w) == 2 then C.AuthReply else C.MethodReply,
                           if C.OfferedMethod(w) == 2 then [1, 0] else [5, 0])
               || (Encodable(w.host) && Requesting(w, s, u, RequestBytes(w.host, w.port)))
               || (!Encodable(w.host) && Quiet(s, C.Failed(C.DomainTooLong), [])))
         case V4Address(u) => w.host.Ip? && IsV4(w.host.octets) && Requesting(w, s, u, w.host.octets[12..] + port)
         case V6Address(u) => w.host.Ip? && !IsV4(w.host.octets) && Requesting(w, s, u, w.host.octets + port)
         case NameLength(u) =>
           w.host.Name? && Encodable(w.host) && Requesting(w, s, u, [|w.host.text|] + (w.host.text + port))
         case NameText(u, n) =>
           w.host.Name? && n as int == |w.host.text| && Requesting(w, s, u, w.host.text + port)
         case Port(u, h) => h == w.host && Requesting(w, s, u, port)
         case Requested(u, h, p) => h == w.host && p == w.port && Requesting(w, s, u, [])
         case Tunnel(u, h, p) =>
           && c.dialOk && !AuthFails(w) && Encodable(w.host) && u == Shown(w) && h == w.host && p == w.port
           && (|| Answered(s, C.ReplyHead, Reply(0))
               || Answered(s, C.ReplyRest(6), Reply(0)[4..])
               || Answered(s, C.Connected, []))
         case Refused(why) =>
           || (why == S.DialFailed && !c.dialOk && !AuthFails(w) && Encodable(w.host)
               && (Answered(s, C.ReplyHead, Reply(5)) || Answered(s, C.Failed(C.ConnectFailed(5)), Reply(5)[4..])))
           || (why == S.PeerClosed && AuthFails(w) && Quiet(s, C.Failed(AuthFailure(w)), []))
           || (why == S.PeerClosed && !AuthFails(w) && !Encodable(w.host) && Quiet(s, C.Failed(C.DomainTooLong), []))
       }
  }

  // ----- Every step keeps it -----

  lemma Cut(b: seq<byte>, rest: seq<byte>)
    ensures (b + rest)[..|b|] == b && (b + rest)[|b|..] == rest
    ensures b + [] == b && [] + b == b
  {
  }

  /** The client writes the greeting. */
  lemma ClientStarts(c: Case, s: State, t: State)
    requires C.ValidWanted(c.w) && Invariant(c, s) && ClientActs(c, s, t) && s.cpc.Start?
    ensures Invariant(c, t)
  {
    assert t == State(C.MethodReply, S.GreetHead, [5, 1, C.OfferedMethod(c.w)], [], 0, 0);
  }

  lemma ClientSendsRequest(c: Case, s: State, t: State, user: seq<byte>)
    requires C.ValidWanted(c.w) && Invariant(c, s) && s.spc == S.RequestHead(user) && s.toServer == []
    requires C.Reading(s.cpc) ==> s.toClient == [] || |s.toClient| == 2
    requires var (next, out) := C.SendRequest(c.w);
             t == s.(cpc := next, toServer := out, toClient := [], cGot := 0)
    ensures Invariant(c, t)
  {
  }

  lemma ClientReadsMethod(c: Case, s: State, t: State)
    requires C.ValidWanted(c.w) && Invariant(c, s) && ClientActs(c, s, t) && s.cpc.MethodReply?
    ensures Invariant(c, t)
  {
    var m := C.OfferedMethod(c.w);
    assert s.toClient == [5, m] && s.toServer == [];
    assert s.toClient[..2] == [5, m] && s.toClient[2..] == [];
    var (next, out) := C.Step(c.w, s.cpc, s.toClient[..2]);
    assert [] + out == out;
    if m == 0 {
      ClientSendsRequest(c, s, t, []);
    } else {
      assert s.spc == S.AuthVersion;
    }
  }

  lemma ClientReadsAuthReply(c: Case, s: State, t: State)
    requires C.ValidWanted(c.w) && Invariant(c, s) && ClientActs(c, s, t) && s.cpc.AuthReply?
    ensures Invariant(c, t)
  {
    assert s.spc.RequestHead? && s.toClient == [1, 0] && s.toServer == [];
    assert s.toClient[..2] == [1, 0] && s.toClient[2..] == [];
    var (next, out) := C.Step(c.w, s.cpc, s.toClient[..2]);
    assert [] + out == out;
    ClientSendsRequest(c, s, t, s.spc.user);
  }

  lemma ClientReadsReplyHead(c: Case, s: State, t: State)
    requires C.ValidWanted(c.w) && Invariant(c, s) && ClientActs(c, s, t) && s.cpc.ReplyHead?
    ensures Invariant(c, t)
  {
    var rep: byte := if c.dialOk then 0 else 5;
    assert (s.spc.Tunnel? || s.spc == S.Refused(S.DialFailed)) && s.toServer == [] && s.toClient == Reply(rep);
    assert s.toClient[..4] == [5, rep, 0, 1];
    Cut([], []);
  }

  lemma ClientReadsReplyRest(c: Case, s: State, t: State)
    requires C.ValidWanted(c.w) && Invariant(c, s) && ClientActs(c, s, t)
    requires s.cpc.ReplyNameLength? || s.cpc.ReplyRest?
    ensures Invariant(c, t)
  {
    assert s.spc.Tunnel? && s.cpc == C.ReplyRest(6) && s.toServer == [] && s.toClient == Reply(0)[4..];
    assert s.toClient[6..] == [];
    Cut([], []);
  }

  lemma ServerReadsGreeting(c: Case, s: State, t: State)
    requires C.ValidWanted(c.w) && Invariant(c, s) && ServerActs(s, t)
    requires s.spc.GreetHead? || s.spc.Methods?
    ensures Invariant(c, t)
  {
    var m := C.OfferedMethod(c.w);
    var none: seq<byte> := [];
    assert none + none == none;
    if s.spc.GreetHead? {
      assert s.toServer == [5, 1, m];
      assert s.toServer[..2] == [5, 1] && s.toServer[2..] == [m];
      assert t == State(C.MethodReply, S.Methods(1), [m], [], s.cGot, 0);
    } else {
      assert s.toServer[..1] == [m] && s.toServer[1..] == [];
      assert S.ChosenMethod([m]) == m;
      assert none + [5, m] == [5, m];
      assert t == State(C.MethodReply, if m == 2 then S.AuthVersion else S.RequestHead([]), [], [5, m], s.cGot, 0);
    }
  }

  lemma ServerReadsAuthHead(c: Case, s: State, t: State)
    requires C.ValidWanted(c.w) && Invariant(c, s) && ServerActs(s, t)
    requires s.spc.AuthVersion? || s.spc.UserLength?
    ensures Invariant(c, t)
  {
  }

  lemma ServerReadsAuth(c: Case, s: State, t: State)
    requires C.ValidWanted(c.w) && Invariant(c, s) && ServerActs(s, t)
    requires s.spc.User? || s.spc.PassLength? || s.spc.Pass?
    ensures Invariant(c, t)
  {
  }

  lemma RequestBytesCut(h: Host, port: nat)
    requires ValidHost(h) && Encodable(h) && port < 65536
    ensures var kind := HostBytes(h)[0];
            && RequestBytes(h, port)[..4] == [5, 1, 0, kind]
            && RequestBytes(h, port)[4..] == HostBytes(h)[1..] + PortBytes(port)
  {
  }

  lemma ServerReadsRequest(c: Case, s: State, t: State)
    requires C.ValidWanted(c.w) && Invariant(c, s) && ServerActs(s, t) && s.spc.RequestHead?
    ensures Invariant(c, t)
  {
    var w := c.w;
    assert Requesting(w, s, s.spc.user, RequestBytes(w.host, w.port));
    RequestBytesCut(w.host, w.port);
    hide RequestBytes;
    Cut([], []);
    assert t.toServer == HostBytes(w.host)[1..] + PortBytes(w.port) && t.toClient == [];
    match w.host {
      case Name(text) =>
        assert HostBytes(w.host)[1..] == [|text|] + text;
        assert t.toServer == [|text|] + (text + PortBytes(w.port));
      case Ip(octets) =>
        assert HostBytes(w.host)[1..] == if IsV4(octets) then octets[12..] else octets;
    }
  }

  lemma ServerReadsAddress(c: Case, s: State, t: State)
    requires C.ValidWanted(c.w) && Invariant(c, s) && ServerActs(s, t)
    requires s.spc.V4Address? || s.spc.V6Address? || s.spc.NameLength? || s.spc.NameText?
    ensures Invariant(c, t)
  {
    var w, port := c.w, PortBytes(c.w.port);
    Cut([], []);
    match w.host {
      case Name(text) =>
        Cut([|text|], text + port);
        Cut(text, port);
      case Ip(octets) =>
        Cut(octets, port);
        if IsV4(octets) {
          Cut(octets[12..], port);
          assert V4_PREFIX + octets[12..] == octets;
        }
    }
  }

  lemma ServerReadsPort(c: Case, s: State, t: State)
    requires C.ValidWanted(c.w) && Invariant(c, s) && ServerActs(s, t) && s.spc.Port?
    ensures Invariant(c, t)
  {
  }

  lemma ServerDialKeeps(c: Case, s: State, t: State)
    requires C.ValidWanted(c.w) && Invariant(c, s) && ServerDials(c, s, t)
    ensures Invariant(c, t)
  {
  }

  /** Receiving a part of a read, or reading the end of the input. */
  lemma WaitingKeeps(c: Case, s: State, t: State)
    requires C.ValidWanted(c.w) && Invariant(c, s)
    requires ClientReceives(s, t) || ClientEof(s, t) || ServerReceives(s, t) || ServerEof(s, t)
    ensures Invariant(c, t)
  {
  }

  /** Every step of either side, in any order and with any chunking, keeps the invariant. */
  lemma StepKeepsInvariant(c: Case, s: State, t: State)
    requires C.ValidWanted(c.w) && Invariant(c, s) && Next(c, s, t)
    ensures Invariant(c, t)
  {
    hide Invariant;
    if ClientActs(c, s, t) {
      match s.cpc {
        case Start => ClientStarts(c, s, t);
        case MethodReply => ClientReadsMethod(c, s, t);
        case AuthReply => ClientReadsAuthReply(c, s, t);
        case ReplyHead => ClientReadsReplyHead(c, s, t);
        case _ => ClientReadsReplyRest(c, s, t);
      }
    } else if ServerActs(s, t) {
      match s.spc {
        case GreetHead => ServerReadsGreeting(c, s, t);
        case Methods(_) => ServerReadsGreeting(c, s, t);
        case AuthVersion => ServerReadsAuthHead(c, s, t);
        case UserLength => ServerReadsAuthHead(c, s, t);
        case RequestHead(_) => ServerReadsRequest(c, s, t);
        case V4Address(_) => ServerReadsAddress(c, s, t);
        case V6Address(_) => ServerReadsAddress(c, s, t);
        case NameLength(_) => ServerReadsAddress(c, s, t);
        case NameText(_, _) => ServerReadsAddress(c, s, t);
        case Port(_, _) => ServerReadsPort(c, s, t);
        case _ => ServerReadsAuth(c, s, t);
      }
    } else if ServerDials(c, s, t) {
      ServerDialKeeps(c, s, t);
    } else {
      WaitingKeeps(c, s, t);
    }
  }

  // ----- Runs -----

  /** A bound on the steps left. */
  function Measure(s: State): nat
    requires (C.Reading(s.cpc) ==> s.cGot <= C.Need(s.cpc)) && (S.Reading(s.spc) ==> s.sGot <= S.Need(s.spc))
  {
    1000 * (C.Rank(s.cpc) + S.Rank(s.spc))
    + (if C.Reading(s.cpc) then C.Need(s.cpc) - s.cGot else 0)
    + (if S.Reading(s.spc) then S.Need(s.spc) - s.sGot else 0)
  }

  /** In every reachable state reads ask for fewer than 300 bytes. */
  lemma NeedsAreSmall(c: Case, s: State)
    requires C.ValidWanted(c.w) && Invariant(c, s)
    ensures C.Need(s.cpc) < 300 && S.Need(s.spc) < 300
  {
  }

  /** Every run ends: each step lowers the measure. */
  lemma StepLowersMeasure(c: Case, s: State, t: State)
    requires C.ValidWanted(c.w) && Invariant(c, s) && Next(c, s, t)
    ensures Invariant(c, t) && Measure(t) < Measure(s)
  {
    StepKeepsInvariant(c, s, t);
    NeedsAreSmall(c, s);
    NeedsAreSmall(c, t);
  }

  predicate ClientCanRead(s: State) {
    C.Reading(s.cpc) && C.Need(s.cpc) <= |s.toClient|
  }

  predicate ServerCanRead(s: State) {
    S.Reading(s.spc) && S.Need(s.spc) <= |s.toServer|
  }

  lemma SomeoneCanGo(c: Case, s: State)
    requires C.ValidWanted(c.w) && Invariant(c, s) && !Terminal(s)
    ensures s.spc.Requested? || ClientCanRead(s) || ServerCanRead(s) || (S.Reading(s.spc) && ClientClosed(s))
  {
  }

  /** A step the process that can go takes next. */
  function Go(c: Case, s: State): State
    requires C.ValidWanted(c.w) && Invariant(c, s) && !Terminal(s)
  {
    if s.spc.Requested? then
      s.(spc := if c.dialOk then S.Tunnel(s.spc.user, s.spc.host, s.spc.port) else S.Refused(S.DialFailed),
         toClient := s.toClient + Reply(if c.dialOk then 0 else 5))
    else if ClientCanRead(s) then
      if s.cGot < C.Need(s.cpc) then s.(cGot := C.Need(s.cpc))
      else
        var (next, out) := C.Step(c.w, s.cpc, s.toClient[..s.cGot]);
        s.(cpc := next, toServer := s.toServer + out, toClient := s.toClient[s.cGot..], cGot := 0)
    else if ServerCanRead(s) then
      if s.sGot < S.Need(s.spc) then s.(sGot := S.Need(s.spc))
      else
        var (next, out) := S.Step(s.spc, s.toServer[..s.sGot]);
        s.(spc := next, toClient := s.toClient + out, toServer := s.toServer[s.sGot..], sGot := 0)
    else s.(spc := S.Refused(S.PeerClosed), toServer := [], sGot := 0)
  }

  /** No reachable state is stuck before both sides are done. */
  lemma NoDeadlock(c: Case, s: State)
    requires C.ValidWanted(c.w) && Invariant(c, s) && !Terminal(s)
    ensures Next(c, s, Go(c, s))
  {
    SomeoneCanGo(c, s);
    hide Invariant;
  }

  /** A run: from the initial state by steps. */
  ghost predicate IsRun(c: Case, run: seq<State>)
    requires C.ValidWanted(c.w)
  {
    run != [] && run[0] == Init() && forall i | 0 < i < |run| :: Next(c, run[i - 1], run[i])
  }

  lemma InitInvariant(c: Case)
    requires C.ValidWanted(c.w)
    ensures Invariant(c, Init())
  {
  }

  lemma {:induction false} RunKeepsInvariant(c: Case, run: seq<State>)
    requires C.ValidWanted(c.w) && IsRun(c, run)
    ensures Invariant(c, run[|run| - 1])
    ensures Measure(run[|run| - 1]) + |run| - 1 <= Measure(Init())
  {
    hide Next, Invariant, Measure;
    var n := |run| - 1;
    if n == 0 {
      InitInvariant(c);
    } else {
      RunKeepsInvariant(c, run[..n]);
      StepLowersMeasure(c, run[n - 1], run[n]);
    }
  }

  /** The session succeeds exactly when the credentials can be sent, the name fits and the dial succeeds. */
  predicate Succeeds(c: Case) {
    !AuthFails(c.w) && Encodable(c.w.host) && c.dialOk
  }

  /** Success: the server got exactly what the client wanted, and both streams stand at the tunnel data. */
  predicate TunnelAligned(c: Case, s: State) {
    && s.cpc == C.Connected && s.toServer == [] && s.toClient == []
    && s.spc == S.Tunnel(c.w.user, c.w.host, c.w.port)
  }

  /** Failure: the client's reason, and how the server ended. */
  predicate FailsAs(c: Case, s: State) {
    if AuthFails(c.w) then s.cpc == C.Failed(AuthFailure(c.w)) && s.spc == S.Refused(S.PeerClosed)
    else if !Encodable(c.w.host) then s.cpc == C.Failed(C.DomainTooLong) && s.spc == S.Refused(S.PeerClosed)
    else s.cpc == C.Failed(C.ConnectFailed(5)) && s.spc == S.Refused(S.DialFailed)
  }

  lemma TerminalOutcome(c: Case, s: State)
    requires C.ValidWanted(c.w) && Invariant(c, s) && Terminal(s)
    ensures if Succeeds(c) then TunnelAligned(c, s) else FailsAs(c, s)
  {
  }

  /**
   * For every host, port, credentials and dial outcome, under every schedule and chunking: a run has at
   * most 19002 steps, it can go on until both sides are done, and then the outcome is the expected one.
   */
  lemma SessionIsCorrect(c: Case, run: seq<State>)
    requires C.ValidWanted(c.w) && IsRun(c, run)
    ensures |run| <= 19003
    ensures var s := run[|run| - 1];
            if Terminal(s) then (if Succeeds(c) then TunnelAligned(c, s) else FailsAs(c, s))
            else exists t :: IsRun(c, run + [t])
  {
    var s := run[|run| - 1];
    RunKeepsInvariant(c, run);
    assert Measure(Init()) == 19002;
    if Terminal(s) {
      TerminalOutcome(c, s);
    } else {
      hide Next, Invariant;
      NoDeadlock(c, s);
      assert IsRun(c, run + [Go(c, s)]);
    }
  }
}
