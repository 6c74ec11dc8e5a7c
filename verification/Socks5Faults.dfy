/**
 * The composed handshake of Socks5Session over links that break: each direction takes a number of bytes,
 * and the write that does not fit delivers the part that does and fails.
 */
module Socks5Faults {
  import opened Bytes
  import opened Socks5Wire
  import B = Socks5Session
  import C = Socks5Client
  import S = Socks5Server

  /** A session, and how many bytes the links to the server and to the client take. */
  datatype Case = Case(base: B.Case, toServer: nat, toClient: nat)

  predicate ValidCase(c: Case) {
    C.ValidWanted(c.base.w)
  }

  datatype State = State(s: B.State, toServer: nat, toClient: nat)

  function Init(c: Case): State {
    State(B.Init(), c.toServer, c.toClient)
  }

  // ----- Steps -----

  predicate ClientReady(s: B.State) {
    C.Reading(s.cpc) && s.cGot == C.Need(s.cpc) <= |s.toClient|
  }

  /** The client's step when its write succeeds. */
  function ClientNext(c: Case, s: B.State): (t: B.State)
    requires ValidCase(c) && ClientReady(s)
    ensures B.ClientActs(c.base, s, t)
    ensures s.toServer <= t.toServer && t.spc == s.spc && t.sGot == s.sGot && t.cGot == 0
  {
    var (next, out) := C.Step(c.base.w, s.cpc, s.toClient[..s.cGot]);
    s.(cpc := next, toServer := s.toServer + out, toClient := s.toClient[s.cGot..], cGot := 0)
  }

  /** The client has gone from x to u and has written n bytes on the way, as far as they fit. */
  predicate ClientWrites(x: State, u: B.State, y: State)
    requires |x.s.toServer| <= |u.toServer|
  {
    var n := |u.toServer| - |x.s.toServer|;
    y == if n <= x.toServer then State(u, x.toServer - n, x.toClient)
         else State(u.(cpc := C.Failed(C.WriteFailed), toServer := u.toServer[..|x.s.toServer| + x.toServer]),
                    0, x.toClient)
  }

  predicate ClientActs(c: Case, x: State, y: State)
    requires ValidCase(c)
  {
    ClientReady(x.s) && ClientWrites(x, ClientNext(c, x.s), y)
  }

  predicate ServerReady(s: B.State) {
    S.Reading(s.spc) && s.sGot == S.Need(s.spc) <= |s.toServer|
  }

  /** The server's step, or its reply after the dial, when its write succeeds. */
  function ServerNext(c: Case, s: B.State): (t: B.State)
    requires ServerReady(s) || s.spc.Requested?
    ensures B.ServerActs(s, t) || B.ServerDials(c.base, s, t)
    ensures s.toClient <= t.toClient && t.cpc == s.cpc && t.cGot == s.cGot
  {
    if s.spc.Requested? then
      s.(spc := if c.base.dialOk then S.Tunnel(s.spc.user, s.spc.host, s.spc.port) else S.Refused(S.DialFailed),
         toClient := s.toClient + Reply(if c.base.dialOk then 0 else 5))
    else
      var (next, out) := S.Step(s.spc, s.toServer[..s.sGot]);
      s.(spc := next, toClient := s.toClient + out, toServer := s.toServer[s.sGot..], sGot := 0)
  }

  /** The server has gone from x to u; it ignores a failed write only when it refuses. */
  predicate ServerWrites(x: State, u: B.State, y: State)
    requires |x.s.toClient| <= |u.toClient|
  {
    var n := |u.toClient| - |x.s.toClient|;
    y == if n <= x.toClient then State(u, x.toServer, x.toClient - n)
         else State(u.(spc := if u.spc.Refused? then u.spc else S.Refused(S.WriteFailed),
                       toClient := u.toClient[..|x.s.toClient| + x.toClient]),
                    x.toServer, 0)
  }

  predicate ServerActs(c: Case, x: State, y: State) {
    (ServerReady(x.s) || x.s.spc.Requested?) && ServerWrites(x, ServerNext(c, x.s), y)
  }

  /** Receiving a part of a read, or the end of the input. */
  predicate Waits(x: State, y: State) {
    && y == x.(s := y.s)
    && (|| B.ClientReceives(x.s, y.s) || B.ClientEof(x.s, y.s)
        || B.ServerReceives(x.s, y.s) || B.ServerEof(x.s, y.s))
  }

  predicate Next(c: Case, x: State, y: State)
    requires ValidCase(c)
  {
    ClientActs(c, x, y) || ServerActs(c, x, y) || Waits(x, y)
  }

  // ----- How much each side writes -----

  function AuthLength(w: C.Wanted): nat {
    if C.OfferedMethod(w) == 2 && B.Sendable(w) then |AuthBytes(w.user, w.pass)| else 0
  }

  function RequestLength(w: C.Wanted): nat
    requires C.ValidWanted(w)
  {
    if Encodable(w.host) then |RequestBytes(w.host, w.port)| else 0
  }

  /** The bytes that a client at cpc has written. */
  function SentByClient(w: C.Wanted, cpc: C.ClientPc): nat
    requires C.ValidWanted(w)
  {
    match cpc
    case Start => 0
    case MethodReply => 3
    case AuthReply => 3 + AuthLength(w)
    case Failed(why) =>
      if why == C.NeedCredentials || why == C.CredentialsTooLong then 3
      else if why == C.DomainTooLong then 3 + AuthLength(w)
      else 3 + AuthLength(w) + RequestLength(w)
    case _ => 3 + AuthLength(w) + RequestLength(w)
  }

  /** The bytes that a server at spc has written. */
  function SentByServer(w: C.Wanted, spc: S.ServerPc): nat {
    match spc
    case GreetHead => 0
    case Methods(_) => 0
    case AuthVersion => 2
    case UserLength => 2
    case User(_) => 2
    case PassLength(_) => 2
    case Pass(_, _) => 2
    case Tunnel(_, _, _) => 2 + C.OfferedMethod(w) as int + 10
    case Refused(why) =>
      if why == S.DialFailed then 2 + C.OfferedMethod(w) as int + 10
      else if B.AuthFails(w) then 2 else 2 + C.OfferedMethod(w) as int
    case _ => 2 + C.OfferedMethod(w) as int
  }

  /** The links take everything that a successful handshake writes. */
  predicate Fits(c: Case)
    requires ValidCase(c)
  {
    var w := c.base.w;
    && 3 + AuthLength(w) + RequestLength(w) <= c.toServer
    && 2 + C.OfferedMethod(w) as int + 10 <= c.toClient
  }

  predicate Succeeds(c: Case)
    requires ValidCase(c)
  {
    B.Succeeds(c.base) && Fits(c)
  }

  // ----- The invariant -----

  /** No write has failed. */
  predicate Intact(c: Case, x: State)
    requires ValidCase(c)
  {
    && B.Invariant(c.base, x.s)
    && x.toServer + SentByClient(c.base.w, x.s.cpc) == c.toServer
    && x.toClient + SentByServer(c.base.w, x.s.spc) == c.toClient
  }

  /** A write of the client has failed; u is what would be if it had not, and the server has yet to notice. */
  predicate ClientBroke(c: Case, x: State, u: B.State)
    requires ValidCase(c)
  {
    && !Succeeds(c) && B.Invariant(c.base, u) && C.Reading(u.cpc)
    && x.s.cpc == C.Failed(C.WriteFailed)
    && S.Reading(x.s.spc) && x.s.spc == u.spc && x.s.toClient == u.toClient
    && x.s.sGot == u.sGot <= |x.s.toServer|
    && x.s.toServer <= u.toServer && |x.s.toServer| < |u.toServer|
  }

  /** A write of the server has failed, and the client has yet to notice. */
  predicate ServerBroke(c: Case, x: State, u: B.State)
    requires ValidCase(c)
  {
    && !Succeeds(c) && B.Invariant(c.base, u)
    && x.s.spc.Refused?
    && C.Reading(x.s.cpc) && x.s.cpc == u.cpc && x.s.toServer == u.toServer
    && x.s.cGot == u.cGot <= |x.s.toClient|
    && x.s.toClient <= u.toClient && |x.s.toClient| < |u.toClient|
  }

  predicate BothFailed(s: B.State) {
    s.cpc.Failed? && s.spc.Refused?
  }

  ghost predicate Invariant(c: Case, x: State)
    requires ValidCase(c)
  {
    || Intact(c, x)
    || (exists u :: ClientBroke(c, x, u))
    || (exists u :: ServerBroke(c, x, u))
    || (!Succeeds(c) && BothFailed(x.s))
  }

  // ----- Every step keeps it -----

  /** What the client reads in an unbroken session. */
  lemma ClientInput(c: Case, s: B.State)
    requires ValidCase(c) && B.Invariant(c.base, s) && ClientReady(s)
    ensures var b, m := s.toClient[..s.cGot], C.OfferedMethod(c.base.w);
            match s.cpc
            case MethodReply => b == [5, m]
            case AuthReply => b == [1, 0] && m == 2 && B.Sendable(c.base.w)
            case ReplyHead => b == [5, if c.base.dialOk then 0 else 5, 0, 1] && Encodable(c.base.w.host)
            case ReplyRest(n) => n == 6
            case Start => true
            case _ => false
    ensures !s.cpc.Start? && !s.cpc.MethodReply? ==> !B.AuthFails(c.base.w)
  {
    assert Reply(0)[..4] == [5, 0, 0, 1] && Reply(5)[..4] == [5, 5, 0, 1];
  }

  /** In an unbroken session, what the client's next write adds is what the lengths say. */
  lemma ClientSends(c: Case, s: B.State)
    requires ValidCase(c) && B.Invariant(c.base, s) && ClientReady(s)
    ensures var u, w := ClientNext(c, s), c.base.w;
            && |u.toServer| - |s.toServer| == SentByClient(w, u.cpc) - SentByClient(w, s.cpc)
            && (|u.toServer| > |s.toServer| ==> C.Reading(u.cpc))
            && SentByClient(w, u.cpc) <= 3 + AuthLength(w) + RequestLength(w)
  {
    ClientInput(c, s);
    hide B.Invariant, AuthBytes, RequestBytes;
  }

  /** What the server expects to read in an unbroken session. */
  predicate Expected(w: C.Wanted, pc: S.ServerPc, b: seq<byte>)
    requires S.Reading(pc) && |b| == S.Need(pc)
  {
    match pc
    case GreetHead => b == [5, 1]
    case Methods(_) => b == [C.OfferedMethod(w)]
    case AuthVersion => b == [1] && C.OfferedMethod(w) == 2
    case Pass(_, _) => C.OfferedMethod(w) == 2
    case RequestHead(_) => b[0] == 5 && b[1] == 1 && (b[3] == 1 || b[3] == 3 || b[3] == 4)
    case _ => true
  }

  /** What the server reads in an unbroken session; the client is waiting, and an answer leaves nothing unread. */
  lemma ServerInput(c: Case, s: B.State)
    requires ValidCase(c) && B.Invariant(c.base, s) && ServerReady(s)
    ensures Expected(c.base.w, s.spc, s.toServer[..s.sGot])
    ensures s.spc.Methods? || s.spc.Pass? ==> s.toServer[s.sGot..] == []
    ensures C.Reading(s.cpc) && s.toClient == []
  {
  }

  /** What it writes then is what the lengths say. */
  lemma ExpectedOut(w: C.Wanted, pc: S.ServerPc, b: seq<byte>)
    requires S.Reading(pc) && |b| == S.Need(pc) && Expected(w, pc, b)
    ensures var (next, out) := S.Step(pc, b);
            && |out| == SentByServer(w, next) - SentByServer(w, pc)
            && SentByServer(w, next) <= 2 + C.OfferedMethod(w) as int + 10
            && (out != [] ==> pc.Methods? || pc.Pass?)
  {
    assert S.ChosenMethod([C.OfferedMethod(w)]) == C.OfferedMethod(w);
    hide S.ChosenMethod, B.AuthFails;
  }

  /** The server's answer to a read leaves nothing unread. */
  lemma ServerAnswers(c: Case, s: B.State)
    requires ValidCase(c) && B.Invariant(c.base, s) && ServerReady(s)
    ensures var u, w := ServerNext(c, s), c.base.w;
            && |u.toClient| - |s.toClient| == SentByServer(w, u.spc) - SentByServer(w, s.spc)
            && SentByServer(w, u.spc) <= 2 + C.OfferedMethod(w) as int + 10
            && (|u.toClient| > |s.toClient| ==> u.toServer == [])
  {
    ServerInput(c, s);
    hide B.Invariant, S.Step, SentByServer;
    ExpectedOut(c.base.w, s.spc, s.toServer[..s.sGot]);
  }

  lemma ServerReplies(c: Case, s: B.State)
    requires ValidCase(c) && B.Invariant(c.base, s) && s.spc.Requested?
    ensures var u, w := ServerNext(c, s), c.base.w;
            && |u.toClient| - |s.toClient| == SentByServer(w, u.spc) - SentByServer(w, s.spc)
            && SentByServer(w, u.spc) <= 2 + C.OfferedMethod(w) as int + 10
    ensures C.Reading(s.cpc) && s.toClient == []
  {
  }

  /** What the server's next write adds is what the lengths say; the client is waiting for it. */
  lemma ServerSends(c: Case, s: B.State)
    requires ValidCase(c) && B.Invariant(c.base, s) && (ServerReady(s) || s.spc.Requested?)
    ensures var u, w := ServerNext(c, s), c.base.w;
            && |u.toClient| - |s.toClient| == SentByServer(w, u.spc) - SentByServer(w, s.spc)
            && SentByServer(w, u.spc) <= 2 + C.OfferedMethod(w) as int + 10
            && C.Reading(u.cpc) && s.toClient == [] && s.cGot == 0
            && (ServerReady(s) && |u.toClient| > |s.toClient| ==> u.toServer == [])
  {
    assert C.Reading(s.cpc) ==> s.cGot <= |s.toClient|;
    hide B.Invariant, SentByServer, ServerNext, B.ServerActs, B.ServerDials;
    if ServerReady(s) {
      ServerInput(c, s);
      ServerAnswers(c, s);
    } else {
      ServerReplies(c, s);
    }
  }

  /** While the client waits, bytes on the way to the server find it reading. */
  lemma PendingMeansReading(c: Case, u: B.State)
    requires ValidCase(c) && B.Invariant(c.base, u)
    ensures C.Reading(u.cpc) && u.toServer != [] ==> S.Reading(u.spc)
    ensures S.Reading(u.spc) ==> u.sGot <= |u.toServer|
  {
  }

  lemma IntactClientActs(c: Case, x: State, y: State)
    requires ValidCase(c) && Intact(c, x) && ClientActs(c, x, y)
    ensures Invariant(c, y)
  {
    hide B.Invariant, B.ClientActs, SentByClient, SentByServer, AuthLength, RequestLength, ClientNext, B.Succeeds;
    var u := ClientNext(c, x.s);
    assert B.Next(c.base, x.s, u);
    B.StepKeepsInvariant(c.base, x.s, u);
    ClientSends(c, x.s);
    PendingMeansReading(c, x.s);
    PendingMeansReading(c, u);
    hide B.Next, ClientReady;
    if |u.toServer| - |x.s.toServer| <= x.toServer {
      assert Intact(c, y);
    } else {
      assert ClientBroke(c, y, u);
    }
  }

  lemma IntactServerActs(c: Case, x: State, y: State)
    requires ValidCase(c) && Intact(c, x) && ServerActs(c, x, y)
    ensures Invariant(c, y)
  {
    hide B.Invariant, B.ServerActs, B.ServerDials, SentByClient, SentByServer, AuthLength, RequestLength, ServerNext;
    hide B.Succeeds;
    var u := ServerNext(c, x.s);
    assert B.Next(c.base, x.s, u);
    B.StepKeepsInvariant(c.base, x.s, u);
    ServerSends(c, x.s);
    hide B.Next, ServerReady;
    if |u.toClient| - |x.s.toClient| <= x.toClient {
      assert Intact(c, y);
    } else {
      assert ServerBroke(c, y, u);
    }
  }

  lemma IntactWaits(c: Case, x: State, y: State)
    requires ValidCase(c) && Intact(c, x) && Waits(x, y)
    ensures Intact(c, y)
  {
    B.WaitingKeeps(c.base, x.s, y.s);
  }

  /** The server reads a prefix of what it would read, and does the same. */
  lemma ServerOnPrefix(c: Case, s: B.State, u: B.State)
    requires ServerReady(s) && ServerReady(u) && s.spc == u.spc && s.toClient == u.toClient && s.toServer <= u.toServer
    ensures var v, w := ServerNext(c, s), ServerNext(c, u);
            && v.spc == w.spc && v.toClient == w.toClient && v.sGot == w.sGot == 0
            && v.toServer <= w.toServer && |w.toServer| - |v.toServer| == |u.toServer| - |s.toServer|
  {
    assert s.toServer[..s.sGot] == u.toServer[..u.sGot];
    hide S.Step;
  }

  lemma ClientBrokeServerActs(c: Case, x: State, y: State, u: B.State)
    requires ValidCase(c) && ClientBroke(c, x, u) && ServerActs(c, x, y)
    ensures ClientBroke(c, y, ServerNext(c, u))
  {
    hide B.Invariant, B.ServerActs, B.ServerDials, SentByServer, ServerNext, Succeeds;
    assert ServerReady(u);
    var v, w := ServerNext(c, x.s), ServerNext(c, u);
    ServerOnPrefix(c, x.s, u);
    assert B.Next(c.base, u, w);
    B.StepKeepsInvariant(c.base, u, w);
    ServerSends(c, u);
    PendingMeansReading(c, w);
    hide B.Next;
    assert w.toServer != [];
    assert |v.toClient| == |x.s.toClient|;
  }

  lemma ClientBrokeWaits(c: Case, x: State, y: State, u: B.State)
    requires ValidCase(c) && ClientBroke(c, x, u) && Waits(x, y)
    ensures ClientBroke(c, y, u.(sGot := y.s.sGot)) || BothFailed(y.s)
  {
    hide B.Invariant, Succeeds;
    if B.ServerReceives(x.s, y.s) {
      var w := u.(sGot := y.s.sGot);
      assert B.ServerReceives(u, w);
      assert B.Next(c.base, u, w);
      B.StepKeepsInvariant(c.base, u, w);
    }
  }

  /** The client reads a prefix of what it would read, and does the same. */
  lemma ClientOnPrefix(c: Case, s: B.State, u: B.State)
    requires ValidCase(c) && ClientReady(s) && ClientReady(u)
    requires s.cpc == u.cpc && s.toServer == u.toServer && s.toClient <= u.toClient
    ensures var v, w := ClientNext(c, s), ClientNext(c, u);
            && v.cpc == w.cpc && v.toServer == w.toServer
            && v.toClient <= w.toClient && |w.toClient| - |v.toClient| == |u.toClient| - |s.toClient|
  {
    assert s.toClient[..s.cGot] == u.toClient[..u.cGot];
    hide C.Step;
  }

  /** The only read that a truncated reply still satisfies is that of its head. */
  lemma TruncatedReply(c: Case, u: B.State)
    requires ValidCase(c) && B.Invariant(c.base, u) && ClientReady(u) && |u.toClient| > u.cGot
    ensures u.cpc.ReplyHead?
    ensures var w := ClientNext(c, u); w.toServer == u.toServer && (C.Reading(w.cpc) || w.cpc.Failed?)
  {
    ClientInput(c, u);
  }

  lemma ServerBrokeClientActs(c: Case, x: State, y: State, u: B.State)
    requires ValidCase(c) && ServerBroke(c, x, u) && ClientActs(c, x, y)
    ensures ServerBroke(c, y, ClientNext(c, u)) || BothFailed(y.s)
  {
    hide B.Invariant, B.ClientActs, ClientNext, Succeeds;
    assert ClientReady(u);
    var v, w := ClientNext(c, x.s), ClientNext(c, u);
    ClientOnPrefix(c, x.s, u);
    TruncatedReply(c, u);
    assert B.Next(c.base, u, w);
    B.StepKeepsInvariant(c.base, u, w);
    hide B.Next;
    assert |v.toServer| == |x.s.toServer|;
  }

  lemma ServerBrokeWaits(c: Case, x: State, y: State, u: B.State)
    requires ValidCase(c) && ServerBroke(c, x, u) && Waits(x, y)
    ensures ServerBroke(c, y, u.(cGot := y.s.cGot)) || BothFailed(y.s)
  {
    hide B.Invariant, Succeeds;
    if B.ClientReceives(x.s, y.s) {
      var w := u.(cGot := y.s.cGot);
      assert B.ClientReceives(u, w);
      assert B.Next(c.base, u, w);
      B.StepKeepsInvariant(c.base, u, w);
    }
  }

  /** Every step of either side keeps the invariant, whatever writes fail. */
  lemma StepKeepsInvariant(c: Case, x: State, y: State)
    requires ValidCase(c) && Invariant(c, x) && Next(c, x, y)
    ensures Invariant(c, y)
  {
    hide ClientWrites, ServerWrites, B.Invariant, Succeeds, SentByClient, SentByServer;
    if Intact(c, x) {
      if ClientActs(c, x, y) {
        IntactClientActs(c, x, y);
      } else if ServerActs(c, x, y) {
        IntactServerActs(c, x, y);
      } else {
        IntactWaits(c, x, y);
      }
    } else if u :| ClientBroke(c, x, u) {
      if ServerActs(c, x, y) {
        ClientBrokeServerActs(c, x, y, u);
      } else if Waits(x, y) {
        ClientBrokeWaits(c, x, y, u);
      }
    } else if u :| ServerBroke(c, x, u) {
      if ClientActs(c, x, y) {
        ServerBrokeClientActs(c, x, y, u);
      } else if Waits(x, y) {
        ServerBrokeWaits(c, x, y, u);
      }
    }
  }

  // ----- Runs -----

  /** Reads ask for few bytes, and no more has been received than was asked for. */
  predicate Small(s: B.State) {
    && C.Need(s.cpc) < 300 && S.Need(s.spc) < 300
    && (C.Reading(s.cpc) ==> s.cGot <= C.Need(s.cpc)) && (S.Reading(s.spc) ==> s.sGot <= S.Need(s.spc))
  }

  lemma InvariantSmall(c: Case, x: State)
    requires ValidCase(c) && Invariant(c, x)
    ensures Small(x.s)
  {
    if Intact(c, x) {
      B.NeedsAreSmall(c.base, x.s);
    } else if u :| ClientBroke(c, x, u) {
      B.NeedsAreSmall(c.base, u);
    } else if u :| ServerBroke(c, x, u) {
      B.NeedsAreSmall(c.base, u);
    }
  }

  lemma ActsLowerRank(c: Case, x: State, y: State)
    requires ValidCase(c)
    ensures ClientActs(c, x, y) ==>
              C.Rank(y.s.cpc) < C.Rank(x.s.cpc) && y.s.cGot == 0 && y.s.spc == x.s.spc && y.s.sGot == x.s.sGot
    ensures ServerActs(c, x, y) ==>
              S.Rank(y.s.spc) < S.Rank(x.s.spc) && (y.s.sGot == 0 || !S.Reading(y.s.spc))
              && y.s.cpc == x.s.cpc && y.s.cGot == x.s.cGot
  {
    hide C.Step, S.Step;
  }

  lemma WaitsLower(x: State, y: State)
    requires Waits(x, y) && Small(x.s) && Small(y.s)
    ensures B.Measure(y.s) < B.Measure(x.s)
  {
  }

  /** Every run ends: each step lowers the measure. */
  lemma StepLowersMeasure(c: Case, x: State, y: State)
    requires ValidCase(c) && Invariant(c, x) && Next(c, x, y)
    ensures Invariant(c, y) && Small(x.s) && Small(y.s) && B.Measure(y.s) < B.Measure(x.s)
  {
    hide Invariant, ClientActs, ServerActs;
    StepKeepsInvariant(c, x, y);
    InvariantSmall(c, x);
    InvariantSmall(c, y);
    if Waits(x, y) {
      WaitsLower(x, y);
    } else {
      ActsLowerRank(c, x, y);
      hide Waits, C.Rank, C.Need, S.Rank, S.Need;
    }
  }

  /** Something can happen: a dial is pending, a read can be served, or it meets the end of its input. */
  predicate Enabled(s: B.State) {
    || s.spc.Requested? || B.ClientCanRead(s) || B.ServerCanRead(s)
    || (S.Reading(s.spc) && B.ClientClosed(s)) || (C.Reading(s.cpc) && B.ServerClosed(s))
  }

  lemma InvariantEnabled(c: Case, x: State)
    requires ValidCase(c) && Invariant(c, x) && !B.Terminal(x.s)
    ensures Enabled(x.s)
  {
    if Intact(c, x) {
      B.SomeoneCanGo(c.base, x.s);
    }
  }

  lemma ClientCanGo(c: Case, x: State) returns (y: State)
    requires ValidCase(c) && Small(x.s) && C.Reading(x.s.cpc) && (B.ClientCanRead(x.s) || B.ServerClosed(x.s))
    ensures Next(c, x, y)
  {
    if !B.ClientCanRead(x.s) {
      y := x.(s := x.s.(cpc := C.Failed(C.ReadFailed), toClient := [], cGot := 0));
    } else if x.s.cGot < C.Need(x.s.cpc) {
      y := x.(s := x.s.(cGot := C.Need(x.s.cpc)));
    } else {
      var u := ClientNext(c, x.s);
      hide ClientNext;
      var n := |u.toServer| - |x.s.toServer|;
      y := if n <= x.toServer then State(u, x.toServer - n, x.toClient)
           else State(u.(cpc := C.Failed(C.WriteFailed), toServer := u.toServer[..|x.s.toServer| + x.toServer]),
                      0, x.toClient);
      assert ClientActs(c, x, y);
    }
  }

  lemma ServerCanGo(c: Case, x: State) returns (y: State)
    requires ValidCase(c) && Small(x.s)
    requires x.s.spc.Requested? || B.ServerCanRead(x.s) || (S.Reading(x.s.spc) && B.ClientClosed(x.s))
    ensures Next(c, x, y)
  {
    if S.Reading(x.s.spc) && !B.ServerCanRead(x.s) {
      y := x.(s := x.s.(spc := S.Refused(S.PeerClosed), toServer := [], sGot := 0));
    } else if S.Reading(x.s.spc) && x.s.sGot < S.Need(x.s.spc) {
      y := x.(s := x.s.(sGot := S.Need(x.s.spc)));
    } else {
      var u := ServerNext(c, x.s);
      hide ServerNext;
      var n := |u.toClient| - |x.s.toClient|;
      y := if n <= x.toClient then State(u, x.toServer, x.toClient - n)
           else State(u.(spc := if u.spc.Refused? then u.spc else S.Refused(S.WriteFailed),
                         toClient := u.toClient[..|x.s.toClient| + x.toClient]),
                      x.toServer, 0);
      assert ServerActs(c, x, y);
    }
  }

  /** Whatever has failed, some step is possible until both sides are done. */
  lemma NoDeadlock(c: Case, x: State) returns (y: State)
    requires ValidCase(c) && Invariant(c, x) && !B.Terminal(x.s)
    ensures Next(c, x, y)
  {
    InvariantEnabled(c, x);
    InvariantSmall(c, x);
    hide Invariant, Next;
    if C.Reading(x.s.cpc) && (B.ClientCanRead(x.s) || B.ServerClosed(x.s)) {
      y := ClientCanGo(c, x);
    } else {
      y := ServerCanGo(c, x);
    }
  }

  ghost predicate IsRun(c: Case, run: seq<State>)
    requires ValidCase(c)
  {
    run != [] && run[0] == Init(c) && forall i | 0 < i < |run| :: Next(c, run[i - 1], run[i])
  }

  lemma InitInvariant(c: Case)
    requires ValidCase(c)
    ensures Invariant(c, Init(c)) && Small(B.Init()) && B.Measure(B.Init()) == 19002
  {
    B.InitInvariant(c.base);
    assert Intact(c, Init(c));
  }

  lemma {:induction false} RunKeepsInvariant(c: Case, run: seq<State>, i: nat)
    requires ValidCase(c) && IsRun(c, run) && i < |run|
    ensures Invariant(c, run[i]) && Small(run[i].s) && B.Measure(run[i].s) + i <= 19002
  {
    hide Next, Invariant, Small, B.Measure;
    if i == 0 {
      InitInvariant(c);
    } else {
      RunKeepsInvariant(c, run, i - 1);
      StepLowersMeasure(c, run[i - 1], run[i]);
    }
  }

  /** The server has the client's user, host and port. */
  predicate RightRequest(c: Case, s: B.State) {
    match s.spc
    case Requested(u, h, p) => u == B.Shown(c.base.w) && h == c.base.w.host && p == c.base.w.port
    case Tunnel(u, h, p) => u == B.Shown(c.base.w) && h == c.base.w.host && p == c.base.w.port
    case _ => true
  }

  lemma RequestIsRight(c: Case, x: State)
    requires ValidCase(c) && Invariant(c, x)
    ensures RightRequest(c, x.s)
  {
  }

  lemma TerminalOutcome(c: Case, x: State)
    requires ValidCase(c) && Invariant(c, x) && B.Terminal(x.s)
    ensures if Succeeds(c) then B.TunnelAligned(c.base, x.s) else BothFailed(x.s)
  {
    if Intact(c, x) {
      B.TerminalOutcome(c.base, x.s);
    }
  }

  /**
   * Whatever the links take, under every schedule and chunking: a run has at most 19002 steps and can go on
   * until both sides are done; the server never acts on anything but the client's request; and in the end both
   * sides hold an aligned tunnel if credentials, name and dial allow it and the links take all that is written,
   * and otherwise both have failed.
   */
  lemma BrokenSessionIsCorrect(c: Case, run: seq<State>)
    requires ValidCase(c) && IsRun(c, run)
    ensures |run| <= 19003
    ensures forall x | x in run :: RightRequest(c, x.s)
    ensures var x := run[|run| - 1];
            if B.Terminal(x.s) then (if Succeeds(c) then B.TunnelAligned(c.base, x.s) else BothFailed(x.s))
            else exists y :: IsRun(c, run + [y])
  {
    hide Invariant, Next, Succeeds, RightRequest, B.Measure, Small;
    var x := run[|run| - 1];
    forall i: nat | i < |run|
      ensures RightRequest(c, run[i].s)
    {
      RunKeepsInvariant(c, run, i);
      RequestIsRight(c, run[i]);
    }
    RunKeepsInvariant(c, run, |run| - 1);
    if B.Terminal(x.s) {
      TerminalOutcome(c, x);
    } else {
      var y := NoDeadlock(c, x);
      assert IsRun(c, run + [y]);
    }
  }
}
