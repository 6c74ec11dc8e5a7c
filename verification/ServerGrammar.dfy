/**
 * What the server does with every possible session (internal/proxy/socks5.go), as functions of the bytes that
 * arrive: offsets and literal bytes of RFC 1928 and RFC 1929, without the machine's states.
 */
module ServerGrammar {
  import opened Bytes
  import opened Sequences
  import opened Socks5Server
  import opened Socks5Wire

  /** Either the input ends too early, or the handshake ends. */
  datatype Heard = Starved(written: seq<byte>) | Ended(ran: Ran)

  /** v after n bytes have been used and out has been written. */
  function Later(n: nat, out: seq<byte>, v: Heard): Heard {
    match v
    case Starved(written) => Starved(out + written)
    case Ended(r) => Ended(Ran(r.pc, n + r.used, out + r.written))
  }

  predicate Agrees(r: Ran, v: Heard) {
    match v
    case Starved(written) => Reading(r.pc) && r.written == written
    case Ended(ran) => r == ran
  }

  // ----- The request -----

  function Word(high: byte, low: byte): nat {
    high as int * 256 + low as int
  }

  /** r begins with a CONNECT request for h and p; commands other than 1 and versions other than 5 are none. */
  predicate BeginsWithRequest(r: seq<byte>, h: Host, p: nat) {
    && |r| >= 4 && r[0] == 5 && r[1] == 1
    && (|| (r[3] == 1 && |r| >= 10
            && h == Ip([0, 0, 0, 0, 0, 0, 0, 0, 0, 0, 255, 255] + r[4..8]) && p == Word(r[8], r[9]))
        || (r[3] == 4 && |r| >= 22 && h == Ip(r[4..20]) && p == Word(r[20], r[21]))
        || (r[3] == 3 && |r| >= 5 && |r| >= 7 + r[4] as int
            && h == Name(r[5..5 + r[4] as int]) && p == Word(r[5 + r[4] as int], r[6 + r[4] as int])))
  }

  function RequestVerdict(user: seq<byte>, r: seq<byte>): Heard {
    if |r| < 4 then Starved([])
    else if r[0] != 5 || r[1] != 1 then Ended(Ran(Refused(BadCommand), 4, [5, 7, 0, 1, 0, 0, 0, 0, 0, 0]))
    else if r[3] == 1 then
      if |r| < 10 then Starved([])
      else
        Ended(Ran(Requested(user, Ip([0, 0, 0, 0, 0, 0, 0, 0, 0, 0, 255, 255] + r[4..8]), Word(r[8], r[9])), 10, []))
    else if r[3] == 4 then
      if |r| < 22 then Starved([]) else Ended(Ran(Requested(user, Ip(r[4..20]), Word(r[20], r[21])), 22, []))
    else if r[3] == 3 then
      if |r| < 5 || |r| < 7 + r[4] as int then Starved([])
      else
        var n := r[4] as int;
        Ended(Ran(Requested(user, Name(r[5..5 + n]), Word(r[5 + n], r[6 + n])), 7 + n, []))
    else Ended(Ran(Refused(BadAddressType), 4, [5, 8, 0, 1, 0, 0, 0, 0, 0, 0]))
  }

  lemma RunStops(pc: ServerPc, s: seq<byte>)
    requires !Reading(pc) || |s| < Need(pc)
    ensures Run(pc, s) == Ran(pc, 0, [])
  {
  }

  function After(n: nat, out: seq<byte>, r: Ran): Ran {
    Ran(r.pc, n + r.used, out + r.written)
  }

  lemma AfterAgrees(n: nat, out: seq<byte>, r: Ran, v: Heard)
    requires Agrees(r, v)
    ensures Agrees(After(n, out, r), Later(n, out, v))
  {
  }

  lemma AfterTwice(m: nat, a: seq<byte>, n: nat, b: seq<byte>, r: Ran, v: Heard)
    ensures After(m, a, After(n, b, r)) == After(m + n, a + b, r)
    ensures Later(m, a, Later(n, b, v)) == Later(m + n, a + b, v)
    ensures [] + b == b
  {
    Associative(a, b, r.written);
    match v
    case Starved(written) => Associative(a, b, written);
    case Ended(ran) => Associative(a, b, ran.written);
  }

  lemma RunGoes(pc: ServerPc, s: seq<byte>, next: ServerPc, out: seq<byte>)
    requires Reading(pc) && |s| >= Need(pc) && Step(pc, s[..Need(pc)]) == (next, out)
    ensures Run(pc, s) == After(Need(pc), out, Run(next, s[Need(pc)..]))
  {
    RunsStep(pc, s, 0);
    hide Step, Run;
  }

  lemma RunAtPort(user: seq<byte>, host: Host, s: seq<byte>)
    ensures var r := Run(Port(user, host), s);
            if |s| < 2 then Reading(r.pc) && r.written == []
            else r == Ran(Requested(user, host, Word(s[0], s[1])), 2, [])
  {
  }

  /** An address of n bytes and a port. */
  lemma RunAtAddress(pc: ServerPc, n: nat, host: Host, s: seq<byte>)
    requires pc.V4Address? || pc.V6Address? || pc.NameText?
    requires n == Need(pc) && (|s| >= n ==> Step(pc, s[..n]) == (Port(pc.user, host), []))
    ensures var r := Run(pc, s);
            if |s| < n + 2 then Reading(r.pc) && r.written == []
            else r == Ran(Requested(pc.user, host, Word(s[n], s[n + 1])), n + 2, [])
  {
    hide Run, Step;
    if |s| >= n {
      RunGoes(pc, s, Port(pc.user, host), []);
      RunAtPort(pc.user, host, s[n..]);
    } else {
      RunStops(pc, s);
    }
  }

  lemma NameSteps(user: seq<byte>, s: seq<byte>, n: byte, t: seq<byte>)
    ensures |s| >= 1 ==> Run(NameLength(user), s) == After(1, [], Run(NameText(user, s[0]), s[1..]))
    ensures |s| < 1 ==> Run(NameLength(user), s) == Ran(NameLength(user), 0, [])
    ensures |t| >= n as int ==> Step(NameText(user, n), t[..n as int]) == (Port(user, Name(t[..n as int])), [])
  {
    if |s| >= 1 {
      RunGoes(NameLength(user), s, NameText(user, s[0]), []);
      hide Run;
    }
  }

  lemma RunAtName(user: seq<byte>, s: seq<byte>)
    ensures var r := Run(NameLength(user), s);
            if |s| < 1 || |s| < 3 + s[0] as int then Reading(r.pc) && r.written == []
            else
              var n := s[0] as int;
              r == Ran(Requested(user, Name(s[1..1 + n]), Word(s[1 + n], s[2 + n])), 3 + n, [])
  {
    hide Run, Step;
    var l, t := if |s| >= 1 then s[0] else 0, if |s| >= 1 then s[1..] else [];
    NameSteps(user, s, l, t);
    if |s| >= 1 {
      var n := l as int;
      var text := if |t| >= n then t[..n] else [];
      RunAtAddress(NameText(user, l), n, Name(text), t);
      assert |t| >= n ==> text == s[1..1 + n];
      assert |s| >= 3 + n ==> t[n] == s[1 + n] && t[n + 1] == s[2 + n];
    }
  }

  /** The step at the head of a CONNECT request. */
  lemma ConnectHead(user: seq<byte>, r: seq<byte>)
    requires |r| >= 4 && r[0] == 5 && r[1] == 1
    ensures r[3] == 1 ==> Run(RequestHead(user), r) == After(4, [], Run(V4Address(user), r[4..]))
    ensures r[3] == 4 ==> Run(RequestHead(user), r) == After(4, [], Run(V6Address(user), r[4..]))
    ensures r[3] == 3 ==> Run(RequestHead(user), r) == After(4, [], Run(NameLength(user), r[4..]))
  {
    RunsStep(RequestHead(user), r, 0);
    hide Run;
  }

  lemma RunAtV4(user: seq<byte>, r: seq<byte>)
    requires |r| >= 4 && r[0] == 5 && r[1] == 1 && r[3] == 1
    ensures Agrees(Run(RequestHead(user), r), RequestVerdict(user, r))
  {
    hide Run;
    var t, octets := r[4..], if |r| >= 8 then r[4..8] else [];
    assert |t| >= 4 ==> t[..4] == octets;
    ConnectHead(user, r);
    RunAtAddress(V4Address(user), 4, Ip(V4_PREFIX + octets), t);
    assert |r| >= 10 ==> t[4] == r[8] && t[5] == r[9];
  }

  lemma RunAtV6(user: seq<byte>, r: seq<byte>)
    requires |r| >= 4 && r[0] == 5 && r[1] == 1 && r[3] == 4
    ensures Agrees(Run(RequestHead(user), r), RequestVerdict(user, r))
  {
    hide Run;
    var t, octets := r[4..], if |r| >= 20 then r[4..20] else [];
    assert |t| >= 16 ==> t[..16] == octets;
    ConnectHead(user, r);
    RunAtAddress(V6Address(user), 16, Ip(octets), t);
    assert |r| >= 22 ==> t[16] == r[20] && t[17] == r[21];
  }

  lemma RunAtDomain(user: seq<byte>, r: seq<byte>)
    requires |r| >= 4 && r[0] == 5 && r[1] == 1 && r[3] == 3
    ensures Agrees(Run(RequestHead(user), r), RequestVerdict(user, r))
  {
    hide Run;
    var t := r[4..];
    ConnectHead(user, r);
    RunAtName(user, t);
    if |r| >= 5 && |r| >= 7 + r[4] as int {
      var n := r[4] as int;
      assert t[0] == r[4] && t[1..1 + n] == r[5..5 + n] && t[1 + n] == r[5 + n] && t[2 + n] == r[6 + n];
    }
  }

  lemma RefusalStep(user: seq<byte>, b: seq<byte>)
    requires |b| == 4
    ensures b[0] != 5 || b[1] != 1 ==> Step(RequestHead(user), b) == (Refused(BadCommand), Reply(7))
    ensures b[0] == 5 && b[1] == 1 && b[3] != 1 && b[3] != 3 && b[3] != 4 ==>
              Step(RequestHead(user), b) == (Refused(BadAddressType), Reply(8))
  {
  }

  lemma RunAtRefusal(user: seq<byte>, r: seq<byte>)
    requires |r| >= 4 && (r[0] != 5 || r[1] != 1 || (r[3] != 1 && r[3] != 3 && r[3] != 4))
    ensures Agrees(Run(RequestHead(user), r), RequestVerdict(user, r))
  {
    hide Run, Step;
    var why := if r[0] != 5 || r[1] != 1 then BadCommand else BadAddressType;
    var reply := if r[0] != 5 || r[1] != 1 then Reply(7) else Reply(8);
    RefusalStep(user, r[..4]);
    RunGoes(RequestHead(user), r, Refused(why), reply);
    RunStops(Refused(why), r[4..]);
    assert reply + [] == reply;
  }

  lemma ShortRequest(user: seq<byte>, r: seq<byte>)
    requires |r| < 4
    ensures RequestVerdict(user, r) == Starved([])
  {
  }

  /** The server goes on from the head of the request exactly as the grammar says. */
  lemma RunAtRequest(user: seq<byte>, r: seq<byte>)
    ensures Agrees(Run(RequestHead(user), r), RequestVerdict(user, r))
  {
    hide Run, RequestVerdict;
    if |r| < 4 {
      RunStops(RequestHead(user), r);
      ShortRequest(user, r);
    } else if r[0] != 5 || r[1] != 1 {
      RunAtRefusal(user, r);
    } else if r[3] == 1 {
      RunAtV4(user, r);
    } else if r[3] == 4 {
      RunAtV6(user, r);
    } else if r[3] == 3 {
      RunAtDomain(user, r);
    } else {
      RunAtRefusal(user, r);
    }
  }

  // ----- The user name and password -----

  /** t begins with a whole frame of section 2 of RFC 1929; its length. */
  predicate BeginsWithFrame(t: seq<byte>) {
    && |t| >= 2 && t[0] == 1
    && |t| >= 3 + t[1] as int && |t| >= 3 + t[1] as int + t[2 + t[1] as int] as int
  }

  function FrameLength(t: seq<byte>): (n: nat)
    requires BeginsWithFrame(t)
    ensures n <= |t|
  {
    3 + t[1] as int + t[2 + t[1] as int] as int
  }

  function FrameUser(t: seq<byte>): seq<byte>
    requires BeginsWithFrame(t)
  {
    t[2..2 + t[1] as int]
  }

  function AuthVerdict(t: seq<byte>): Heard {
    if |t| >= 1 && t[0] != 1 then Ended(Ran(Refused(BadAuthVersion), 1, []))
    else if !BeginsWithFrame(t) then Starved([])
    else Later(FrameLength(t), [1, 0], RequestVerdict(FrameUser(t), t[FrameLength(t)..]))
  }

  /** The reads of a length and of a text of that length. */
  lemma FieldRuns(user: seq<byte>, s: seq<byte>, n: byte, t: seq<byte>)
    ensures |s| >= 1 ==> Run(PassLength(user), s) == After(1, [], Run(Pass(user, s[0]), s[1..]))
    ensures |s| >= 1 ==> Run(UserLength, s) == After(1, [], Run(User(s[0]), s[1..]))
    ensures |t| >= n as int ==>
              Run(Pass(user, n), t) == After(n as int, [1, 0], Run(RequestHead(user), t[n as int..]))
    ensures |t| >= n as int ==>
              Run(User(n), t) == After(n as int, [], Run(PassLength(t[..n as int]), t[n as int..]))
  {
    hide Run;
    if |s| >= 1 {
      RunGoes(PassLength(user), s, Pass(user, s[0]), []);
      RunGoes(UserLength, s, User(s[0]), []);
    }
    if |t| >= n as int {
      RunGoes(Pass(user, n), t, RequestHead(user), [1, 0]);
      RunGoes(User(n), t, PassLength(t[..n as int]), []);
    }
  }

  lemma FieldStops(user: seq<byte>, s: seq<byte>, n: byte, t: seq<byte>)
    ensures |s| < 1 ==> Run(PassLength(user), s) == Ran(PassLength(user), 0, [])
    ensures |s| < 1 ==> Run(UserLength, s) == Ran(UserLength, 0, [])
    ensures |t| < n as int ==> Run(Pass(user, n), t) == Ran(Pass(user, n), 0, [])
    ensures |t| < n as int ==> Run(User(n), t) == Ran(User(n), 0, [])
  {
  }

  lemma RunAtPassword(user: seq<byte>, s: seq<byte>)
    ensures var r := Run(PassLength(user), s);
            if |s| < 1 || |s| < 1 + s[0] as int then Reading(r.pc) && r.written == []
            else
              var n := s[0] as int;
              Agrees(r, Later(1 + n, [1, 0], RequestVerdict(user, s[1 + n..])))
  {
    hide Run, RequestVerdict, Agrees, Later;
    var n, t := if |s| >= 1 then s[0] else 0, if |s| >= 1 then s[1..] else [];
    FieldRuns(user, s, n, t);
    FieldStops(user, s, n, t);
    if |s| >= 1 && |t| >= n as int {
      var rest := s[1 + n as int..];
      assert t[n as int..] == rest;
      var r, v := Run(RequestHead(user), rest), RequestVerdict(user, rest);
      RunAtRequest(user, rest);
      AfterTwice(1, [], n as int, [1, 0], r, v);
      AfterAgrees(1 + n as int, [1, 0], r, v);
    }
  }

  /** From the length of the user name on. */
  lemma RunAtUser(s: seq<byte>)
    ensures var r := Run(UserLength, s);
            if |s| < 1 || |s| < 1 + s[0] as int then Reading(r.pc) && r.written == []
            else
              var n := s[0] as int;
              r == After(1 + n, [], Run(PassLength(s[1..1 + n]), s[1 + n..]))
  {
    hide Run;
    var n, t := if |s| >= 1 then s[0] else 0, if |s| >= 1 then s[1..] else [];
    FieldRuns([], s, n, t);
    FieldStops([], s, n, t);
    if |s| >= 1 && |t| >= n as int {
      var m := n as int;
      assert t[..m] == s[1..1 + m] && t[m..] == s[1 + m..];
      AfterTwice(1, [], m, [], Run(PassLength(t[..m]), t[m..]), Starved([]));
    }
  }

  /** A frame whose version is 1. */
  lemma RunAtFrame(t: seq<byte>)
    requires |t| >= 1 && t[0] == 1
    ensures Agrees(After(1, [], Run(UserLength, t[1..])), AuthVerdict(t))
  {
    hide Run, RequestVerdict;
    RunAtUser(t[1..]);
    if |t| >= 2 && |t| >= 2 + t[1] as int {
      var n := t[1] as int;
      var user, rest := t[2..2 + n], t[2 + n..];
      assert t[1..][1..1 + n] == user && t[1..][1 + n..] == rest;
      RunAtPassword(user, rest);
      AfterTwice(1, [], 1 + n, [], Run(PassLength(user), rest), Starved([]));
      if BeginsWithFrame(t) {
        var m := t[2 + n] as int;
        assert rest[1 + m..] == t[FrameLength(t)..];
        var v := RequestVerdict(user, rest[1 + m..]);
        AfterAgrees(2 + n, [], Run(PassLength(user), rest), Later(1 + m, [1, 0], v));
        AfterTwice(2 + n, [], 1 + m, [1, 0], Run(PassLength(user), rest), v);
      }
    }
  }

  /** The server goes on from the version of the frame exactly as the grammar says. */
  lemma RunAtAuth(t: seq<byte>)
    ensures Agrees(Run(AuthVersion, t), AuthVerdict(t))
  {
    hide Run, RequestVerdict;
    if |t| < 1 {
      RunStops(AuthVersion, t);
    } else if t[0] != 1 {
      assert Step(AuthVersion, t[..1]) == (Refused(BadAuthVersion), []);
      RunGoes(AuthVersion, t, Refused(BadAuthVersion), []);
      RunStops(Refused(BadAuthVersion), t[1..]);
    } else {
      assert Step(AuthVersion, t[..1]) == (UserLength, []);
      hide Step, AuthVerdict;
      RunGoes(AuthVersion, t, UserLength, []);
      RunAtFrame(t);
    }
  }

  // ----- The whole handshake -----

  /** The outcome for every input: how it ends, the bytes used and the bytes written. */
  function Verdict(s: seq<byte>): Heard {
    if |s| < 2 then Starved([])
    else if s[0] != 5 then Ended(Ran(Refused(BadVersion), 2, []))
    else
      var n := s[1] as int;
      if |s| < 2 + n then Starved([])
      else if 0 in s[2..2 + n] then Later(2 + n, [5, 0], RequestVerdict([], s[2 + n..]))
      else if 2 in s[2..2 + n] then Later(2 + n, [5, 2], AuthVerdict(s[2 + n..]))
      else Ended(Ran(Refused(NoMethod), 2 + n, [5, 255]))
  }

  /** From the list of n methods on. */
  lemma RunAtMethods(n: byte, t: seq<byte>)
    requires |t| >= n as int
    ensures var r, rest := Run(Methods(n), t), t[n as int..];
            if 0 in t[..n as int] then Agrees(r, Later(n as int, [5, 0], RequestVerdict([], rest)))
            else if 2 in t[..n as int] then Agrees(r, Later(n as int, [5, 2], AuthVerdict(rest)))
            else r == Ran(Refused(NoMethod), n as int, [5, 255])
  {
    hide Run, RequestVerdict, AuthVerdict;
    var methods, rest := t[..n as int], t[n as int..];
    if 0 in methods {
      assert Step(Methods(n), methods) == (RequestHead([]), [5, 0]);
      RunGoes(Methods(n), t, RequestHead([]), [5, 0]);
      RunAtRequest([], rest);
    } else if 2 in methods {
      assert Step(Methods(n), methods) == (AuthVersion, [5, 2]);
      RunGoes(Methods(n), t, AuthVersion, [5, 2]);
      RunAtAuth(rest);
    } else {
      assert Step(Methods(n), methods) == (Refused(NoMethod), [5, 255]);
      RunGoes(Methods(n), t, Refused(NoMethod), [5, 255]);
      RunStops(Refused(NoMethod), rest);
    }
  }

  /** handle does with every input, up to the dial, exactly what the grammar says. */
  lemma RunIsVerdict(s: seq<byte>)
    ensures Agrees(Run(GreetHead, s), Verdict(s))
  {
    hide Run, RequestVerdict, AuthVerdict;
    if |s| < 2 {
      RunStops(GreetHead, s);
    } else if s[0] != 5 {
      assert Step(GreetHead, s[..2]) == (Refused(BadVersion), []);
      RunGoes(GreetHead, s, Refused(BadVersion), []);
      RunStops(Refused(BadVersion), s[2..]);
    } else {
      var n, t := s[1] as int, s[2..];
      assert Step(GreetHead, s[..2]) == (Methods(s[1]), []);
      hide Step;
      RunGoes(GreetHead, s, Methods(s[1]), []);
      if |t| < n {
        RunStops(Methods(s[1]), t);
      } else {
        assert t[..n] == s[2..2 + n] && t[n..] == s[2 + n..];
        RunAtMethods(s[1], t);
      }
    }
  }

  // ----- What follows -----

  /** Where the request begins, for which user, and what has been written before it. */
  datatype Opening = NotYet | RequestAt(k: nat, user: seq<byte>, written: seq<byte>)

  function OpeningOf(s: seq<byte>): (o: Opening)
    ensures o.RequestAt? ==> o.k <= |s|
  {
    if |s| < 2 || s[0] != 5 || |s| < 2 + s[1] as int then NotYet
    else
      var n := s[1] as int;
      var methods, t := s[2..2 + n], s[2 + n..];
      if 0 in methods then RequestAt(2 + n, [], [5, 0])
      else if 2 in methods && BeginsWithFrame(t) then RequestAt(2 + n + FrameLength(t), FrameUser(t), [5, 2, 1, 0])
      else NotYet
  }

  /** The outcome is that of the request, or there is none. */
  lemma VerdictByOpening(s: seq<byte>)
    ensures var o, v := OpeningOf(s), Verdict(s);
            if o.RequestAt? then v == Later(o.k, o.written, RequestVerdict(o.user, s[o.k..]))
            else v.Starved? || v.ran.pc.Refused?
  {
    hide RequestVerdict;
    if |s| >= 2 && s[0] == 5 && |s| >= 2 + s[1] as int {
      var n := s[1] as int;
      var methods, t := s[2..2 + n], s[2 + n..];
      if 0 !in methods && 2 in methods && BeginsWithFrame(t) {
        var k := FrameLength(t);
        assert t[k..] == s[2 + n + k..];
        AfterTwice(2 + n, [5, 2], k, [1, 0], Ran(GreetHead, 0, []), RequestVerdict(FrameUser(t), t[k..]));
        var both: seq<byte> := [5, 2, 1, 0];
        assert [5, 2] + [1, 0] == both;
      }
    }
  }

  lemma RequestVerdictExactly(user: seq<byte>, r: seq<byte>, u: seq<byte>, h: Host, p: nat)
    ensures var v := RequestVerdict(user, r);
            (v.Ended? && v.ran.pc == Requested(u, h, p)) <==> (u == user && BeginsWithRequest(r, h, p))
  {
  }

  /** The server is asked to dial h and p for user u exactly on these inputs. */
  lemma RequestedExactly(s: seq<byte>, u: seq<byte>, h: Host, p: nat)
    ensures Run(GreetHead, s).pc == Requested(u, h, p) <==>
            var o := OpeningOf(s);
            o.RequestAt? && u == o.user && BeginsWithRequest(s[o.k..], h, p)
  {
    hide Run, RequestVerdict, Verdict, OpeningOf, BeginsWithRequest;
    var o := OpeningOf(s);
    RunIsVerdict(s);
    VerdictByOpening(s);
    if o.RequestAt? {
      RequestVerdictExactly(o.user, s[o.k..], u, h, p);
    }
  }

  /** Commands other than CONNECT and unknown address types are refused with their replies, right after the head. */
  lemma RequestsRefused(s: seq<byte>)
    requires OpeningOf(s).RequestAt? && |s| >= OpeningOf(s).k + 4
    ensures var o := OpeningOf(s);
            var k := o.k;
            && (s[k] != 5 || s[k + 1] != 1 ==>
                  Run(GreetHead, s)
                  == Ran(Refused(BadCommand), k + 4, o.written + [5, 7, 0, 1, 0, 0, 0, 0, 0, 0]))
            && (s[k] == 5 && s[k + 1] == 1 && s[k + 3] !in {1, 3, 4} ==>
                  Run(GreetHead, s)
                  == Ran(Refused(BadAddressType), k + 4, o.written + [5, 8, 0, 1, 0, 0, 0, 0, 0, 0]))
  {
    hide Run, Verdict, OpeningOf;
    RunIsVerdict(s);
    VerdictByOpening(s);
    var r := s[OpeningOf(s).k..];
    assert forall i | 0 <= i < 4 :: r[i] == s[OpeningOf(s).k + i];
  }

  /** A client that offers neither method is told so. */
  lemma MethodsRefused(n: byte, methods: seq<byte>, rest: seq<byte>)
    requires |methods| == n as int && 0 !in methods && 2 !in methods
    ensures Run(GreetHead, [5, n] + methods + rest) == Ran(Refused(NoMethod), 2 + |methods|, [5, 255])
  {
    var s := [5, n] + methods + rest;
    assert s[2..2 + n as int] == methods;
    RunIsVerdict(s);
    hide Run;
  }
}
