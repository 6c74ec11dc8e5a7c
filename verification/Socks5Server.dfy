/** The server side of the handshake: SOCKS5Server.handle (internal/proxy/socks5.go). */
module Socks5Server {
  import opened Bytes
  import opened Sequences
  import opened Socks5Wire
  import opened Streams

  datatype Refusal =
    | BadVersion | NoMethod | BadAuthVersion | BadCommand | BadAddressType
    | DialFailed | PeerClosed | WriteFailed

  /** Where the server is: the next read, or how the handshake ended. */
  datatype ServerPc =
    | GreetHead
    | Methods(n: byte)
    | AuthVersion
    | UserLength
    | User(n: byte)
    | PassLength(user: seq<byte>)
    | Pass(user: seq<byte>, n: byte)
    | RequestHead(user: seq<byte>)
    | V4Address(user: seq<byte>)
    | NameLength(user: seq<byte>)
    | NameText(user: seq<byte>, n: byte)
    | V6Address(user: seq<byte>)
    | Port(user: seq<byte>, host: Host)
    | Requested(user: seq<byte>, host: Host, port: nat)
    | Tunnel(user: seq<byte>, host: Host, port: nat)
    | Refused(why: Refusal)

  predicate Reading(pc: ServerPc) {
    !pc.Requested? && !pc.Tunnel? && !pc.Refused?
  }

  /** How many bytes the next io.ReadFull asks for. */
  function Need(pc: ServerPc): nat {
    match pc
    case GreetHead => 2
    case Methods(n) => n
    case AuthVersion => 1
    case UserLength => 1
    case User(n) => n
    case PassLength(_) => 1
    case Pass(_, n) => n
    case RequestHead(_) => 4
    case V4Address(_) => 4
    case NameLength(_) => 1
    case NameText(_, n) => n
    case V6Address(_) => 16
    case Port(_, _) => 2
    case _ => 0
  }

  /** Steps left at most. */
  function Rank(pc: ServerPc): nat {
    match pc
    case GreetHead => 13
    case Methods(_) => 12
    case AuthVersion => 11
    case UserLength => 10
    case User(_) => 9
    case PassLength(_) => 8
    case Pass(_, _) => 7
    case RequestHead(_) => 6
    case NameLength(_) => 5
    case NameText(_, _) => 4
    case V4Address(_) => 4
    case V6Address(_) => 4
    case Port(_, _) => 3
    case Requested(_, _, _) => 2
    case _ => 0
  }

  /** No authentication if offered, else user name/password if offered, else 255. */
  function ChosenMethod(methods: seq<byte>): byte {
    if 0 in methods then 0 else if 2 in methods then 2 else 255
  }

  /** What the server does with the bytes of one read: where it goes on, and what it writes. */
  function Step(pc: ServerPc, b: seq<byte>): (next: (ServerPc, seq<byte>))
    requires Reading(pc) && |b| == Need(pc)
    ensures Rank(next.0) < Rank(pc)
  {
    match pc
    case GreetHead => if b[0] != 5 then (Refused(BadVersion), []) else (Methods(b[1]), [])
    case Methods(_) =>
      var chosen := ChosenMethod(b);
      (if chosen == 255 then Refused(NoMethod) else if chosen == 2 then AuthVersion else RequestHead([]), [5, chosen])
    case AuthVersion => (if b[0] != 1 then Refused(BadAuthVersion) else UserLength, [])
    case UserLength => (User(b[0]), [])
    case User(_) => (PassLength(b), [])
    case PassLength(user) => (Pass(user, b[0]), [])
    case Pass(user, _) => (RequestHead(user), [1, 0])
    case RequestHead(user) =>
      if b[0] != 5 || b[1] != 1 then (Refused(BadCommand), Reply(7))
      else if b[3] == 1 then (V4Address(user), [])
      else if b[3] == 3 then (NameLength(user), [])
      else if b[3] == 4 then (V6Address(user), [])
      else (Refused(BadAddressType), Reply(8))
    case V4Address(user) => (Port(user, Ip(V4_PREFIX + b)), [])
    case NameLength(user) => (NameText(user, b[0]), [])
    case NameText(user, _) => (Port(user, Name(b)), [])
    case V6Address(user) => (Port(user, Ip(b)), [])
    case Port(user, host) => (Requested(user, host, b[0] as int * 256 + b[1] as int), [])
  }

  /** A run over a whole input: where it stops, the bytes used, the bytes written. */
  datatype Ran = Ran(pc: ServerPc, used: nat, written: seq<byte>)

  /** The server on the input that ends after s. A reading pc at the end means the input ran out there. */
  function Run(pc: ServerPc, s: seq<byte>): (r: Ran)
    ensures r.used <= |s|
    decreases Rank(pc)
  {
    if !Reading(pc) || |s| < Need(pc) then Ran(pc, 0, [])
    else
      var (next, out) := Step(pc, s[..Need(pc)]);
      var rest := Run(next, s[Need(pc)..]);
      Ran(rest.pc, Need(pc) + rest.used, out + rest.written)
  }

  // ----- A connection that breaks -----

  /** From pc on, with more still to be written: a write that fails ends the handshake, unless it has been refused. */
  function Finish(pc: ServerPc, s: seq<byte>, room: nat, more: seq<byte>): (r: Ran)
    ensures r.used <= |s|
    decreases Rank(pc), 1
  {
    if |more| > room then Ran(if Reading(pc) then Refused(WriteFailed) else pc, 0, more[..room])
    else
      var rest := RunIn(pc, s, room - |more|);
      Ran(rest.pc, rest.used, more + rest.written)
  }

  /** The same run on a connection that takes room more bytes. */
  function RunIn(pc: ServerPc, s: seq<byte>, room: nat): (r: Ran)
    ensures r.used <= |s|
    decreases Rank(pc), 0
  {
    if !Reading(pc) || |s| < Need(pc) then Ran(pc, 0, [])
    else
      var (next, out) := Step(pc, s[..Need(pc)]);
      var rest := Finish(next, s[Need(pc)..], room, out);
      Ran(rest.pc, Need(pc) + rest.used, rest.written)
  }

  lemma RunsStep(pc: ServerPc, s: seq<byte>, room: nat)
    requires Reading(pc) && |s| >= Need(pc)
    ensures var (next, out) := Step(pc, s[..Need(pc)]);
            var rest, short := Run(next, s[Need(pc)..]), Finish(next, s[Need(pc)..], room, out);
            && Run(pc, s) == Ran(rest.pc, Need(pc) + rest.used, out + rest.written)
            && RunIn(pc, s, room) == Ran(short.pc, Need(pc) + short.used, short.written)
  {
  }

  lemma RunsStop(pc: ServerPc, s: seq<byte>, room: nat)
    requires !Reading(pc) || |s| < Need(pc)
    ensures RunIn(pc, s, room) == Run(pc, s)
  {
  }

  lemma Fits(pc: ServerPc, s: seq<byte>, room: nat, more: seq<byte>)
    requires |more| <= room
    ensures var r := RunIn(pc, s, room - |more|);
            Finish(pc, s, room, more) == Ran(r.pc, r.used, more + r.written)
  {
  }

  /** When the room is enough, nothing changes. */
  lemma {:induction false} EnoughRoom(pc: ServerPc, s: seq<byte>, room: nat)
    requires |Run(pc, s).written| <= room
    ensures RunIn(pc, s, room) == Run(pc, s)
    decreases Rank(pc)
  {
    hide Step, Run, RunIn, Finish, Rank;
    if Reading(pc) && |s| >= Need(pc) {
      RunsStep(pc, s, room);
      var (next, out) := Step(pc, s[..Need(pc)]);
      Fits(next, s[Need(pc)..], room, out);
      EnoughRoom(next, s[Need(pc)..], room - |out|);
    } else {
      RunsStop(pc, s, room);
    }
  }

  /** The server writes only before it goes on reading or when it refuses. */
  lemma OutMeansRefusedOrReading(pc: ServerPc, b: seq<byte>)
    requires Reading(pc) && |b| == Need(pc)
    ensures Step(pc, b).1 != [] ==> Reading(Step(pc, b).0) || Step(pc, b).0.Refused?
  {
  }

  /** When it is not, exactly what fits is written, and the handshake fails there or had just been refused. */
  lemma {:induction false} ShortRoom(pc: ServerPc, s: seq<byte>, room: nat)
    requires |Run(pc, s).written| > room
    ensures var r := RunIn(pc, s, room);
            && r.written == Run(pc, s).written[..room] && r.used <= Run(pc, s).used
            && (r.pc == Refused(WriteFailed) || (r.pc == Run(pc, s).pc && r.pc.Refused?))
    decreases Rank(pc)
  {
    if Reading(pc) && |s| >= Need(pc) {
      RunsStep(pc, s, room);
      hide Step, Run, RunIn;
      var (next, out) := Step(pc, s[..Need(pc)]);
      OutMeansRefusedOrReading(pc, s[..Need(pc)]);
      PrefixOfSum(out, Run(next, s[Need(pc)..]).written, room);
      if |out| <= room {
        ShortRoom(next, s[Need(pc)..], room - |out|);
      }
    }
  }

  // ----- The code -----

  method ChooseMethod(methods: seq<byte>) returns (chosen: byte)
    ensures chosen == ChosenMethod(methods)
  {
    chosen := 255;
    for i := 0 to |methods|
      invariant chosen == ChosenMethod(methods[..i])
    {
      assert methods[..i + 1] == methods[..i] + [methods[i]];
      if methods[i] == 0 {
        chosen := 0;
      } else if methods[i] == 2 {
        if chosen != 0 {
          chosen := 2;
        }
      }
    }
    assert methods[..|methods|] == methods;
  }

  /** The handshake on input s with room m has come to pc, with t left, out written and more about to be written. */
  ghost predicate At(s: seq<byte>, m: nat, pc: ServerPc, t: seq<byte>, out: seq<byte>, more: seq<byte>) {
    && |out| <= m && |t| <= |s| && t == s[|s| - |t|..]
    && var r := Finish(pc, t, m - |out|, more);
       RunIn(GreetHead, s, m) == Ran(r.pc, |s| - |t| + r.used, out + r.written)
  }

  /** The handshake on input s with room m has ended at pc, with t left and out written. */
  ghost predicate EndedAt(s: seq<byte>, m: nat, pc: ServerPc, t: seq<byte>, out: seq<byte>) {
    var r := RunIn(GreetHead, s, m);
    r.pc == pc && r.written == out && (!Reading(pc) ==> t == s[r.used..])
  }

  lemma AtStart(s: seq<byte>, m: nat)
    ensures At(s, m, GreetHead, s, [], [])
  {
    var r := RunIn(GreetHead, s, m);
    assert [] + ([] + r.written) == r.written;
    hide RunIn;
  }

  lemma AtStep(s: seq<byte>, m: nat, pc: ServerPc, t: seq<byte>, out: seq<byte>)
    requires At(s, m, pc, t, out, []) && Reading(pc) && Need(pc) <= |t|
    ensures At(s, m, Step(pc, t[..Need(pc)]).0, t[Need(pc)..], out, Step(pc, t[..Need(pc)]).1)
  {
    hide Step, RunIn, Finish;
    RunsStep(pc, t, m - |out|);
    Fits(pc, t, m - |out|, []);
    var r := RunIn(pc, t, m - |out|);
    assert [] + r.written == r.written;
  }

  lemma AtWritten(s: seq<byte>, m: nat, pc: ServerPc, t: seq<byte>, out: seq<byte>, more: seq<byte>)
    requires At(s, m, pc, t, out, more) && |more| <= m - |out|
    ensures At(s, m, pc, t, out + more, [])
  {
    hide RunIn, Finish;
    Fits(pc, t, m - |out|, more);
    Fits(pc, t, m - |out| - |more|, []);
    var r := RunIn(pc, t, m - |out| - |more|);
    Associative(out, more, r.written);
    assert [] + r.written == r.written;
  }

  lemma AtWriteFailed(s: seq<byte>, m: nat, pc: ServerPc, t: seq<byte>, out: seq<byte>, more: seq<byte>)
    requires At(s, m, pc, t, out, more) && |more| > m - |out|
    ensures EndedAt(s, m, if Reading(pc) then Refused(WriteFailed) else pc, t, out + more[..m - |out|])
  {
    hide RunIn;
  }

  lemma RunInStops(pc: ServerPc, t: seq<byte>, room: nat)
    requires !Reading(pc) || |t| < Need(pc)
    ensures Finish(pc, t, room, []) == Ran(pc, 0, [])
  {
    assert RunIn(pc, t, room) == Ran(pc, 0, []);
  }

  lemma AtEnd(s: seq<byte>, m: nat, pc: ServerPc, t: seq<byte>, t': seq<byte>, out: seq<byte>)
    requires At(s, m, pc, t, out, [])
    requires if Reading(pc) then |t| < Need(pc) else t' == t
    ensures EndedAt(s, m, pc, t', out)
  {
    hide RunIn, Finish;
    RunInStops(pc, t, m - |out|);
    assert out + [] == out;
  }

  /** The handshake that began at o has come to pc, with more about to be written. */
  ghost predicate OnTrack(o: Origin, conn: Conn, pc: ServerPc, more: seq<byte>)
    reads conn
  {
    && o.sent <= conn.sent && conn.room + |conn.sent| == o.room + |o.sent|
    && At(o.input, o.room, pc, conn.Inbox(), conn.sent[|o.sent|..], more)
  }

  /** It has ended at pc. */
  ghost predicate Over(o: Origin, conn: Conn, pc: ServerPc)
    reads conn
  {
    o.sent <= conn.sent && EndedAt(o.input, o.room, pc, conn.Inbox(), conn.sent[|o.sent|..])
  }

  /** io.ReadFull at pc: the run goes on by one step, or ends here. */
  method ReadAt(conn: Conn, n: nat, ghost pc: ServerPc, ghost o: Origin) returns (ok: bool, b: seq<byte>)
    requires Reading(pc) && n == Need(pc) && OnTrack(o, conn, pc, [])
    modifies conn`chunks
    ensures !ok ==> Over(o, conn, pc)
    ensures ok ==> |b| == n && OnTrack(o, conn, Step(pc, b).0, Step(pc, b).1)
  {
    hide At, EndedAt, Step;
    ghost var t, out := conn.Inbox(), conn.sent[|o.sent|..];
    ok, b := conn.ReadFull(n);
    if ok {
      AtStep(o.input, o.room, pc, t, out);
    } else {
      AtEnd(o.input, o.room, pc, t, conn.Inbox(), out);
    }
  }

  /** A write before pc: the run goes on, or ends here. */
  method WriteAt(conn: Conn, more: seq<byte>, ghost pc: ServerPc, ghost o: Origin) returns (ok: bool)
    requires OnTrack(o, conn, pc, more)
    modifies conn`sent, conn`room
    ensures ok ==> OnTrack(o, conn, pc, [])
    ensures !ok ==> Over(o, conn, if Reading(pc) then Refused(WriteFailed) else pc)
  {
    hide At, EndedAt;
    ghost var t, out, room := conn.Inbox(), conn.sent[|o.sent|..], conn.room;
    ok := conn.Write(more);
    if ok {
      AtWritten(o.input, o.room, pc, t, out, more);
      assert conn.sent[|o.sent|..] == out + more;
    } else {
      AtWriteFailed(o.input, o.room, pc, t, out, more);
      assert conn.sent[|o.sent|..] == out + more[..room];
    }
  }

  /** A refusal with its last reply, whose outcome is ignored. */
  method Refuse(conn: Conn, reply: seq<byte>, ghost pc: ServerPc, ghost o: Origin)
    requires pc.Refused? && OnTrack(o, conn, pc, reply)
    modifies conn`sent, conn`room
    ensures Over(o, conn, pc)
  {
    hide At, EndedAt;
    var ok := WriteAt(conn, reply, pc, o);
    if ok {
      AtEnd(o.input, o.room, pc, conn.Inbox(), conn.Inbox(), conn.sent[|o.sent|..]);
    }
  }

  lemma TrackStart(o: Origin, conn: Conn)
    requires o == OriginOf(conn)
    ensures OnTrack(o, conn, GreetHead, [])
  {
    AtStart(o.input, o.room);
    assert conn.sent[|o.sent|..] == [];
    hide At;
  }

  /** Version and method negotiation; goes on at the credentials or at the request. */
  method Greeting(conn: Conn, ghost o: Origin) returns (ended: bool, stop: ServerPc)
    requires o == OriginOf(conn)
    modifies conn
    ensures ended ==> Over(o, conn, stop)
    ensures !ended ==> OnTrack(o, conn, stop, []) && (stop == AuthVersion || stop == RequestHead([]))
  {
    hide At, EndedAt, OnTrack, Over;
    TrackStart(o, conn);
    var ok, head := ReadAt(conn, 2, GreetHead, o);
    if !ok {
      return true, GreetHead;
    }
    if head[0] != 5 {
      Refuse(conn, [], Refused(BadVersion), o);
      return true, Refused(BadVersion);
    }
    var methods;
    ok, methods := ReadAt(conn, head[1], Methods(head[1]), o);
    if !ok {
      return true, Methods(head[1]);
    }
    var chosen := ChooseMethod(methods);
    if chosen == 255 {
      Refuse(conn, [5, 255], Refused(NoMethod), o);
      return true, Refused(NoMethod);
    }
    stop := if chosen == 2 then AuthVersion else RequestHead([]);
    ok := WriteAt(conn, [5, chosen], stop, o);
    if !ok {
      return true, Refused(WriteFailed);
    }
    return false, stop;
  }

  /** RFC 1929: every password is accepted; the user name is the preferred upstream. */
  method UserPass(conn: Conn, ghost o: Origin) returns (ended: bool, stop: ServerPc)
    requires OnTrack(o, conn, AuthVersion, [])
    modifies conn
    ensures ended ==> Over(o, conn, stop)
    ensures !ended ==> OnTrack(o, conn, stop, []) && stop.RequestHead?
  {
    hide At, EndedAt, OnTrack, Over;
    var ok, version := ReadAt(conn, 1, AuthVersion, o);
    if !ok {
      return true, AuthVersion;
    }
    if version[0] != 1 {
      Refuse(conn, [], Refused(BadAuthVersion), o);
      return true, Refused(BadAuthVersion);
    }
    var ul;
    ok, ul := ReadAt(conn, 1, UserLength, o);
    if !ok {
      return true, UserLength;
    }
    var user;
    ok, user := ReadAt(conn, ul[0], User(ul[0]), o);
    if !ok {
      return true, User(ul[0]);
    }
    var pl;
    ok, pl := ReadAt(conn, 1, PassLength(user), o);
    if !ok {
      return true, PassLength(user);
    }
    var pass;
    ok, pass := ReadAt(conn, pl[0], Pass(user, pl[0]), o);
    if !ok {
      return true, Pass(user, pl[0]);
    }
    ok := WriteAt(conn, [1, 0], RequestHead(user), o);
    if !ok {
      return true, Refused(WriteFailed);
    }
    return false, RequestHead(user);
  }

  /** The head of the request; goes on at the address. */
  method RequestStart(conn: Conn, user: seq<byte>, ghost o: Origin) returns (ended: bool, stop: ServerPc)
    requires OnTrack(o, conn, RequestHead(user), [])
    modifies conn
    ensures ended ==> Over(o, conn, stop)
    ensures !ended ==> OnTrack(o, conn, stop, []) && stop in {V4Address(user), NameLength(user), V6Address(user)}
  {
    hide At, EndedAt, OnTrack, Over;
    var ok, head := ReadAt(conn, 4, RequestHead(user), o);
    if !ok {
      return true, RequestHead(user);
    }
    if head[0] != 5 || head[1] != 1 {
      Refuse(conn, Reply(7), Refused(BadCommand), o);
      return true, Refused(BadCommand);
    }
    match head[3] {
      case 1 => return false, V4Address(user);
      case 3 => return false, NameLength(user);
      case 4 => return false, V6Address(user);
      case _ =>
        Refuse(conn, Reply(8), Refused(BadAddressType), o);
        return true, Refused(BadAddressType);
    }
  }

  /** The address; goes on at the port. */
  method ReadHost(conn: Conn, user: seq<byte>, kind: ServerPc, ghost o: Origin) returns (ended: bool, stop: ServerPc)
    requires kind in {V4Address(user), NameLength(user), V6Address(user)} && OnTrack(o, conn, kind, [])
    modifies conn
    ensures ended ==> Over(o, conn, stop)
    ensures !ended ==> OnTrack(o, conn, stop, []) && stop.Port? && stop.user == user
  {
    hide At, EndedAt, OnTrack, Over;
    var ok, b;
    if kind.V4Address? {
      ok, b := ReadAt(conn, 4, kind, o);
      return !ok, if ok then Port(user, Ip(V4_PREFIX + b)) else kind;
    } else if kind.V6Address? {
      ok, b := ReadAt(conn, 16, kind, o);
      return !ok, if ok then Port(user, Ip(b)) else kind;
    }
    ok, b := ReadAt(conn, 1, kind, o);
    if !ok {
      return true, kind;
    }
    var text;
    ok, text := ReadAt(conn, b[0], NameText(user, b[0]), o);
    return !ok, if ok then Port(user, Name(text)) else NameText(user, b[0]);
  }

  lemma TrackEnd(o: Origin, conn: Conn, pc: ServerPc)
    requires OnTrack(o, conn, pc, []) && !Reading(pc)
    ensures Over(o, conn, pc)
  {
    AtEnd(o.input, o.room, pc, conn.Inbox(), conn.Inbox(), conn.sent[|o.sent|..]);
    hide At, EndedAt;
  }

  method Request(conn: Conn, user: seq<byte>, ghost o: Origin) returns (stop: ServerPc)
    requires OnTrack(o, conn, RequestHead(user), [])
    modifies conn
    ensures Over(o, conn, stop)
  {
    hide At, EndedAt, OnTrack, Over;
    var ended;
    ended, stop := RequestStart(conn, user, o);
    if ended {
      return;
    }
    ended, stop := ReadHost(conn, user, stop, o);
    if ended {
      return;
    }
    var host := stop.host;
    var ok, portB := ReadAt(conn, 2, Port(user, host), o);
    if !ok {
      return;
    }
    stop := Requested(user, host, portB[0] as int * 256 + portB[1] as int);
    TrackEnd(o, conn, stop);
  }

  /**
   * handle up to the dial: what it does depends only on the bytes that arrive and on how much can be
   * written, not on the chunks.
   */
  method Handshake(conn: Conn) returns (stop: ServerPc)
    modifies conn
    ensures var r := RunIn(GreetHead, old(conn.Inbox()), old(conn.room));
            && stop == r.pc && conn.sent == old(conn.sent) + r.written
            && (!Reading(stop) ==> conn.Inbox() == old(conn.Inbox())[r.used..])
  {
    hide At, Step, RunIn, OnTrack;
    ghost var o := OriginOf(conn);
    var ended;
    ended, stop := Greeting(conn, o);
    if !ended && stop == AuthVersion {
      ended, stop := UserPass(conn, o);
    }
    if !ended {
      stop := Request(conn, stop.user, o);
    }
  }

  // ----- What the server guarantees -----

  /** The choice of method depends only on the set of methods offered. */
  lemma MethodChoiceBySet(a: seq<byte>, b: seq<byte>)
    requires Elements(a) == Elements(b)
    ensures ChosenMethod(a) == ChosenMethod(b)
  {
    assert forall m: byte :: (m in a <==> m in Elements(a)) && (m in b <==> m in Elements(b));
  }

  /** What follows the bytes used makes no difference. */
  lemma {:induction false} RunPrefix(pc: ServerPc, s: seq<byte>, tail: seq<byte>)
    requires !Reading(Run(pc, s).pc)
    ensures Run(pc, s + tail) == Run(pc, s)
    decreases Rank(pc)
  {
    hide Step;
    if Reading(pc) {
      CutSum(s, tail, Need(pc));
      RunPrefix(Step(pc, s[..Need(pc)]).0, s[Need(pc)..], tail);
    }
  }

  /** A proper prefix of the bytes a finished handshake uses never finishes it. */
  lemma {:induction false} ProperPrefixStarves(pc: ServerPc, s: seq<byte>, k: nat)
    requires !Reading(Run(pc, s).pc) && k < Run(pc, s).used
    ensures Reading(Run(pc, s[..k]).pc)
    decreases Rank(pc)
  {
    assert Reading(pc) && Need(pc) <= |s|;
    if Need(pc) <= k {
      RunsStep(pc, s, 0);
      RunsStep(pc, s[..k], 0);
      hide Step, Run, RunIn, Finish, Rank;
      CutPrefix(s, k, Need(pc));
      ProperPrefixStarves(Step(pc, s[..Need(pc)]).0, s[Need(pc)..], k - Need(pc));
    }
  }

  /** A client session: greeting, credentials if user name/password is chosen, request. */
  function Session(methods: seq<byte>, user: seq<byte>, pass: seq<byte>, host: Host, port: nat): seq<byte>
    requires |methods| <= 255 && |user| <= 255 && |pass| <= 255
    requires ValidHost(host) && Encodable(host) && port < 65536
  {
    [5, |methods|] + (methods +
      ((if ChosenMethod(methods) == 2 then AuthBytes(user, pass) else []) + RequestBytes(host, port)))
  }

  lemma RunOne(pc: ServerPc, b: seq<byte>, rest: seq<byte>)
    requires Reading(pc) && |b| == Need(pc)
    ensures var (next, out) := Step(pc, b);
            Run(pc, b + rest) == Ran(Run(next, rest).pc, |b| + Run(next, rest).used, out + Run(next, rest).written)
  {
  }

  lemma PortRuns(user: seq<byte>, host: Host, port: nat, tail: seq<byte>)
    requires port < 65536
    ensures Run(Port(user, host), PortBytes(port) + tail) == Ran(Requested(user, host, port), 2, [])
  {
  }

  lemma NameRuns(user: seq<byte>, text: seq<byte>, end: seq<byte>)
    requires |text| <= 255
    ensures var r := Run(Port(user, Name(text)), end);
            Run(RequestHead(user), [5, 1, 0] + (HostBytes(Name(text)) + end))
            == Ran(r.pc, 3 + |HostBytes(Name(text))| + r.used, r.written)
  {
    hide Run;
    RunOne(NameText(user, |text|), text, end);
    RunOne(NameLength(user), [|text|], text + end);
    RunOne(RequestHead(user), [5, 1, 0, 3], [|text|] + (text + end));
    Associative([3, |text|], text, end);
    Associative([3], [|text|], text + end);
    Associative([5, 1, 0], [3], [|text|] + (text + end));
    assert [3] + [|text|] == [3, |text|] && [5, 1, 0] + [3] == [5, 1, 0, 3];
  }

  lemma V4Runs(user: seq<byte>, octets: seq<byte>, end: seq<byte>)
    requires |octets| == 16 && IsV4(octets)
    ensures var r := Run(Port(user, Ip(octets)), end);
            Run(RequestHead(user), [5, 1, 0] + (HostBytes(Ip(octets)) + end))
            == Ran(r.pc, 3 + |HostBytes(Ip(octets))| + r.used, r.written)
  {
    hide Run;
    assert octets == V4_PREFIX + octets[12..];
    RunOne(V4Address(user), octets[12..], end);
    RunOne(RequestHead(user), [5, 1, 0, 1], octets[12..] + end);
    Associative([1], octets[12..], end);
    Associative([5, 1, 0], [1], octets[12..] + end);
    assert [5, 1, 0] + [1] == [5, 1, 0, 1];
  }

  lemma V6Runs(user: seq<byte>, octets: seq<byte>, end: seq<byte>)
    requires |octets| == 16 && !IsV4(octets)
    ensures var r := Run(Port(user, Ip(octets)), end);
            Run(RequestHead(user), [5, 1, 0] + (HostBytes(Ip(octets)) + end))
            == Ran(r.pc, 3 + |HostBytes(Ip(octets))| + r.used, r.written)
  {
    hide Run;
    RunOne(V6Address(user), octets, end);
    RunOne(RequestHead(user), [5, 1, 0, 4], octets + end);
    Associative([4], octets, end);
    Associative([5, 1, 0], [4], octets + end);
    assert [5, 1, 0] + [4] == [5, 1, 0, 4];
  }

  /** The bytes after VER CMD RSV: the server reads back every encodable host. */
  lemma HostRuns(user: seq<byte>, host: Host, port: nat, tail: seq<byte>)
    requires ValidHost(host) && Encodable(host) && port < 65536
    ensures Run(RequestHead(user), [5, 1, 0] + (HostBytes(host) + (PortBytes(port) + tail)))
            == Ran(Requested(user, host, port), 3 + |HostBytes(host)| + 2, [])
  {
    PortRuns(user, host, port, tail);
    var end := PortBytes(port) + tail;
    match host {
      case Name(text) => NameRuns(user, text, end);
      case Ip(octets) =>
        if IsV4(octets) { V4Runs(user, octets, end); } else { V6Runs(user, octets, end); }
    }
  }

  /** The server reads back the request of every encodable host and every port. */
  lemma RequestRuns(user: seq<byte>, host: Host, port: nat, tail: seq<byte>)
    requires ValidHost(host) && Encodable(host) && port < 65536
    ensures Run(RequestHead(user), RequestBytes(host, port) + tail)
            == Ran(Requested(user, host, port), |RequestBytes(host, port)|, [])
  {
    hide Run, Step, HostBytes, PortBytes;
    HostRuns(user, host, port, tail);
    Associative([5, 1, 0], HostBytes(host) + PortBytes(port), tail);
    Associative(HostBytes(host), PortBytes(port), tail);
  }

  /** The server reads back every user name and accepts the credentials. */
  lemma AuthRuns(user: seq<byte>, pass: seq<byte>, rest: seq<byte>)
    requires |user| <= 255 && |pass| <= 255
    ensures var r := Run(RequestHead(user), rest);
            Run(AuthVersion, AuthBytes(user, pass) + rest) ==
            Ran(r.pc, |AuthBytes(user, pass)| + r.used, [1, 0] + r.written)
  {
    hide Run;
    var secret := [|pass|] + pass;
    RunOne(Pass(user, |pass|), pass, rest);
    RunOne(PassLength(user), [|pass|], pass + rest);
    RunOne(User(|user|), user, [|pass|] + (pass + rest));
    RunOne(UserLength, [|user|], user + ([|pass|] + (pass + rest)));
    RunOne(AuthVersion, [1], [|user|] + (user + ([|pass|] + (pass + rest))));
    Associative([1], [|user|] + (user + secret), rest);
    Associative([|user|], user + secret, rest);
    Associative(user, secret, rest);
    Associative([|pass|], pass, rest);
  }

  lemma SessionRuns(methods: seq<byte>, user: seq<byte>, pass: seq<byte>, host: Host, port: nat, tail: seq<byte>)
    requires |methods| <= 255 && |user| <= 255 && |pass| <= 255
    requires ValidHost(host) && Encodable(host) && port < 65536
    requires ChosenMethod(methods) != 255
    ensures var s := Session(methods, user, pass, host, port);
            var chosen := ChosenMethod(methods);
            Run(GreetHead, s + tail) == Ran(Requested(if chosen == 2 then user else [], host, port), |s|,
                                            [5, chosen] + (if chosen == 2 then [1, 0] else []))
  {
    hide Run;
    var auth := if ChosenMethod(methods) == 2 then AuthBytes(user, pass) else [];
    var request := RequestBytes(host, port);
    var rest := auth + (request + tail);
    RunOne(Methods(|methods|), methods, rest);
    RunOne(GreetHead, [5, |methods|], methods + rest);
    Associative([5, |methods|], methods + (auth + request), tail);
    Associative(methods, auth + request, tail);
    Associative(auth, request, tail);
    if ChosenMethod(methods) == 2 {
      RequestRuns(user, host, port, tail);
      AuthRuns(user, pass, request + tail);
    } else {
      RequestRuns([], host, port, tail);
      assert rest == request + tail;
    }
  }

  /**
   * Every encoded session is read back exactly: the server recovers user, host and port, consumes the
   * session and nothing of what follows, and a proper prefix never yields a request.
   */
  lemma SessionIsRead(methods: seq<byte>, user: seq<byte>, pass: seq<byte>, host: Host, port: nat, tail: seq<byte>)
    requires |methods| <= 255 && |user| <= 255 && |pass| <= 255
    requires ValidHost(host) && Encodable(host) && port < 65536
    requires ChosenMethod(methods) != 255
    ensures var s := Session(methods, user, pass, host, port);
            var chosen := ChosenMethod(methods);
            && Run(GreetHead, s + tail) == Ran(Requested(if chosen == 2 then user else [], host, port), |s|,
                                               [5, chosen] + (if chosen == 2 then [1, 0] else []))
            && forall k: nat | k < |s| :: Reading(Run(GreetHead, s[..k]).pc)
  {
    hide Run;
    var s := Session(methods, user, pass, host, port);
    var request := RequestBytes(host, port);
    SessionRuns(methods, user, pass, host, port, tail);
    SessionRuns(methods, user, pass, host, port, []);
    assert s + [] == s;
    forall k: nat | k < |s|
      ensures Reading(Run(GreetHead, s[..k]).pc)
    {
      ProperPrefixStarves(GreetHead, s, k);
    }
  }
}
