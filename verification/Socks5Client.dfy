/** The client side of the handshake: socks5Handshake and socks5UserPass (internal/proxy/dialer.go). */
module Socks5Client {
  import opened Bytes
  import opened Sequences
  import opened Socks5Wire
  import opened Streams

  datatype Failure =
    | BadServerVersion
    | NeedCredentials
    | CredentialsTooLong
    | NoAcceptableMethod
    | UnknownMethod
    | AuthFailed
    | DomainTooLong
    | BadReplyVersion
    | ConnectFailed(rep: byte)
    | UnknownAddressType
    | ReadFailed
    | WriteFailed

  /** What the caller asks for. */
  datatype Wanted = Wanted(host: Host, port: nat, user: seq<byte>, pass: seq<byte>)

  predicate ValidWanted(w: Wanted) {
    ValidHost(w.host) && w.port < 65536
  }

  /** The client offers exactly one method. */
  function OfferedMethod(w: Wanted): byte {
    if w.user != [] || w.pass != [] then 2 else 0
  }

  /** Where the client is: nothing sent yet, the next read, or how the handshake ended. */
  datatype ClientPc =
    | Start
    | MethodReply
    | AuthReply
    | ReplyHead
    | ReplyNameLength
    | ReplyRest(n: nat)
    | Connected
    | Failed(why: Failure)

  predicate Reading(pc: ClientPc) {
    !pc.Connected? && !pc.Failed?
  }

  function Need(pc: ClientPc): nat {
    match pc
    case MethodReply => 2
    case AuthReply => 2
    case ReplyHead => 4
    case ReplyNameLength => 1
    case ReplyRest(n) => n
    case _ => 0
  }

  function Rank(pc: ClientPc): nat {
    match pc
    case Start => 6
    case MethodReply => 5
    case AuthReply => 4
    case ReplyHead => 3
    case ReplyNameLength => 2
    case ReplyRest(_) => 1
    case _ => 0
  }

  function SendAuth(w: Wanted): (ClientPc, seq<byte>) {
    if w.user == [] then (Failed(NeedCredentials), [])
    else if |w.user| > 255 || |w.pass| > 255 then (Failed(CredentialsTooLong), [])
    else (AuthReply, AuthBytes(w.user, w.pass))
  }

  function SendRequest(w: Wanted): (ClientPc, seq<byte>)
    requires ValidWanted(w)
  {
    if !Encodable(w.host) then (Failed(DomainTooLong), []) else (ReplyHead, RequestBytes(w.host, w.port))
  }

  /** What the client does with the bytes of one read: where it goes on, and what it writes. */
  function Step(w: Wanted, pc: ClientPc, b: seq<byte>): (next: (ClientPc, seq<byte>))
    requires ValidWanted(w) && Reading(pc) && |b| == Need(pc)
    ensures Rank(next.0) < Rank(pc)
  {
    match pc
    case Start => (MethodReply, [5, 1, OfferedMethod(w)])
    case MethodReply =>
      if b[0] != 5 then (Failed(BadServerVersion), [])
      else if b[1] == 0 then SendRequest(w)
      else if b[1] == 2 then SendAuth(w)
      else if b[1] == 255 then (Failed(NoAcceptableMethod), [])
      else (Failed(UnknownMethod), [])
    case AuthReply => if b[1] != 0 then (Failed(AuthFailed), []) else SendRequest(w)
    case ReplyHead =>
      if b[0] != 5 then (Failed(BadReplyVersion), [])
      else if b[1] != 0 then (Failed(ConnectFailed(b[1])), [])
      else if b[3] == 1 then (ReplyRest(6), [])
      else if b[3] == 4 then (ReplyRest(18), [])
      else if b[3] == 3 then (ReplyNameLength, [])
      else (Failed(UnknownAddressType), [])
    case ReplyNameLength => (if b[0] > 0 then ReplyRest(b[0] as int + 2) else Connected, [])
    case ReplyRest(_) => (Connected, [])
  }

  datatype Ran = Ran(pc: ClientPc, used: nat, written: seq<byte>)

  /** The client on the input that ends after s; running out of input is a failed read. */
  function Run(w: Wanted, pc: ClientPc, s: seq<byte>): (r: Ran)
    requires ValidWanted(w)
    ensures r.used <= |s| && !Reading(r.pc)
    decreases Rank(pc)
  {
    if !Reading(pc) then Ran(pc, 0, [])
    else if |s| < Need(pc) then Ran(Failed(ReadFailed), |s|, [])
    else
      var (next, out) := Step(w, pc, s[..Need(pc)]);
      var rest := Run(w, next, s[Need(pc)..]);
      Ran(rest.pc, Need(pc) + rest.used, out + rest.written)
  }

  // ----- A connection that breaks -----

  /** From pc on, with more still to be written: a write that fails ends the handshake. */
  function Finish(w: Wanted, pc: ClientPc, s: seq<byte>, room: nat, more: seq<byte>): (r: Ran)
    requires ValidWanted(w)
    ensures r.used <= |s| && !Reading(r.pc)
    decreases Rank(pc), 1
  {
    if |more| > room then Ran(Failed(WriteFailed), 0, more[..room])
    else
      var rest := RunIn(w, pc, s, room - |more|);
      Ran(rest.pc, rest.used, more + rest.written)
  }

  /** The same run on a connection that takes room more bytes. */
  function RunIn(w: Wanted, pc: ClientPc, s: seq<byte>, room: nat): (r: Ran)
    requires ValidWanted(w)
    ensures r.used <= |s| && !Reading(r.pc)
    decreases Rank(pc), 0
  {
    if !Reading(pc) then Ran(pc, 0, [])
    else if |s| < Need(pc) then Ran(Failed(ReadFailed), |s|, [])
    else
      var (next, out) := Step(w, pc, s[..Need(pc)]);
      var rest := Finish(w, next, s[Need(pc)..], room, out);
      Ran(rest.pc, Need(pc) + rest.used, rest.written)
  }

  lemma RunsStep(w: Wanted, pc: ClientPc, s: seq<byte>, room: nat)
    requires ValidWanted(w) && Reading(pc) && |s| >= Need(pc)
    ensures var (next, out) := Step(w, pc, s[..Need(pc)]);
            var rest, short := Run(w, next, s[Need(pc)..]), Finish(w, next, s[Need(pc)..], room, out);
            && Run(w, pc, s) == Ran(rest.pc, Need(pc) + rest.used, out + rest.written)
            && RunIn(w, pc, s, room) == Ran(short.pc, Need(pc) + short.used, short.written)
  {
  }

  lemma RunsStop(w: Wanted, pc: ClientPc, s: seq<byte>, room: nat)
    requires ValidWanted(w) && (!Reading(pc) || |s| < Need(pc))
    ensures RunIn(w, pc, s, room) == Run(w, pc, s)
  {
  }

  lemma Fits(w: Wanted, pc: ClientPc, s: seq<byte>, room: nat, more: seq<byte>)
    requires ValidWanted(w) && |more| <= room
    ensures var r := RunIn(w, pc, s, room - |more|);
            Finish(w, pc, s, room, more) == Ran(r.pc, r.used, more + r.written)
  {
  }

  /** When the room is enough, nothing changes. */
  lemma {:induction false} EnoughRoom(w: Wanted, pc: ClientPc, s: seq<byte>, room: nat)
    requires ValidWanted(w) && |Run(w, pc, s).written| <= room
    ensures RunIn(w, pc, s, room) == Run(w, pc, s)
    decreases Rank(pc)
  {
    hide Step, Run, RunIn, Finish, Rank;
    if Reading(pc) && |s| >= Need(pc) {
      RunsStep(w, pc, s, room);
      var (next, out) := Step(w, pc, s[..Need(pc)]);
      Fits(w, next, s[Need(pc)..], room, out);
      EnoughRoom(w, next, s[Need(pc)..], room - |out|);
    } else {
      RunsStop(w, pc, s, room);
    }
  }

  /** When it is not, exactly what fits is written, and the handshake fails there. */
  lemma {:induction false} ShortRoom(w: Wanted, pc: ClientPc, s: seq<byte>, room: nat)
    requires ValidWanted(w) && |Run(w, pc, s).written| > room
    ensures var r := RunIn(w, pc, s, room);
            r.written == Run(w, pc, s).written[..room] && r.used <= Run(w, pc, s).used && r.pc == Failed(WriteFailed)
    decreases Rank(pc)
  {
    if Reading(pc) && |s| >= Need(pc) {
      RunsStep(w, pc, s, room);
      hide Step, Run, RunIn;
      var (next, out) := Step(w, pc, s[..Need(pc)]);
      PrefixOfSum(out, Run(w, next, s[Need(pc)..]).written, room);
      if |out| <= room {
        ShortRoom(w, next, s[Need(pc)..], room - |out|);
      }
    }
  }

  // ----- The code -----

  /** The handshake on input s with room m has come to pc, with t left, out written and more about to be written. */
  ghost predicate At(
    w: Wanted, s: seq<byte>, m: nat, pc: ClientPc, t: seq<byte>, out: seq<byte>, more: seq<byte>)
    requires ValidWanted(w)
  {
    && |out| <= m && |t| <= |s| && t == s[|s| - |t|..]
    && var r := Finish(w, pc, t, m - |out|, more);
       RunIn(w, Start, s, m) == Ran(r.pc, |s| - |t| + r.used, out + r.written)
  }

  /** The handshake on input s with room m has ended at pc, with t left and out written. */
  ghost predicate EndedAt(w: Wanted, s: seq<byte>, m: nat, pc: ClientPc, t: seq<byte>, out: seq<byte>)
    requires ValidWanted(w)
  {
    var r := RunIn(w, Start, s, m);
    r.pc == pc && r.written == out && t == s[r.used..]
  }

  lemma AtStart(w: Wanted, s: seq<byte>, m: nat)
    requires ValidWanted(w)
    ensures At(w, s, m, Start, s, [], [])
  {
    var r := RunIn(w, Start, s, m);
    assert [] + ([] + r.written) == r.written;
    hide RunIn;
  }

  lemma AtStep(w: Wanted, s: seq<byte>, m: nat, pc: ClientPc, t: seq<byte>, out: seq<byte>)
    requires ValidWanted(w) && At(w, s, m, pc, t, out, []) && Reading(pc) && Need(pc) <= |t|
    ensures At(w, s, m, Step(w, pc, t[..Need(pc)]).0, t[Need(pc)..], out, Step(w, pc, t[..Need(pc)]).1)
  {
    hide Step, RunIn, Finish;
    RunsStep(w, pc, t, m - |out|);
    Fits(w, pc, t, m - |out|, []);
    var r := RunIn(w, pc, t, m - |out|);
    assert [] + r.written == r.written;
  }

  lemma AtWritten(w: Wanted, s: seq<byte>, m: nat, pc: ClientPc, t: seq<byte>, out: seq<byte>, more: seq<byte>)
    requires ValidWanted(w) && At(w, s, m, pc, t, out, more) && |more| <= m - |out|
    ensures At(w, s, m, pc, t, out + more, [])
  {
    hide RunIn, Finish;
    Fits(w, pc, t, m - |out|, more);
    Fits(w, pc, t, m - |out| - |more|, []);
    var r := RunIn(w, pc, t, m - |out| - |more|);
    Associative(out, more, r.written);
    assert [] + r.written == r.written;
  }

  lemma AtWriteFailed(w: Wanted, s: seq<byte>, m: nat, pc: ClientPc, t: seq<byte>, out: seq<byte>, more: seq<byte>)
    requires ValidWanted(w) && At(w, s, m, pc, t, out, more) && |more| > m - |out|
    ensures EndedAt(w, s, m, Failed(WriteFailed), t, out + more[..m - |out|])
  {
    hide RunIn;
  }

  lemma RunInStops(w: Wanted, pc: ClientPc, t: seq<byte>, room: nat)
    requires ValidWanted(w)
    ensures !Reading(pc) ==> Finish(w, pc, t, room, []) == Ran(pc, 0, [])
    ensures Reading(pc) && |t| < Need(pc) ==> Finish(w, pc, t, room, []) == Ran(Failed(ReadFailed), |t|, [])
  {
    assert [] + RunIn(w, pc, t, room).written == RunIn(w, pc, t, room).written;
  }

  lemma AtEnd(w: Wanted, s: seq<byte>, m: nat, pc: ClientPc, t: seq<byte>, out: seq<byte>)
    requires ValidWanted(w) && At(w, s, m, pc, t, out, [])
    ensures !Reading(pc) ==> EndedAt(w, s, m, pc, t, out)
    ensures Reading(pc) && |t| < Need(pc) ==> EndedAt(w, s, m, Failed(ReadFailed), [], out)
  {
    hide RunIn, Finish;
    RunInStops(w, pc, t, m - |out|);
    assert out + [] == out;
  }

  /** The handshake that began at o has come to pc, with more about to be written. */
  ghost predicate OnTrack(w: Wanted, o: Origin, conn: Conn, pc: ClientPc, more: seq<byte>)
    requires ValidWanted(w)
    reads conn
  {
    && o.sent <= conn.sent && conn.room + |conn.sent| == o.room + |o.sent|
    && At(w, o.input, o.room, pc, conn.Inbox(), conn.sent[|o.sent|..], more)
  }

  /** It has ended at pc. */
  ghost predicate Over(w: Wanted, o: Origin, conn: Conn, pc: ClientPc)
    requires ValidWanted(w)
    reads conn
  {
    o.sent <= conn.sent && EndedAt(w, o.input, o.room, pc, conn.Inbox(), conn.sent[|o.sent|..])
  }

  /** io.ReadFull at pc. */
  method ReadAt(conn: Conn, n: nat, w: Wanted, ghost pc: ClientPc, ghost o: Origin) returns (ok: bool, b: seq<byte>)
    requires ValidWanted(w) && Reading(pc) && n == Need(pc) && OnTrack(w, o, conn, pc, [])
    modifies conn`chunks
    ensures !ok ==> Over(w, o, conn, Failed(ReadFailed))
    ensures ok ==> |b| == n && OnTrack(w, o, conn, Step(w, pc, b).0, Step(w, pc, b).1)
  {
    hide At, EndedAt, Step;
    ghost var t, out := conn.Inbox(), conn.sent[|o.sent|..];
    ok, b := conn.ReadFull(n);
    if ok {
      AtStep(w, o.input, o.room, pc, t, out);
    } else {
      AtEnd(w, o.input, o.room, pc, t, out);
    }
  }

  /** A write before pc. */
  method WriteAt(conn: Conn, more: seq<byte>, w: Wanted, ghost pc: ClientPc, ghost o: Origin) returns (ok: bool)
    requires ValidWanted(w) && OnTrack(w, o, conn, pc, more)
    modifies conn`sent, conn`room
    ensures ok ==> OnTrack(w, o, conn, pc, [])
    ensures !ok ==> Over(w, o, conn, Failed(WriteFailed))
  {
    hide At, EndedAt;
    ghost var t, out, room := conn.Inbox(), conn.sent[|o.sent|..], conn.room;
    ok := conn.Write(more);
    if ok {
      AtWritten(w, o.input, o.room, pc, t, out, more);
      assert conn.sent[|o.sent|..] == out + more;
    } else {
      AtWriteFailed(w, o.input, o.room, pc, t, out, more);
      assert conn.sent[|o.sent|..] == out + more[..room];
    }
  }

  lemma TrackStart(w: Wanted, o: Origin, conn: Conn)
    requires ValidWanted(w) && o == OriginOf(conn)
    ensures OnTrack(w, o, conn, MethodReply, [5, 1, OfferedMethod(w)])
  {
    AtStart(w, o.input, o.room);
    AtStep(w, o.input, o.room, Start, o.input, []);
    assert conn.sent[|o.sent|..] == [] && o.input[0..] == o.input;
    hide At;
  }

  lemma TrackEnd(w: Wanted, o: Origin, conn: Conn, pc: ClientPc)
    requires ValidWanted(w) && OnTrack(w, o, conn, pc, []) && !Reading(pc)
    ensures Over(w, o, conn, pc)
  {
    AtEnd(w, o.input, o.room, pc, conn.Inbox(), conn.sent[|o.sent|..]);
    hide At, EndedAt;
  }

  /** socks5UserPass. */
  method UserPass(conn: Conn, w: Wanted, ghost o: Origin) returns (failed: bool, why: Failure)
    requires ValidWanted(w) && w.user != [] && OnTrack(w, o, conn, SendAuth(w).0, SendAuth(w).1)
    modifies conn
    ensures failed ==> Over(w, o, conn, Failed(why))
    ensures !failed ==> OnTrack(w, o, conn, SendRequest(w).0, SendRequest(w).1)
  {
    hide OnTrack, Over, SendRequest;
    if |w.user| > 255 || |w.pass| > 255 {
      TrackEnd(w, o, conn, Failed(CredentialsTooLong));
      return true, CredentialsTooLong;
    }
    var ok := WriteAt(conn, AuthBytes(w.user, w.pass), w, AuthReply, o);
    if !ok {
      return true, WriteFailed;
    }
    var reply;
    ok, reply := ReadAt(conn, 2, w, AuthReply, o);
    if !ok {
      return true, ReadFailed;
    }
    if reply[1] != 0 {
      TrackEnd(w, o, conn, Failed(AuthFailed));
      return true, AuthFailed;
    }
    return false, AuthFailed;
  }

  /** The part of socks5Handshake before the request. */
  method Negotiate(conn: Conn, w: Wanted, ghost o: Origin) returns (failed: bool, why: Failure)
    requires ValidWanted(w) && o == OriginOf(conn)
    modifies conn
    ensures failed ==> Over(w, o, conn, Failed(why))
    ensures !failed ==> OnTrack(w, o, conn, SendRequest(w).0, SendRequest(w).1)
  {
    hide OnTrack, Over, SendRequest;
    TrackStart(w, o, conn);
    var greeting: seq<byte> := if w.user != [] || w.pass != [] then [5, 1, 2] else [5, 1, 0];
    var ok := WriteAt(conn, greeting, w, MethodReply, o);
    if !ok {
      return true, WriteFailed;
    }
    var choice;
    ok, choice := ReadAt(conn, 2, w, MethodReply, o);
    if !ok {
      return true, ReadFailed;
    }
    if choice[0] != 5 {
      TrackEnd(w, o, conn, Failed(BadServerVersion));
      return true, BadServerVersion;
    }
    match choice[1] {
      case 0 => return false, AuthFailed;
      case 2 =>
        if w.user == [] {
          TrackEnd(w, o, conn, Failed(NeedCredentials));
          return true, NeedCredentials;
        }
        failed, why := UserPass(conn, w, o);
      case 255 =>
        TrackEnd(w, o, conn, Failed(NoAcceptableMethod));
        return true, NoAcceptableMethod;
      case _ =>
        TrackEnd(w, o, conn, Failed(UnknownMethod));
        return true, UnknownMethod;
    }
  }

  /** The bind address of the reply, which the client reads and ignores. */
  method BoundAddress(conn: Conn, w: Wanted, kind: byte, ghost o: Origin) returns (stop: ClientPc)
    requires ValidWanted(w) && OnTrack(w, o, conn, Step(w, ReplyHead, [5, 0, 0, kind]).0, [])
    modifies conn
    ensures Over(w, o, conn, stop)
  {
    hide OnTrack, Over;
    var ok;
    var addrLen: nat;
    match kind {
      case 1 => addrLen := 4;
      case 4 => addrLen := 16;
      case 3 =>
        var l;
        ok, l := ReadAt(conn, 1, w, ReplyNameLength, o);
        if !ok {
          return Failed(ReadFailed);
        }
        addrLen := l[0];
      case _ =>
        TrackEnd(w, o, conn, Failed(UnknownAddressType));
        return Failed(UnknownAddressType);
    }
    if addrLen > 0 {
      var rest;
      ok, rest := ReadAt(conn, addrLen + 2, w, ReplyRest(addrLen + 2), o);
      if !ok {
        return Failed(ReadFailed);
      }
    }
    TrackEnd(w, o, conn, Connected);
    return Connected;
  }

  /** The request and the reply. */
  method RequestReply(conn: Conn, w: Wanted, ghost o: Origin) returns (stop: ClientPc)
    requires ValidWanted(w) && OnTrack(w, o, conn, SendRequest(w).0, SendRequest(w).1)
    modifies conn
    ensures Over(w, o, conn, stop)
  {
    hide OnTrack, Over;
    if w.host.Name? && |w.host.text| > 255 {
      TrackEnd(w, o, conn, Failed(DomainTooLong));
      return Failed(DomainTooLong);
    }
    var ok := WriteAt(conn, RequestBytes(w.host, w.port), w, ReplyHead, o);
    if !ok {
      return Failed(WriteFailed);
    }
    var head;
    ok, head := ReadAt(conn, 4, w, ReplyHead, o);
    if !ok {
      return Failed(ReadFailed);
    }
    if head[0] != 5 {
      TrackEnd(w, o, conn, Failed(BadReplyVersion));
      return Failed(BadReplyVersion);
    }
    if head[1] != 0 {
      TrackEnd(w, o, conn, Failed(ConnectFailed(head[1])));
      return Failed(ConnectFailed(head[1]));
    }
    stop := BoundAddress(conn, w, head[3], o);
  }

  /**
   * socks5Handshake: outcome, bytes written and stream position depend only on the bytes that arrive and on
   * how much can be written.
   */
  method Handshake(conn: Conn, w: Wanted) returns (stop: ClientPc)
    requires ValidWanted(w)
    modifies conn
    ensures var r := RunIn(w, Start, old(conn.Inbox()), old(conn.room));
            stop == r.pc && conn.sent == old(conn.sent) + r.written && conn.Inbox() == old(conn.Inbox())[r.used..]
  {
    hide RunIn, OnTrack, SendRequest;
    ghost var o := OriginOf(conn);
    var failed, why := Negotiate(conn, w, o);
    if failed {
      return Failed(why);
    }
    stop := RequestReply(conn, w, o);
  }

  // ----- Alignment of the stream after the reply -----

  /** The bind address as its type says: four bytes, sixteen bytes, or a length and a name. */
  predicate BindAddress(kind: byte, address: seq<byte>) {
    match kind
    case 1 => |address| == 4
    case 4 => |address| == 16
    case 3 => address != [] && |address| == 1 + address[0] as int
    case _ => false
  }

  /** A success reply, whatever its reserved byte, bind address and port. */
  function SuccessReply(rsv: byte, kind: byte, address: seq<byte>, port: seq<byte>): seq<byte> {
    [5, 0, rsv, kind] + (address + port)
  }

  lemma RunOne(w: Wanted, pc: ClientPc, b: seq<byte>, rest: seq<byte>)
    requires ValidWanted(w) && Reading(pc) && |b| == Need(pc)
    ensures var (next, out) := Step(w, pc, b);
            var r := Run(w, next, rest);
            Run(w, pc, b + rest) == Ran(r.pc, |b| + r.used, out + r.written)
  {
  }

  lemma StepAtRest(w: Wanted, b: seq<byte>)
    requires ValidWanted(w)
    ensures Step(w, ReplyRest(|b|), b) == (Connected, [])
  {
  }

  lemma RestRuns(w: Wanted, address: seq<byte>, port: seq<byte>, data: seq<byte>)
    requires ValidWanted(w) && |port| == 2
    ensures Run(w, ReplyRest(|address| + 2), (address + port) + data) == Ran(Connected, |address| + 2, [])
  {
    assert Run(w, Connected, data) == Ran(Connected, 0, []);
    hide Run, Step;
    StepAtRest(w, address + port);
    RunOne(w, ReplyRest(|address| + 2), address + port, data);
  }

  lemma StepAtHead(w: Wanted, rsv: byte, kind: byte)
    requires ValidWanted(w)
    ensures kind == 1 ==> Step(w, ReplyHead, [5, 0, rsv, kind]) == (ReplyRest(6), [])
    ensures kind == 3 ==> Step(w, ReplyHead, [5, 0, rsv, kind]) == (ReplyNameLength, [])
    ensures kind == 4 ==> Step(w, ReplyHead, [5, 0, rsv, kind]) == (ReplyRest(18), [])
  {
  }

  lemma StepAtNameLength(w: Wanted, n: byte)
    requires ValidWanted(w)
    ensures Step(w, ReplyNameLength, [n]) == (if n > 0 then ReplyRest(n as int + 2) else Connected, [])
  {
  }

  lemma NameReplyRuns(w: Wanted, address: seq<byte>, port: seq<byte>, data: seq<byte>)
    requires ValidWanted(w) && |port| == 2 && BindAddress(3, address)
    ensures var r := Run(w, ReplyNameLength, (address + port) + data);
            r.pc == Connected && r.used == if address == [0] then 1 else |address| + 2
  {
    var length, text := address[0], address[1..];
    assert (address + port) + data == [length] + ((text + port) + data);
    assert Run(w, Connected, (text + port) + data) == Ran(Connected, 0, []);
    hide Run, Step;
    StepAtNameLength(w, length);
    RunOne(w, ReplyNameLength, [length], (text + port) + data);
    if length > 0 {
      RestRuns(w, text, port, data);
    }
  }

  /**
   * After a success reply the client stands at the first byte of tunnel data, unless the bind address is an
   * empty name.
   */
  lemma AlignedAfterReply(
    w: Wanted, rsv: byte, kind: byte, address: seq<byte>, port: seq<byte>, data: seq<byte>)
    requires ValidWanted(w) && BindAddress(kind, address) && |port| == 2
    ensures var reply := SuccessReply(rsv, kind, address, port);
            var r := Run(w, ReplyHead, reply + data);
            r.pc == Connected && (r.used == |reply| <==> !(kind == 3 && address == [0]))
  {
    hide Run, Step;
    Associative([5, 0, rsv, kind], address + port, data);
    StepAtHead(w, rsv, kind);
    RunOne(w, ReplyHead, [5, 0, rsv, kind], (address + port) + data);
    if kind == 3 {
      NameReplyRuns(w, address, port, data);
    } else {
      RestRuns(w, address, port, data);
    }
  }
}
