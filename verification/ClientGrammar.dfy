/**
 * What the client does with every possible answer (internal/proxy/dialer.go), as one function of the bytes
 * that arrive: offsets and literal bytes of RFC 1928 and RFC 1929, without the machine's states.
 */
module ClientGrammar {
  import opened Bytes
  import opened Sequences
  import opened Socks5Client
  import opened Socks5Wire

  // ----- What the client writes -----

  function Offer(w: Wanted): seq<byte> {
    if w.user == [] && w.pass == [] then [5, 1, 0] else [5, 1, 2]
  }

  /** The credentials fit the frame of section 2 of RFC 1929. */
  predicate CanAuthenticate(w: Wanted) {
    0 < |w.user| <= 255 && |w.pass| <= 255
  }

  function Credentials(w: Wanted): seq<byte>
    requires CanAuthenticate(w)
  {
    [1, |w.user|] + w.user + [|w.pass|] + w.pass
  }

  predicate NameFits(w: Wanted) {
    w.host.Name? ==> |w.host.text| <= 255
  }

  /** Type and address as section 5 of RFC 1928 has them. */
  function Address(h: Host): seq<byte>
    requires ValidHost(h) && (h.Name? ==> |h.text| <= 255)
  {
    match h
    case Name(text) => [3, |text|] + text
    case Ip(octets) =>
      if octets[..12] == [0, 0, 0, 0, 0, 0, 0, 0, 0, 0, 255, 255] then [1] + octets[12..] else [4] + octets
  }

  function Connect(w: Wanted): seq<byte>
    requires ValidWanted(w) && NameFits(w)
  {
    [5, 1, 0] + Address(w.host) + [w.port / 256, w.port % 256]
  }

  lemma WireBytes(w: Wanted)
    requires ValidWanted(w)
    ensures CanAuthenticate(w) ==> AuthBytes(w.user, w.pass) == Credentials(w)
    ensures NameFits(w) ==> RequestBytes(w.host, w.port) == Connect(w)
  {
  }

  // ----- What it makes of the reply -----

  /** s begins with a success reply; after an empty name the client does not wait for a port. */
  predicate BeginsWithSuccess(s: seq<byte>) {
    && |s| >= 4 && s[0] == 5 && s[1] == 0
    && (|| (s[3] == 1 && |s| >= 10)
        || (s[3] == 4 && |s| >= 22)
        || (s[3] == 3 && |s| >= 5 && (s[4] == 0 || |s| >= 7 + s[4] as int)))
  }

  function SuccessLength(s: seq<byte>): (n: nat)
    requires BeginsWithSuccess(s)
    ensures n <= |s|
  {
    if s[3] == 1 then 10 else if s[3] == 4 then 22 else if s[4] == 0 then 5 else 7 + s[4] as int
  }

  function ReplyVerdict(s: seq<byte>): (r: Ran) {
    if |s| < 4 then Ran(Failed(ReadFailed), |s|, [])
    else if s[0] != 5 then Ran(Failed(BadReplyVersion), 4, [])
    else if s[1] != 0 then Ran(Failed(ConnectFailed(s[1])), 4, [])
    else if s[3] != 1 && s[3] != 3 && s[3] != 4 then Ran(Failed(UnknownAddressType), 4, [])
    else if BeginsWithSuccess(s) then Ran(Connected, SuccessLength(s), [])
    else Ran(Failed(ReadFailed), |s|, [])
  }

  /** r after n bytes have been used and out has been written. */
  function After(n: nat, out: seq<byte>, r: Ran): Ran {
    Ran(r.pc, n + r.used, out + r.written)
  }

  lemma FailedRun(w: Wanted, why: Failure, s: seq<byte>)
    requires ValidWanted(w)
    ensures Run(w, Failed(why), s) == Ran(Failed(why), 0, [])
  {
  }

  lemma RunAtRest(w: Wanted, n: nat, s: seq<byte>)
    requires ValidWanted(w)
    ensures Run(w, ReplyRest(n), s) == if |s| < n then Ran(Failed(ReadFailed), |s|, []) else Ran(Connected, n, [])
  {
  }

  lemma RunAtNameLength(w: Wanted, s: seq<byte>)
    requires ValidWanted(w)
    ensures Run(w, ReplyNameLength, s) ==
            if |s| < 1 then Ran(Failed(ReadFailed), |s|, [])
            else if s[0] == 0 then Ran(Connected, 1, [])
            else if |s| < 3 + s[0] as int then Ran(Failed(ReadFailed), |s|, [])
            else Ran(Connected, 3 + s[0] as int, [])
  {
    if |s| >= 1 {
      RunsStep(w, ReplyNameLength, s, 0);
      RunAtRest(w, s[0] as int + 2, s[1..]);
    }
  }

  /** Where the head of a reply leads. */
  function ReplyGoesOn(s: seq<byte>): ClientPc
    requires |s| >= 4
  {
    if s[0] != 5 then Failed(BadReplyVersion)
    else if s[1] != 0 then Failed(ConnectFailed(s[1]))
    else if s[3] == 1 then ReplyRest(6)
    else if s[3] == 4 then ReplyRest(18)
    else if s[3] == 3 then ReplyNameLength
    else Failed(UnknownAddressType)
  }

  lemma RunAtReplyHead(w: Wanted, s: seq<byte>)
    requires ValidWanted(w)
    ensures |s| < 4 ==> Run(w, ReplyHead, s) == Ran(Failed(ReadFailed), |s|, [])
    ensures |s| >= 4 ==> Run(w, ReplyHead, s) == After(4, [], Run(w, ReplyGoesOn(s), s[4..]))
  {
    if |s| >= 4 {
      RunsStep(w, ReplyHead, s, 0);
      hide Run;
    }
  }

  lemma RunAtReply(w: Wanted, s: seq<byte>)
    requires ValidWanted(w)
    ensures Run(w, ReplyHead, s) == ReplyVerdict(s)
  {
    hide Run;
    RunAtReplyHead(w, s);
    if |s| >= 4 {
      var t, pc := s[4..], ReplyGoesOn(s);
      match pc {
        case Failed(why) => FailedRun(w, why, t);
        case ReplyRest(n) => RunAtRest(w, n, t);
        case _ => RunAtNameLength(w, t);
      }
    }
  }

  // ----- The whole handshake -----

  /** From the request on. */
  function RequestVerdict(w: Wanted, s: seq<byte>): Ran
    requires ValidWanted(w)
  {
    if !NameFits(w) then Ran(Failed(DomainTooLong), 0, []) else After(0, Connect(w), ReplyVerdict(s))
  }

  /** From the server's choice of method on. */
  function ChoiceVerdict(w: Wanted, s: seq<byte>): Ran
    requires ValidWanted(w)
  {
    if |s| < 2 then Ran(Failed(ReadFailed), |s|, [])
    else if s[0] != 5 then Ran(Failed(BadServerVersion), 2, [])
    else if s[1] == 0 then After(2, [], RequestVerdict(w, s[2..]))
    else if s[1] == 255 then Ran(Failed(NoAcceptableMethod), 2, [])
    else if s[1] != 2 then Ran(Failed(UnknownMethod), 2, [])
    else if w.user == [] then Ran(Failed(NeedCredentials), 2, [])
    else if !CanAuthenticate(w) then Ran(Failed(CredentialsTooLong), 2, [])
    else if |s| < 4 then Ran(Failed(ReadFailed), |s|, Credentials(w))
    else if s[3] != 0 then Ran(Failed(AuthFailed), 4, Credentials(w))
    else After(4, Credentials(w), RequestVerdict(w, s[4..]))
  }

  /** The outcome for every input: how it ends, the bytes used and the bytes written. */
  function Verdict(w: Wanted, s: seq<byte>): Ran
    requires ValidWanted(w)
  {
    After(0, Offer(w), ChoiceVerdict(w, s))
  }

  /** The run goes on with the request, or ends if there is none. */
  lemma RunAfterRequest(w: Wanted, s: seq<byte>)
    requires ValidWanted(w)
    ensures var (next, out) := SendRequest(w);
            After(0, out, Run(w, next, s)) == RequestVerdict(w, s)
  {
    WireBytes(w);
    RunAtReply(w, s);
  }

  lemma RunAtAuthReply(w: Wanted, s: seq<byte>)
    requires ValidWanted(w)
    ensures Run(w, AuthReply, s) ==
            if |s| < 2 then Ran(Failed(ReadFailed), |s|, [])
            else if s[1] != 0 then Ran(Failed(AuthFailed), 2, [])
            else After(2, [], RequestVerdict(w, s[2..]))
  {
    if |s| >= 2 {
      RunsStep(w, AuthReply, s, 0);
      RunAfterRequest(w, s[2..]);
      hide SendRequest, RequestVerdict;
      assert Run(w, Failed(AuthFailed), s[2..]) == Ran(Failed(AuthFailed), 0, []);
    }
  }

  /** After the choice of method 2. */
  lemma RunAtCredentials(w: Wanted, s: seq<byte>)
    requires ValidWanted(w)
    ensures var (next, out) := SendAuth(w);
            After(0, out, Run(w, next, s)) ==
            if w.user == [] then Ran(Failed(NeedCredentials), 0, [])
            else if !CanAuthenticate(w) then Ran(Failed(CredentialsTooLong), 0, [])
            else if |s| < 2 then Ran(Failed(ReadFailed), |s|, Credentials(w))
            else if s[1] != 0 then Ran(Failed(AuthFailed), 2, Credentials(w))
            else After(2, Credentials(w), RequestVerdict(w, s[2..]))
  {
    WireBytes(w);
    RunAtAuthReply(w, s);
    hide RequestVerdict, AuthBytes, Credentials;
    if CanAuthenticate(w) {
      hide Run;
    }
  }

  lemma RunAtChoice(w: Wanted, s: seq<byte>)
    requires ValidWanted(w)
    ensures Run(w, MethodReply, s) == ChoiceVerdict(w, s)
  {
    if |s| >= 2 {
      RunsStep(w, MethodReply, s, 0);
      var t := s[2..];
      assert |s| >= 4 ==> t[2..] == s[4..];
      RunAfterRequest(w, t);
      RunAtCredentials(w, t);
      FailedRun(w, BadServerVersion, t);
      FailedRun(w, NoAcceptableMethod, t);
      FailedRun(w, UnknownMethod, t);
      hide Run, RequestVerdict, SendRequest, SendAuth, Credentials, CanAuthenticate;
    }
  }

  /** socks5Handshake does with every input exactly what the grammar says. */
  lemma RunIsVerdict(w: Wanted, s: seq<byte>)
    requires ValidWanted(w)
    ensures Run(w, Start, s) == Verdict(w, s)
  {
    RunsStep(w, Start, s, 0);
    assert s[0..] == s;
    RunAtChoice(w, s);
    hide Run, ChoiceVerdict;
  }

  // ----- What follows -----

  /** The client connects exactly on these inputs. */
  lemma ConnectedExactly(w: Wanted, s: seq<byte>)
    requires ValidWanted(w)
    ensures Run(w, Start, s).pc == Connected <==>
            && (w.host.Name? ==> |w.host.text| <= 255)
            && |s| >= 2 && s[0] == 5
            && (|| (s[1] == 0 && BeginsWithSuccess(s[2..]))
                || (s[1] == 2 && |s| >= 4 && s[3] == 0 && BeginsWithSuccess(s[4..])
                    && 0 < |w.user| <= 255 && |w.pass| <= 255))
  {
    RunIsVerdict(w, s);
    hide Run;
  }

  /** Rejected credentials end the handshake at once: nothing more is read, nothing more is written. */
  lemma RejectedCredentials(w: Wanted, x: byte, y: byte, rest: seq<byte>)
    requires ValidWanted(w) && 0 < |w.user| <= 255 && |w.pass| <= 255 && y != 0
    ensures Run(w, Start, [5, 2, x, y] + rest)
            == Ran(Failed(AuthFailed), 4, [5, 1, 2] + ([1, |w.user|] + w.user + [|w.pass|] + w.pass))
  {
    RunIsVerdict(w, [5, 2, x, y] + rest);
    hide Run;
  }

  /** Once connected, the client has written the offer, the credentials if asked for, and the request. */
  lemma ConnectedHasWritten(w: Wanted, s: seq<byte>)
    requires ValidWanted(w) && Run(w, Start, s).pc == Connected
    ensures NameFits(w) && (s[1] == 2 ==> CanAuthenticate(w))
    ensures Run(w, Start, s).written == Offer(w) + ((if s[1] == 2 then Credentials(w) else []) + Connect(w))
  {
    RunIsVerdict(w, s);
    hide Run, Credentials, Connect, Offer;
  }
}
