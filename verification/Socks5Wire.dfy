/** Messages of SOCKS version 5 (RFC 1928) and its user name/password sub-negotiation (RFC 1929). */
module Socks5Wire {
  import opened Bytes

  /** An RFC 1928 destination: a name that is no IP literal, or an address in 16-byte form. */
  datatype Host = Name(text: seq<byte>) | Ip(octets: seq<byte>)

  /** The first 12 bytes of an IPv4 address in 16-byte form. */
  const V4_PREFIX: seq<byte> := [0, 0, 0, 0, 0, 0, 0, 0, 0, 0, 255, 255]

  predicate ValidHost(h: Host) {
    h.Ip? ==> |h.octets| == 16
  }

  predicate IsV4(octets: seq<byte>) {
    V4_PREFIX <= octets
  }

  predicate Encodable(h: Host) {
    h.Name? ==> |h.text| <= 255
  }

  function PortBytes(port: nat): (b: seq<byte>)
    requires port < 65536
    ensures |b| == 2 && b[0] as int * 256 + b[1] as int == port
  {
    [port / 256, port % 256]
  }

  /** ATYP and the address. */
  function HostBytes(h: Host): seq<byte>
    requires ValidHost(h) && Encodable(h)
  {
    match h
    case Name(text) => [3, |text|] + text
    case Ip(octets) => if IsV4(octets) then [1] + octets[12..] else [4] + octets
  }

  /** The CONNECT request. */
  function RequestBytes(h: Host, port: nat): seq<byte>
    requires ValidHost(h) && Encodable(h) && port < 65536
  {
    [5, 1, 0] + (HostBytes(h) + PortBytes(port))
  }

  /** The RFC 1929 frame. */
  function AuthBytes(user: seq<byte>, pass: seq<byte>): seq<byte>
    requires |user| <= 255 && |pass| <= 255
  {
    [1] + ([|user|] + (user + ([|pass|] + pass)))
  }

  /** A server reply with an IPv4 bind address of zeros. */
  function Reply(rep: byte): seq<byte> {
    [5, rep, 0, 1, 0, 0, 0, 0, 0, 0]
  }
}
