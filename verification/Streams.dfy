/** A connection as the handshakes see it: bytes that arrive in chunks, and bytes sent until it breaks. */
module Streams {
  import opened Bytes

  function Flatten(chunks: seq<seq<byte>>): seq<byte> {
    if chunks == [] then [] else chunks[0] + Flatten(chunks[1..])
  }

  class Conn {
    /** The chunks still to arrive; the peer closes after the last. */
    var chunks: seq<seq<byte>>
    var sent: seq<byte>
    /** How many bytes can still be written before the connection breaks. */
    var room: nat

    /** All bytes still to arrive, however they are cut into chunks. */
    function Inbox(): seq<byte>
      reads this
    {
      Flatten(chunks)
    }

    constructor (chunks: seq<seq<byte>>, room: nat)
      ensures this.chunks == chunks && sent == [] && this.room == room
    {
      this.chunks, sent, this.room := chunks, [], room;
    }

    /** Read: at most max bytes of the next chunk; nothing exactly at the end of the input. */
    method Read(max: nat) returns (b: seq<byte>)
      requires max > 0
      modifies this`chunks
      ensures |b| <= max && old(Inbox()) == b + Inbox()
      ensures b == [] <==> old(Inbox()) == []
      ensures |b| > 0 ==> |Inbox()| < |old(Inbox())|
    {
      while chunks != [] && chunks[0] == []
        invariant Inbox() == old(Inbox())
        decreases |chunks|
      {
        chunks := chunks[1..];
      }
      if chunks == [] {
        return [];
      }
      var first := chunks[0];
      if |first| <= max {
        b := first;
        chunks := chunks[1..];
      } else {
        b := first[..max];
        chunks := [first[max..]] + chunks[1..];
        assert first == b + first[max..];
      }
    }

    /** io.ReadFull: exactly n bytes, or failure after consuming what there was. */
    method ReadFull(n: nat) returns (ok: bool, b: seq<byte>)
      modifies this`chunks
      ensures ok <==> n <= |old(Inbox())|
      ensures ok ==> b == old(Inbox())[..n] && Inbox() == old(Inbox())[n..]
      ensures !ok ==> Inbox() == []
    {
      b := [];
      ghost var all := Inbox();
      while |b| < n
        invariant |b| <= n && all == b + Inbox()
        decreases n - |b|
      {
        var more := Read(n - |b|);
        if more == [] {
          return false, b;
        }
        b := b + more;
      }
      ok := true;
    }

    /** Write: all of b, or the part that still fits and an error. */
    method Write(b: seq<byte>) returns (ok: bool)
      modifies this`sent, this`room
      ensures ok <==> |b| <= old(room)
      ensures ok ==> sent == old(sent) + b && room == old(room) - |b|
      ensures !ok ==> sent == old(sent) + b[..old(room)] && room == 0
    {
      ok := |b| <= room;
      if ok {
        sent, room := sent + b, room - |b|;
      } else {
        sent, room := sent + b[..room], 0;
      }
    }
  }

  /** A connection as it was when the handshake began. */
  datatype Origin = Origin(input: seq<byte>, room: nat, sent: seq<byte>)

  function OriginOf(conn: Conn): Origin
    reads conn
  {
    Origin(conn.Inbox(), conn.room, conn.sent)
  }
}
