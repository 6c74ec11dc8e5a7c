/** Ports as text: uint16ToStr (internal/proxy/util.go) and parsePort (internal/proxy/http.go). */
module PortText {
  import opened DecimalText
  import opened Sequences

  const TWO63: int := 0x8000_0000_0000_0000
  const TWO64: int := 0x1_0000_0000_0000_0000

  /** A 64-bit signed integer after overflow. */
  function Wrap64(x: int): (w: int)
    ensures -TWO63 <= w < TWO63
  {
    (x + TWO63) % TWO64 - TWO63
  }

  /** An upper bound that shrinks with the free space of the digit buffer. */
  function PowerOfTen(i: nat): nat {
    if i == 0 then 1 else 10 * PowerOfTen(i - 1)
  }

  /** The digits still to be written. */
  function Rest(p: nat): (r: string)
    ensures p > 0 ==> r == Rest(p / 10) + [DigitChar(p % 10)]
  {
    if p > 0 then Decimal(p) else ""
  }

  /** p is what is left of port once the digits in filled are written, and i places are enough for it. */
  ghost predicate Left(port: nat, p: nat, filled: string, i: nat) {
    Rest(port) == Rest(p) + filled && p < PowerOfTen(i)
  }

  lemma AllIsLeft(port: nat)
    requires port <= 65535
    ensures Left(port, port, "", 5)
  {
    assert PowerOfTen(5) == 100000;
    assert Rest(port) + "" == Rest(port);
  }

  lemma OneDigitLess(port: nat, p: nat, filled: string, i: nat)
    requires Left(port, p, filled, i) && p > 0
    ensures i > 0 && Left(port, p / 10, [DigitChar(p % 10)] + filled, i - 1)
  {
    assert i > 0 && p / 10 < PowerOfTen(i - 1);
    Associative(Rest(p / 10), [DigitChar(p % 10)], filled);
    hide Rest, PowerOfTen;
  }

  lemma NothingLeft(port: nat, filled: string, i: nat)
    requires port > 0 && Left(port, 0, filled, i)
    ensures filled == Decimal(port)
  {
    hide Decimal, PowerOfTen;
    assert Rest(0) == "" && "" + filled == filled;
  }

  lemma ZeroText()
    ensures Decimal(0) == "0"
  {
  }

  /** Writes one digit in front of the digits from i on. */
  method PutDigit(buf: array<char>, i: nat, digit: char)
    requires 0 < i <= buf.Length
    modifies buf
    ensures buf[i - 1..] == [digit] + old(buf[i..])
  {
    buf[i - 1] := digit;
  }

  /** Fills a five-byte buffer from the back; the index never leaves the buffer. */
  method Uint16ToStr(port: nat) returns (s: string)
    requires port <= 65535
    ensures s == Decimal(port)
  {
    hide Decimal, Left, Rest, PowerOfTen;
    if port == 0 {
      ZeroText();
      return "0";
    }
    var buf := new char[5];
    var p: nat, i: nat := port, 5;
    AllIsLeft(port);
    assert buf[i..] == "";
    while p > 0
      invariant i <= 5 && Left(port, p, buf[i..], i)
    {
      OneDigitLess(port, p, buf[i..], i);
      PutDigit(buf, i, DigitChar(p % 10));
      i := i - 1;
      p := p / 10;
    }
    s := buf[i..];
    NothingLeft(port, s, i);
  }

  /** What parsePort returns: the wrapped value of a digit string when it is a port, else the default. */
  function PortOf(s: string, def: int): int {
    if AllDigits(s) && 1 <= Wrap64(Value(s)) <= 65535 then Wrap64(Value(s)) else def
  }

  /** What a reader expects: the number itself when it is a port, else the default. */
  function IntendedPort(s: string, def: int): int {
    if AllDigits(s) && 1 <= Value(s) <= 65535 then Value(s) else def
  }

  lemma WrapMeaning(v: nat)
    ensures Wrap64(v) == if v % TWO64 < TWO63 then v % TWO64 else v % TWO64 - TWO64
  {
  }

  lemma WrapStep(v: int, d: int)
    ensures Wrap64(Wrap64(v) * 10 + d) == Wrap64(v * 10 + d)
  {
    var q := (v + TWO63) / TWO64;
    assert Wrap64(v) == v - q * TWO64;
    assert (v * 10 + d + TWO63 - (10 * q) * TWO64) % TWO64 == (v * 10 + d + TWO63) % TWO64;
  }

  method ParsePort(s: string, def: int) returns (r: int)
    ensures r == PortOf(s, def)
  {
    if s == "" {
      return def;
    }
    var n := 0;
    for k := 0 to |s|
      invariant AllDigits(s[..k])
      invariant n == Wrap64(Value(s[..k]))
    {
      if s[k] < '0' || s[k] > '9' {
        return def;
      }
      assert s[..k + 1][..k] == s[..k];
      WrapStep(Value(s[..k]), DigitValue(s[k]));
      n := Wrap64(n * 10 + (s[k] as int - '0' as int));
    }
    assert s[..|s|] == s;
    if n <= 0 || n > 65535 {
      return def;
    }
    return n;
  }

  /** The text of a port parses back to it, whatever the default. */
  lemma PortRoundTrip(port: nat, def: int)
    requires 1 <= port <= 65535
    ensures PortOf(Decimal(port), def) == port
  {
    DecimalDenotes(port);
  }

  /** parsePort is right for every string except those whose value overflows into the port range. */
  lemma ParsePortExact(s: string)
    ensures (forall def :: PortOf(s, def) == IntendedPort(s, def))
       <==> !(AllDigits(s) && Value(s) >= TWO63 && 1 <= Value(s) % TWO64 <= 65535)
  {
    if AllDigits(s) {
      WrapMeaning(Value(s));
      assert Value(s) < TWO63 ==> Value(s) % TWO64 == Value(s);
      assert PortOf(s, 0) == IntendedPort(s, 0) ==> forall def :: PortOf(s, def) == IntendedPort(s, def);
    }
  }

  /** The exception is real: the text of 2^64 + 1 is taken as port 1. */
  lemma OverflowIsAccepted(def: int)
    requires def != 1
    ensures PortOf(Decimal(TWO64 + 1), def) == 1 != IntendedPort(Decimal(TWO64 + 1), def)
  {
    DecimalDenotes(TWO64 + 1);
    WrapMeaning(TWO64 + 1);
  }
}
