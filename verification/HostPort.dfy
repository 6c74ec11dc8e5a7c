/** Address text: joining and splitting "host:port" as the pool and the save handler do. */
module HostPort {
  import opened DecimalText

  /** The "%d" text of an integer. */
  function IntText(n: int): string {
    if n < 0 then "-" + Decimal(-n) else Decimal(n)
  }

  /** A host with a colon is put in brackets. */
  function Bracketed(host: string): string {
    if ':' in host then "[" + host + "]" else host
  }

  /** net.JoinHostPort. */
  function JoinHostPort(host: string, port: string): string {
    Bracketed(host) + ":" + port
  }

  /** Everything before and after the last colon; two empty texts when there is none. */
  function SplitHostPort(addr: string): (string, string) {
    if addr == "" then ("", "")
    else if addr[|addr| - 1] == ':' then (addr[..|addr| - 1], "")
    else if ':' !in addr then ("", "")
    else
      var (host, port) := SplitHostPort(addr[..|addr| - 1]);
      (host, port + [addr[|addr| - 1]])
  }

  /** SplitHostPort cuts at the last colon. */
  lemma {:induction false} SplitHostPortMeaning(addr: string)
    ensures ':' in addr ==> addr == SplitHostPort(addr).0 + ":" + SplitHostPort(addr).1
    ensures ':' !in SplitHostPort(addr).1
    ensures ':' !in addr ==> SplitHostPort(addr) == ("", "")
  {
    if addr != "" && addr[|addr| - 1] != ':' && ':' in addr {
      var front, last := addr[..|addr| - 1], addr[|addr| - 1];
      assert addr == front + [last] && ':' in front;
      SplitHostPortMeaning(front);
    } else if addr != "" && addr[|addr| - 1] == ':' {
      assert addr == addr[..|addr| - 1] + ":" + "";
    }
  }

  /** A port without a colon is split off again, whatever the host. */
  lemma {:induction false} SplitJoined(host: string, port: string)
    requires ':' !in port
    ensures SplitHostPort(host + ":" + port) == (host, port)
  {
    var addr := host + ":" + port;
    if port == "" {
      assert addr[..|addr| - 1] == host;
    } else {
      var front := port[..|port| - 1];
      assert addr[..|addr| - 1] == host + ":" + front && addr[|host|] == ':';
      SplitJoined(host, front);
      assert front + [port[|port| - 1]] == port;
    }
  }

  /** The white space that fmt.Sscanf skips before a number; a newline is an error there. */
  predicate IsScanSpace(c: char) {
    || c in "\t\r \U{000B}\U{000C}\U{0085}\U{00A0}\U{1680}\U{2028}\U{2029}\U{202F}\U{205F}\U{3000}"
    || '\U{2000}' <= c <= '\U{200A}'
  }

  function LeadingDigits(s: string): (d: string)
    ensures AllDigits(d)
  {
    if s != "" && IsDigit(s[0]) then [s[0]] + LeadingDigits(s[1..]) else ""
  }

  /** The value of the leading digits; the variable keeps its 0 when there are none or the value is above max. */
  function ScanDigits(s: string, max: nat): (n: nat)
    ensures n <= max
  {
    var v := Value(LeadingDigits(s));
    if v <= max then v else 0
  }

  /** fmt.Sscanf with "%d" into a variable that holds 0: leading spaces, a sign, digits. */
  function ScanInt(s: string): int {
    if s != "" && IsScanSpace(s[0]) then ScanInt(s[1..])
    else if s != "" && s[0] == '-' then 0 - ScanDigits(s[1..], 0x8000_0000_0000_0000)
    else if s != "" && s[0] == '+' then ScanDigits(s[1..], 0x7FFF_FFFF_FFFF_FFFF)
    else ScanDigits(s, 0x7FFF_FFFF_FFFF_FFFF)
  }

  lemma {:induction false} LeadingDigitsThen(s: string, rest: string)
    requires AllDigits(s) && (rest == "" || !IsDigit(rest[0]))
    ensures LeadingDigits(s + rest) == s
  {
    if s != "" {
      assert (s + rest)[1..] == s[1..] + rest;
      LeadingDigitsThen(s[1..], rest);
    }
  }

  lemma LeadingDigitsAll(s: string)
    requires AllDigits(s)
    ensures LeadingDigits(s) == s
  {
    assert s + "" == s;
    LeadingDigitsThen(s, "");
  }

  lemma ScanDigitsOf(n: nat, rest: string)
    requires n < 0x8000_0000_0000_0000 && (rest == "" || !IsDigit(rest[0]))
    ensures var text := Decimal(n) + rest;
            && text != "" && IsDigit(text[0]) && ("+" + text)[1..] == text
            && ScanDigits(text, 0x7FFF_FFFF_FFFF_FFFF) == n
  {
    DecimalDenotes(n);
    LeadingDigitsThen(Decimal(n), rest);
    hide Decimal, Value, LeadingDigits;
  }

  /** Blanks before a number and a plus sign make no difference, and neither does what follows its digits. */
  lemma ScanSkips(n: nat, rest: string)
    requires n < 0x8000_0000_0000_0000 && (rest == "" || !IsDigit(rest[0]))
    ensures ScanInt(Decimal(n) + rest) == ScanInt("+" + (Decimal(n) + rest)) == n
    ensures ScanInt(" " + (Decimal(n) + rest)) == ScanInt("\t" + (Decimal(n) + rest)) == n
  {
    var text := Decimal(n) + rest;
    ScanDigitsOf(n, rest);
    hide Decimal, ScanDigits;
    assert ScanInt(text) == n;
    assert (" " + text)[1..] == text && ("\t" + text)[1..] == text;
  }

  /** A port's text scans back to the port. */
  lemma ScanDecimal(n: nat)
    requires n < 0x8000_0000_0000_0000
    ensures ScanInt(Decimal(n)) == n && ':' !in Decimal(n)
  {
    DecimalDenotes(n);
    LeadingDigitsAll(Decimal(n));
    assert IsDigit(Decimal(n)[0]);
  }

  /** The text of an integer of 64 bits scans back to it. */
  lemma ScanIntText(n: int)
    requires -0x8000_0000_0000_0000 <= n < 0x8000_0000_0000_0000
    ensures ScanInt(IntText(n)) == n
  {
    if n < 0 {
      DecimalDenotes(-n);
      LeadingDigitsAll(Decimal(-n));
      assert IntText(n)[1..] == Decimal(-n);
    } else {
      ScanDecimal(n);
    }
  }
}
