/** Division and remainder by a variable divisor. */
module Arithmetic {

  lemma MulAtLeast(k: int, d: int)
    requires k >= 1 && d >= 0
    ensures k * d >= d
  {
  }

  lemma DivModUnique(x: int, q: int, r: int, d: int)
    requires 0 <= r < d && x == q * d + r
    ensures x / d == q && x % d == r
  {
    var q', r' := x / d, x % d;
    assert (q - q') * d == r' - r;
    if q > q' {
      assert (q - q') * d >= d by { MulAtLeast(q - q', d); }
    } else if q < q' {
      assert (q' - q) * d >= d by { MulAtLeast(q' - q, d); }
    }
  }

  lemma ModPlus(x: nat, cap: nat)
    requires cap > 0
    ensures (x + cap) % cap == x % cap
  {
    var q := x / cap;
    assert x + cap == (q + 1) * cap + x % cap;
    DivModUnique(x + cap, q + 1, x % cap, cap);
  }

  lemma {:induction false} ModShift(k: nat, q: nat, cap: nat)
    requires cap > 0
    ensures (k + q * cap) % cap == k % cap
  {
    if q > 0 {
      ModShift(k, q - 1, cap);
      var x := k + (q - 1) * cap;
      assert k + q * cap == x + cap;
      ModPlus(x, cap);
    }
  }

  lemma DivMonotone(a: nat, b: nat, h: nat)
    requires a <= b && h > 0
    ensures a / h <= b / h
  {
    var q := a / h;
    var d := b - q * h;
    assert a == q * h + a % h;
    assert b == (q + d / h) * h + d % h by {
      assert (q + d / h) * h == q * h + (d / h) * h;
    }
    DivModUnique(b, q + d / h, d % h, h);
  }

  lemma MultiplesAdd(a: nat, b: nat, d: nat)
    requires d > 0 && a % d == 0 && b % d == 0
    ensures (a + b) % d == 0
  {
    var p, q := a / d, b / d;
    assert a + b == (p + q) * d;
    DivModUnique(a + b, p + q, 0, d);
  }

  /** Two numbers less than d apart have different remainders. */
  lemma SlotsDiffer(a: nat, b: nat, d: nat)
    requires a < b < a + d
    ensures a % d != b % d
  {
    var q, r := a / d, a % d + (b - a);
    assert b == q * d + r;
    if r < d {
      DivModUnique(b, q, r, d);
    } else {
      assert b == (q + 1) * d + (r - d);
      DivModUnique(b, q + 1, r - d, d);
    }
  }

  function Min(a: int, b: int): (m: int)
    ensures m <= a && m <= b && (m == a || m == b)
  {
    if a < b then a else b
  }
}
