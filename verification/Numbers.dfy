/** Quotients and powers of two. */
module Numbers {

  lemma Divides(a: int, b: int)
    requires b > 0
    ensures a == a / b * b + a % b
  {
  }

  lemma Quotients(a: int, b: int)
    requires b > 0 && a >= b
    ensures (a - b) / b == a / b - 1 && (a - b) % b == a % b
  {
    var q, r := a / b, a % b;
    assert a - b == (q - 1) * b + r;
    OneQuotient(a - b, b, q - 1, r);
  }

  lemma OneQuotient(a: int, b: int, q: int, r: int)
    requires b > 0 && a == q * b + r && 0 <= r < b
    ensures a / b == q && a % b == r
  {
    var q', r' := a / b, a % b;
    Divides(a, b);
    Distribute(q, q', b);
    if q > q' {
      AtLeast(q - q', b);
    } else if q < q' {
      AtLeast(q' - q, b);
      Distribute(q', q, b);
    }
  }

  lemma Distribute(x: int, y: int, b: int)
    ensures (x - y) * b == x * b - y * b
  {
  }

  lemma AtLeast(x: int, b: int)
    requires x >= 1 && b > 0
    ensures x * b >= b
  {
  }

  function Pow2(n: nat): (p: nat)
    ensures p >= 1
  {
    if n == 0 then 1 else 2 * Pow2(n - 1)
  }

  lemma PowValues()
    ensures Pow2(8) == 0x100 && Pow2(16) == 0x1_0000 && Pow2(31) == 0x8000_0000 && Pow2(32) == 0x1_0000_0000
  {
    assert Pow2(8) == 0x100;
    assert Pow2(16) == 0x1_0000;
    assert Pow2(24) == 0x100_0000;
    assert Pow2(31) == 0x8000_0000;
  }

  lemma PowHalf(n: nat)
    requires n <= 31
    ensures Pow2(n) * Pow2(31 - n) == 0x8000_0000 && Pow2(n) <= 0x8000_0000
  {
    PowSum(n, 31 - n);
    PowValues();
    Factor(Pow2(n), Pow2(31 - n));
  }

  lemma {:induction false} PowSum(a: nat, b: nat)
    ensures Pow2(a) * Pow2(b) == Pow2(a + b)
  {
    if a > 0 {
      PowSum(a - 1, b);
    }
  }

  lemma {:induction false} PowMono(a: nat, b: nat)
    requires a <= b
    ensures Pow2(a) <= Pow2(b)
  {
    if a < b {
      PowMono(a, b - 1);
    }
  }

  lemma Factor(a: nat, b: nat)
    requires b >= 1
    ensures a <= a * b
  {
  }
}
