/** Powers of two and the division facts shared by the arithmetic modules. */
module Powers {

  function Pow2(n: nat): (r: nat)
    ensures r >= 1
  {
    if n == 0 then 1 else 2 * Pow2(n - 1)
  }

  lemma {:induction false} Pow2Add(m: nat, n: nat)
    ensures Pow2(m + n) == Pow2(m) * Pow2(n)
  {
    if m == 0 {
    } else {
      Pow2Add(m - 1, n);
      assert Pow2(m + n) == 2 * Pow2((m - 1) + n);
      assert 2 * (Pow2(m - 1) * Pow2(n)) == (2 * Pow2(m - 1)) * Pow2(n);
    }
  }

  lemma Pow2Monotone(m: nat, n: nat)
    requires m <= n
    ensures Pow2(m) <= Pow2(n)
  {
    Pow2Add(m, n - m);
    MulGe(Pow2(m), Pow2(n - m));
  }

  lemma MulGe(a: nat, b: nat)
    requires b >= 1
    ensures a * b >= a
  {
  }

  lemma MulAdd(a: int, b: int, c: int, sum: int)
    requires sum == b + c
    ensures a * sum == a * b + a * c
  {
  }

  lemma MulMonotone(a: int, b: int, c: int)
    requires a <= b && 0 <= c
    ensures a * c <= b * c
  {
  }

  /** Euclidean division is the unique quotient with a remainder in range. */
  lemma DivUnique(a: int, d: int, q: int, r: int)
    requires d > 0 && a == q * d + r && 0 <= r < d
    ensures a / d == q
  {
    var q' := a / d;
    var r' := a % d;
    assert a == q' * d + r';
    if q < q' {
      MulMonotone(q + 1, q', d);
    } else if q' < q {
      MulMonotone(q' + 1, q, d);
    }
  }

  lemma DivMonotone(a: int, b: int, d: int)
    requires a <= b && d > 0
    ensures a / d <= b / d
  {
    assert a == (a / d) * d + a % d && b == (b / d) * d + b % d;
    if a / d > b / d {
      MulMonotone(b / d + 1, a / d, d);
    }
  }

  /** Two successive floor divisions are one. */
  lemma DivDiv(a: int, d: int, e: int)
    requires d > 0 && e > 0
    ensures d * e > 0
    ensures (a / d) / e == a / (d * e)
  {
    assert d * e > 0;
    var q := a / d;
    var r := a % d;
    var q2 := q / e;
    var r2 := q % e;
    assert a == q * d + r && q == q2 * e + r2;
    assert a == (q2 * e + r2) * d + r == q2 * (d * e) + (r2 * d + r);
    MulMonotone(0, r2, d);
    MulMonotone(r2 + 1, e, d);
    assert 0 <= r2 * d + r < d * e;
    DivUnique(a, d * e, q2, r2 * d + r);
  }

  lemma MulDivCancel(a: int, d: int)
    requires d > 0
    ensures (a * d) / d == a
  {
    DivUnique(a * d, d, a, 0);
  }

  lemma Pow2Square(n: nat, v: int)
    requires Pow2(n) == v
    ensures Pow2(2 * n) == v * v
  {
    Pow2Add(n, n);
  }

  lemma Pow2Of256()
    ensures Pow2(256) == 0x1_0000_0000_0000_0000_0000_0000_0000_0000_0000_0000_0000_0000_0000_0000_0000_0000
  {
    var one: nat := 1;
    Pow2Square(one, 2);
    Pow2Square(2 * one, 4);
    Pow2Square(4 * one, 16);
    Pow2Square(8 * one, 256);
    Pow2Square(16 * one, 0x1_0000);
    Pow2Square(32 * one, 0x1_0000_0000);
    Pow2Square(64 * one, 0x1_0000_0000_0000_0000);
    Pow2Square(128 * one, 0x1_0000_0000_0000_0000_0000_0000_0000_0000);
  }

  /** `U256::bits`: the position of the highest set bit, counted from one. */
  function Bits(x: nat): nat {
    if x == 0 then 0 else 1 + Bits(x / 2)
  }

  lemma {:induction false} BitsBracket(x: nat)
    requires x > 0
    ensures Bits(x) >= 1
    ensures Pow2(Bits(x) - 1) <= x < Pow2(Bits(x))
  {
    if x > 1 {
      BitsBracket(x / 2);
      assert Pow2(Bits(x) - 1) == 2 * Pow2(Bits(x / 2) - 1);
    } else {
      assert Bits(1) == 1 + Bits(0);
    }
  }

  function ScaleDown(q: nat, n: nat): nat {
    DivMonotone(0, q, Pow2(n));
    q / Pow2(n)
  }

  function MulNat(a: nat, b: nat): nat {
    MulMonotone(0, a, b);
    a * b
  }
}
