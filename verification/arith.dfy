/** Integer facts used by the stride and halving arithmetic of the optical-flow
    buffers: uniqueness of Euclidean division, powers of two, and right shift
    of non-negative integers as repeated halving. */
module Arith {

  function Pow2(l: nat): (r: nat)
    ensures r >= 1
  {
    if l == 0 then 1 else 2 * Pow2(l - 1)
  }

  /** `x >> l` on a non-negative C `int`. */
  function Shr(x: nat, l: nat): nat
  {
    x / Pow2(l)
  }

  /** The quotient and remainder of a division are the unique pair with
      `x == q * d + r` and `0 <= r < d`. */
  lemma DivModUnique(x: int, d: int, q: int, r: int)
    requires d > 0 && 0 <= r < d && x == q * d + r
    ensures x / d == q && x % d == r
  {
    var q0, r0 := x / d, x % d;
    var m := q - q0;
    assert m * d == r0 - r by {
      assert q * d - q0 * d == (q - q0) * d;
    }
    if m >= 1 {
      assert false;
    } else if m <= -1 {
      assert false;
    }
  }

  /** Halving `l` times and then once more is halving `l + 1` times. */
  lemma {:induction false} HalveShr(x: nat, l: nat)
    ensures Shr(x, l) / 2 == Shr(x, l + 1)
  {
    var a := Pow2(l);
    var q := x / a;
    var r := x % a;
    var q2 := q / 2;
    var r2 := q % 2;
    assert x == q * a + r;
    assert q == q2 * 2 + r2;
    assert x == q2 * (2 * a) + (r2 * a + r) by {
      calc {
        x;
        q * a + r;
        (q2 * 2 + r2) * a + r;
        q2 * (2 * a) + (r2 * a + r);
      }
    }
    assert 0 <= r2 * a + r < 2 * a by {
      assert r2 * a <= a by { assert r2 <= 1; }
    }
    DivModUnique(x, 2 * a, q2, r2 * a + r);
  }

  /** Product of naturals as repeated addition. The buffer offsets are
      products of two variables (row times stride); stating them through `Mul`
      keeps every proof about them in linear arithmetic. */
  function Mul(a: nat, b: nat): nat
  {
    if a == 0 then 0 else Mul(a - 1, b) + b
  }

  lemma {:induction false} MulIsProduct(a: nat, b: nat)
    ensures Mul(a, b) == a * b
  {
    if a > 0 {
      MulIsProduct(a - 1, b);
      assert (a - 1) * b + b == a * b;
    }
  }

  lemma {:induction false} MulAdd(a: nat, b: nat, c: nat)
    ensures Mul(a + b, c) == Mul(a, c) + Mul(b, c)
  {
    if b > 0 {
      MulAdd(a, b - 1, c);
    }
  }

  lemma {:induction false} MulZeroRight(a: nat)
    ensures Mul(a, 0) == 0
  {
    if a > 0 {
      MulZeroRight(a - 1);
    }
  }

  /** `Mul` is monotone in its first factor. */
  lemma {:induction false} MulMono(a: nat, b: nat, c: nat)
    requires a <= b
    ensures Mul(a, c) <= Mul(b, c)
  {
    if a < b {
      MulMono(a, b - 1, c);
    }
  }

  /** Quotient and remainder of floor division by repeated subtraction. */
  function Quot(k: nat, d: nat): nat
    requires d > 0
  {
    if k < d then 0 else 1 + Quot(k - d, d)
  }

  function Rem(k: nat, d: nat): (r: nat)
    requires d > 0
    ensures r < d
  {
    if k < d then k else Rem(k - d, d)
  }

  lemma {:induction false} QuotRemSplit(k: nat, d: nat)
    requires d > 0
    ensures k == Mul(Quot(k, d), d) + Rem(k, d)
  {
    if k >= d {
      QuotRemSplit(k - d, d);
    }
  }

  /** The quotient and remainder are the unique pair with `k == q*d + r`
      and `r < d`. */
  lemma {:induction false} QuotRemUnique(k: nat, d: nat, q: nat, r: nat)
    requires d > 0 && r < d && k == Mul(q, d) + r
    ensures Quot(k, d) == q && Rem(k, d) == r
  {
    if q > 0 {
      QuotRemUnique(k - d, d, q - 1, r);
    }
  }
}
