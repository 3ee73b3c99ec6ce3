/** Shifts and bitwise operators of unsigned integers, by bits, and the arithmetic they amount to. */
module Bits {
  import opened Arith

  function Pow2(n: nat): (r: nat)
    ensures r > 0
  {
    if n == 0 then 1 else 2 * Pow2(n - 1)
  }

  lemma {:induction false} Pow2Product(m: nat, n: nat)
    ensures Pow2(m) * Pow2(n) == Pow2(m + n)
  {
    if m > 0 {
      Pow2Product(m - 1, n);
      TwiceProduct(Pow2(m - 1), Pow2(n));
    }
  }

  lemma TwiceProduct(x: nat, y: nat)
    ensures 2 * x * y == 2 * (x * y)
  {
  }

  function Or(a: nat, b: nat): nat
    decreases a + b
  {
    if a == 0 && b == 0 then 0 else 2 * Or(a / 2, b / 2) + (if a % 2 == 1 || b % 2 == 1 then 1 else 0)
  }

  function And(a: nat, b: nat): nat {
    if a == 0 || b == 0 then 0 else 2 * And(a / 2, b / 2) + (if a % 2 == 1 && b % 2 == 1 then 1 else 0)
  }

  function Shr(v: nat, k: nat): nat {
    if k == 0 then v else Shr(v / 2, k - 1)
  }

  const U64: nat := 0x1_0000_0000_0000_0000

  /** Left shift of a 64-bit integer: what leaves it at the top is lost. */
  function Shl(v: nat, k: nat): nat {
    if k == 0 then v % U64 else (2 * Shl(v, k - 1)) % U64
  }

  lemma HalfThenRest(v: nat, p: nat)
    requires p > 0
    ensures v / (2 * p) == v / 2 / p && v % (2 * p) == 2 * (v / 2 % p) + v % 2
  {
    var h := v / 2;
    var q, r := h / p, h % p;
    assert h == q * p + r;
    assert v == q * (2 * p) + (2 * r + v % 2);
    DivModUnique(v, 2 * p, q, 2 * r + v % 2);
  }

  lemma {:induction false} ShrIsDivision(v: nat, k: nat)
    ensures Shr(v, k) == v / Pow2(k)
  {
    if k > 0 {
      ShrIsDivision(v / 2, k - 1);
      HalfThenRest(v, Pow2(k - 1));
    }
  }

  /** The low k bits. */
  lemma {:induction false} MaskIsRemainder(v: nat, k: nat)
    ensures And(v, Pow2(k) - 1) == v % Pow2(k)
  {
    if k > 0 {
      MaskIsRemainder(v / 2, k - 1);
      HalfThenRest(v, Pow2(k - 1));
      assert (2 * Pow2(k - 1) - 1) / 2 == Pow2(k - 1) - 1;
    }
  }

  lemma {:induction false} OrZero(v: nat)
    ensures Or(v, 0) == v
  {
    if v > 0 {
      OrZero(v / 2);
    }
  }

  /** Putting a number of at most k bits into the k low bits that are free. */
  lemma {:induction false} OrIsSum(s: nat, k: nat, i: nat)
    requires i < Pow2(k)
    ensures Or(s * Pow2(k), i) == s * Pow2(k) + i
  {
    if k == 0 {
      OrZero(s);
    } else {
      var p := Pow2(k - 1);
      assert s * Pow2(k) == 2 * (s * p);
      OrIsSum(s, k - 1, i / 2);
    }
  }

  lemma {:induction false} ShlIsProduct(v: nat, k: nat)
    requires v * Pow2(k) < U64
    ensures Shl(v, k) == v * Pow2(k)
  {
    if k > 0 {
      assert v * Pow2(k) == 2 * (v * Pow2(k - 1));
      ShlIsProduct(v, k - 1);
    }
  }
}
