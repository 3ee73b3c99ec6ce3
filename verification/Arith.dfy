/** Division facts used by the counters and cyclic indices of several modules. */
module Arith {

  /** Quotient and remainder are the only pair with a remainder in range. */
  lemma DivModUnique(x: int, n: nat, q: int, r: int)
    requires n > 0 && 0 <= r < n && x == q * n + r
    ensures x % n == r && x / n == q
  {
    var d := x / n - q;
    assert d * n == r - x % n;
    SmallMultiple(d, n);
  }

  lemma SmallMultiple(d: int, n: nat)
    requires -(n as int) < d * n < n
    ensures d == 0
  {
  }

  /** Adding one to x steps its residue cyclically. */
  lemma ModStep(x: nat, n: nat)
    requires n > 0
    ensures (x + 1) % n == if x % n + 1 == n then 0 else x % n + 1
  {
    var q := x / n;
    assert x == q * n + x % n;
    if x % n + 1 == n {
      assert x + 1 == (q + 1) * n + 0;
      DivModUnique(x + 1, n, q + 1, 0);
    } else {
      DivModUnique(x + 1, n, q, x % n + 1);
    }
  }

  /** Remainder by repeated subtraction, for reasoning about cycles of any length. */
  function Residue(x: nat, n: nat): (r: nat)
    requires n > 0
    ensures r < n
  {
    if x < n then x else Residue(x - n, n)
  }

  lemma {:induction false} ResidueIsRemainder(x: nat, n: nat)
    requires n > 0
    ensures Residue(x, n) == x % n
  {
    if x >= n {
      ResidueIsRemainder(x - n, n);
      assert x == (x - n) / n * n + n + (x - n) % n == ((x - n) / n + 1) * n + (x - n) % n;
      DivModUnique(x, n, (x - n) / n + 1, (x - n) % n);
    }
  }

  lemma {:induction false} ResidueStep(x: nat, n: nat)
    requires n > 0
    ensures Residue(x + 1, n) == if Residue(x, n) + 1 == n then 0 else Residue(x, n) + 1
  {
    if x >= n {
      ResidueStep(x - n, n);
    }
  }

  /** Going d < n steps on from x. */
  lemma {:induction false} ResidueAdd(x: nat, d: nat, n: nat)
    requires d < n
    ensures Residue(x + d, n) == if Residue(x, n) + d < n then Residue(x, n) + d else Residue(x, n) + d - n
  {
    if d > 0 {
      ResidueAdd(x, d - 1, n);
      ResidueStep(x + d - 1, n);
    }
  }
}
