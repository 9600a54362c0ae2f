/** Division facts that the solver does not find by itself. */
module Arithmetic {

  function Product(a: int, b: int): int {
    a * b
  }

  function Times(a: nat, b: nat): nat {
    a * b
  }

  lemma TimesStep(a: nat, b: nat)
    ensures Times(a, 0) == 0 && Times(a, b + 1) == a + Times(a, b)
  {
  }

  lemma SmallMod(x: nat, m: nat)
    requires x < m
    ensures x % m == x
  {
  }

  function Quotient(a: nat, m: nat): nat
    requires m > 0
  {
    a / m
  }

  function Remainder(a: nat, m: nat): (r: nat)
    requires m > 0
    ensures r < m
  {
    a % m
  }

  lemma Ordered(a: int, b: int, m: nat)
    ensures a <= b ==> a * m <= b * m
  {
    if a <= b {
      assert (b - a) * m >= 0;
    }
  }

  lemma DivUnique(a: nat, m: nat, q: nat, r: nat)
    requires m > 0 && a == q * m + r && r < m
    ensures Quotient(a, m) == q && Remainder(a, m) == r
  {
    var q' := a / m;
    assert a == q' * m + a % m;
    Ordered(q' + 1, q, m);
    Ordered(q + 1, q', m);
    assert (q' + 1) * m == q' * m + m && (q + 1) * m == q * m + m;
  }

  /** Dividing by `c` times `m` is dividing by `c` first. */
  lemma DivStep(a: nat, c: nat, m: nat)
    requires c > 0 && m > 0
    ensures c * m > 0
    ensures Quotient(a, c * m) == Quotient(a / c, m)
    ensures Remainder(a, c * m) == c * Remainder(a / c, m) + a % c
  {
    var q, r := Quotient(a / c, m), Remainder(a / c, m);
    Regroup(q, m, r, c);
    Below(r, m, c, a % c);
    DivUnique(a, c * m, q, c * r + a % c);
  }

  lemma Below(r: nat, m: nat, c: nat, d: nat)
    requires r < m && d < c
    ensures c * r + d < c * m
  {
    Ordered(r + 1, m, c);
    assert (r + 1) * c == c * r + c && m * c == c * m;
  }

  lemma Regroup(q: nat, m: nat, r: nat, c: nat)
    ensures c * (q * m + r) == q * (c * m) + c * r
  {
  }

  /** The low digit of a remainder, and what stands above it. */
  lemma LowDigit(a: nat, c: nat, m: nat)
    requires c in {10, 16} && m > 0
    ensures c * m > 0
    ensures Quotient(a, c * m) == Quotient(a / c, m)
    ensures Remainder(a, c * m) / c == Remainder(a / c, m)
    ensures Remainder(a, c * m) % c == a % c
  {
    DivStep(a, c, m);
    hide Quotient, Remainder;
    var r, d := Remainder(a / c, m), a % c;
    if c == 10 {
      assert (10 * r + d) / 10 == r && (10 * r + d) % 10 == d;
    } else {
      assert (16 * r + d) / 16 == r && (16 * r + d) % 16 == d;
    }
  }
}
