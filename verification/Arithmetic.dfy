/**
 Multiplication and division by recursion, which keeps the proofs that use them
 linear, and their agreement with the built-in operators.
 */
module Arithmetic {
  /** `a * c`, by repeated addition. */
  function Times(a: nat, c: nat): nat {
    if a == 0 then 0 else c + Times(a - 1, c)
  }

  lemma {:induction false} TimesIsProduct(a: nat, c: nat)
    ensures Times(a, c) == a * c
  {
    if a > 0 {
      TimesIsProduct(a - 1, c);
      assert a * c == (a - 1) * c + c;
    }
  }

  /** The quotient and remainder of a division, by repeated subtraction. */
  function Quot(m: nat, b: nat): nat
    requires b > 0
  {
    if m < b then 0 else 1 + Quot(m - b, b)
  }

  function Rem(m: nat, b: nat): (r: nat)
    requires b > 0
    ensures r < b
  {
    if m < b then m else Rem(m - b, b)
  }

  lemma {:induction false} QuotRem(m: nat, b: nat)
    requires b > 0
    ensures Times(Quot(m, b), b) + Rem(m, b) == m
  {
    if m >= b { QuotRem(m - b, b); }
  }

  lemma {:induction false} QuotRemOf(q: nat, r: nat, b: nat)
    requires r < b
    ensures Quot(Times(q, b) + r, b) == q && Rem(Times(q, b) + r, b) == r
  {
    if q > 0 { QuotRemOf(q - 1, r, b); }
  }

  /** Multiplication and division as the machine does them. */
  method Multiply(a: nat, c: nat) returns (p: nat)
    ensures p == Times(a, c)
  {
    p := a * c;
    TimesIsProduct(a, c);
  }

  method Divide(m: nat, b: nat) returns (q: nat, r: nat)
    requires b > 0
    ensures q == Quot(m, b) && r == Rem(m, b)
  {
    q, r := m / b, m % b;
    assert q * b + r == m;
    TimesIsProduct(q, b);
    QuotRemOf(q, r, b);
  }

  lemma {:induction false} TimesMono(a: nat, b: nat, c: nat)
    requires a <= b
    ensures Times(a, c) <= Times(b, c)
  {
    if a < b { TimesMono(a, b - 1, c); }
  }

  lemma TimesOne(a: nat)
    ensures Times(a, 1) == a
  {
    TimesIsProduct(a, 1);
  }

  /** Quotient and remainder are the two digits of a number below `n * b`. */
  lemma Digits(m: nat, n: nat, b: nat)
    requires b > 0 && m < Times(n, b)
    ensures Quot(m, b) < n && Times(Quot(m, b), b) + Rem(m, b) == m
  {
    QuotRem(m, b);
    if n <= Quot(m, b) { TimesMono(n, Quot(m, b), b); }
  }

  lemma DigitsOf(a: nat, b: nat, r: nat, n: nat)
    requires r < b && a < n
    ensures Quot(Times(a, b) + r, b) == a && Rem(Times(a, b) + r, b) == r && Times(a, b) + r < Times(n, b)
  {
    TimesMono(a + 1, n, b);
    QuotRemOf(a, r, b);
  }

  /** divup of ext/util.h. */
  function DivUp(x: nat, b: nat): nat
    requires b > 0
  {
    Quot(x, b) + if Rem(x, b) != 0 then 1 else 0
  }

  lemma {:induction false} DivUpStep(x: nat, b: nat)
    requires b > 0
    ensures DivUp(x + 1, b) == DivUp(x, b) + if Rem(x, b) == 0 then 1 else 0
  {
    if x >= b {
      DivUpStep(x - b, b);
      assert x + 1 - b == x - b + 1;
    } else {
      assert Quot(0, b) == 0 && Rem(0, b) == 0;
    }
  }

  lemma {:induction false} DivUpMono(x: nat, y: nat, b: nat)
    requires b > 0 && x <= y
    ensures DivUp(x, b) <= DivUp(y, b) && (0 < y ==> 0 < DivUp(y, b))
  {
    if y > 0 {
      DivUpStep(y - 1, b);
      if x < y { DivUpMono(x, y - 1, b); }
      QuotRem(y, b);
    }
  }

  method DivideUp(x: nat, b: nat) returns (q: nat)
    requires b > 0
    ensures q == DivUp(x, b)
  {
    var r;
    q, r := Divide(x, b);
    if r != 0 { q := q + 1; }
  }

  lemma {:induction false} RemAdd(x: nat, k: nat, b: nat)
    requires b > 0
    ensures Rem(Times(k, b) + x, b) == Rem(x, b)
  {
    if k > 0 { RemAdd(x, k - 1, b); }
  }

  lemma {:induction false} RemAddSquare(x: nat, k: nat, b: nat)
    requires b > 0
    ensures Rem(Times(k, Times(b, b)) + x, b) == Rem(x, b)
  {
    if k > 0 {
      RemAddSquare(x, k - 1, b);
      RemAdd(Times(k - 1, Times(b, b)) + x, b, b);
    }
  }

  lemma {:induction false} TimesAdd(a: nat, b: nat, c: nat)
    ensures Times(a + b, c) == Times(a, c) + Times(b, c)
  {
    if a > 0 { TimesAdd(a - 1, b, c); }
  }

  lemma {:induction false} RemDouble(c: nat, n: nat)
    requires n > 0
    ensures Rem(2 * c, 2 * n) == 2 * Rem(c, n)
  {
    if c >= n {
      RemDouble(c - n, n);
      assert 2 * (c - n) == 2 * c - 2 * n;
    }
  }

  lemma {:induction false} RemQuad(c: nat, n: nat)
    requires n > 0
    ensures Rem(4 * c, 4 * n) == 4 * Rem(c, n)
  {
    if c >= n {
      RemQuad(c - n, n);
      assert 4 * (c - n) == 4 * c - 4 * n;
    }
  }

  /** Multiples of 2 and 4 leave such remainders when divided by a multiple of 4. */
  lemma RemAligned(c: nat, b: nat)
    requires b > 0 && b % 4 == 0
    ensures Rem(2 * c, b) == 2 * Rem(c, b / 2) && Rem(4 * c, b) == 4 * Rem(c, b / 4)
  {
    var q := b / 4;
    RemDouble(c, 2 * q);
    RemQuad(c, q);
  }

  lemma {:induction false} QuotOne(m: nat)
    ensures Quot(m, 1) == m
  {
    if m > 0 { QuotOne(m - 1); }
  }
}
