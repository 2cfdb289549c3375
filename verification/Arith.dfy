/** Division by a variable, in the few forms that cluster and page arithmetic needs. */
module Arith {

  function Max(a: int, b: int): int { if a < b then b else a }

  function Min(a: int, b: int): int { if a < b then a else b }

  function MaxReal(a: real, b: real): real { if a < b then b else a }

  function MinReal(a: real, b: real): real { if a < b then a else b }

  lemma MulStep(d: nat, a: int, b: int)
    requires a >= b + 1
    ensures d * a >= d * b + d
  {
    assert d * a == d * b + d * (a - b);
    assert d * (a - b) == d + d * (a - b - 1);
  }

  lemma DivModUnique(a: nat, b: nat, d: nat)
    requires d > 0
    requires a / d == b / d && a % d == b % d
    ensures a == b
  {
    assert a == d * (a / d) + a % d;
    assert b == d * (b / d) + b % d;
  }

  /** An aligned block holds one aligned address. */
  lemma AlignedStart(x: nat, start: nat, d: nat)
    requires d > 0 && x % d == 0 && start % d == 0
    requires start <= x < start + d
    ensures x == start
  {
    var a, b := x / d, start / d;
    assert x == d * a && start == d * b;
    if a > b {
      MulStep(d, a, b);
    } else if b > a {
      MulStep(d, b, a);
    }
  }

  lemma Quotient(c: nat, n: nat, q: nat, s: nat)
    requires n > 0 && s < n && c == n * q + s
    ensures c / n == q && c % n == s
  {
    var a, r := c / n, c % n;
    assert c == n * a + r;
    if a > q {
      MulStep(n, a, q);
    } else if q > a {
      MulStep(n, q, a);
    }
  }

  predicate AlignedTo(x: nat, d: nat) { d > 0 && x % d == 0 }

  lemma ZeroAligned(d: nat)
    requires d > 0
    ensures AlignedTo(0, d)
  {
  }

  lemma AlignedMeaning(x: nat, d: nat)
    requires d > 0
    ensures AlignedTo(x, d) <==> x % d == 0
  {
  }

  function AlignUp(v: nat, d: nat): (r: nat)
    requires d > 0
    ensures v <= r < v + d && r % d == 0
  {
    if v % d == 0 then v
    else
      AlignUpMultiple(v, d);
      v + d - v % d
  }

  lemma AlignUpMultiple(v: nat, d: nat)
    requires d > 0
    ensures (v + d - v % d) % d == 0
  {
    var q := v / d;
    assert v + d - v % d == d * (q + 1);
    MulMod(d, q + 1);
  }

  lemma MulMod(d: nat, q: nat)
    requires d > 0
    ensures (d * q) % d == 0 && (d * q) / d == q
  {
    var a, r := (d * q) / d, (d * q) % d;
    assert d * q == d * a + r;
    if a > q {
      MulStep(d, a, q);
    } else if q > a {
      MulStep(d, q, a);
    }
  }

  /** The next aligned address is in the next block. */
  lemma NextBlock(x: nat, d: nat)
    requires d > 0 && x % d == 0
    ensures (x + d) % d == 0 && (x + d) / d == x / d + 1
  {
    var q := x / d;
    assert x + d == d * (q + 1);
    MulMod(d, q + 1);
  }
}
