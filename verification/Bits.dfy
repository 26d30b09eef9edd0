/** Bitwise AND on machine words, written bit by bit, and the powers of two it masks. */
module Bits {

  function Pow2(k: nat): (p: nat)
    ensures p > 0
  {
    if k == 0 then 1 else 2 * Pow2(k - 1)
  }

  function BitAnd(a: nat, b: nat): nat {
    if a == 0 || b == 0 then 0
    else 2 * BitAnd(a / 2, b / 2) + (if a % 2 == 1 && b % 2 == 1 then 1 else 0)
  }

  /** `is_power_of_two`: exactly one bit is set. */
  predicate IsPow2(n: nat) {
    n == 1 || (n > 1 && n % 2 == 0 && IsPow2(n / 2))
  }

  lemma {:induction false} Pow2IsPow2(k: nat)
    ensures IsPow2(Pow2(k))
  {
    if k > 0 { Pow2IsPow2(k - 1); }
  }

  lemma {:induction false} IsPow2Exponent(n: nat) returns (k: nat)
    requires IsPow2(n)
    ensures n == Pow2(k)
  {
    if n == 1 {
      k := 0;
    } else {
      var j := IsPow2Exponent(n / 2);
      k := j + 1;
    }
  }

  lemma AtLeastOnce(d: int, m: nat)
    requires d >= 1
    ensures d * m >= m
  {
    assert d * m == (d - 1) * m + m;
  }

  lemma ModUnique(x: nat, m: nat, q: nat, r: nat)
    requires r < m && x == q * m + r
    ensures x % m == r && x / m == q
  {
    var q', r' := x / m, x % m;
    assert q' * m + r' == q * m + r;
    assert (q' - q) * m == q' * m - q * m;
    if q' > q { AtLeastOnce(q' - q, m); }
    if q > q' {
      assert (q - q') * m == q * m - q' * m;
      AtLeastOnce(q - q', m);
    }
  }

  lemma ModAdd(a: nat, b: nat, m: nat)
    requires m > 0
    ensures (a % m + b) % m == (a + b) % m
  {
    var k, c := a / m, a % m + b;
    assert a == k * m + a % m;
    DivMod(c, m);
    Factor(k, c / m, m);
    ModUnique(a + b, m, k + c / m, c % m);
  }

  lemma DivMod(c: nat, m: nat)
    requires m > 0
    ensures c == (c / m) * m + c % m && c % m < m
  {}

  lemma Factor(x: nat, y: nat, m: nat)
    ensures x * m + y * m == (x + y) * m
  {}

  lemma HalvesMod(x: nat, m: nat)
    requires m > 0
    ensures x % (2 * m) == 2 * ((x / 2) % m) + x % 2
  {
    var q, r := (x / 2) / m, (x / 2) % m;
    assert x / 2 == q * m + r;
    Twice(q, m);
    ModUnique(x, 2 * m, q, 2 * r + x % 2);
  }

  lemma Twice(q: nat, m: nat)
    ensures q * (2 * m) == 2 * (q * m)
  {}

  lemma AndOddMask(x: nat, m: nat)
    requires m > 0
    ensures BitAnd(x, 2 * m - 1) == 2 * BitAnd(x / 2, m - 1) + x % 2
  {
    assert (2 * m - 1) / 2 == m - 1 && (2 * m - 1) % 2 == 1;
  }

  /** Masking with 2^k - 1 is the remainder by 2^k, for every number. */
  lemma {:induction false} MaskIsMod(x: nat, k: nat)
    ensures BitAnd(x, Pow2(k) - 1) == x % Pow2(k)
    decreases k
  {
    if k > 0 {
      MaskIsMod(x / 2, k - 1);
      OneBitMore(x, Pow2(k - 1));
    }
  }

  lemma OneBitMore(x: nat, m: nat)
    requires m > 0 && BitAnd(x / 2, m - 1) == (x / 2) % m
    ensures BitAnd(x, 2 * m - 1) == x % (2 * m)
  {
    hide BitAnd;
    HalvesMod(x, m);
    AndOddMask(x, m);
  }
}
