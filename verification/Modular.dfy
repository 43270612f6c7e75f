/** Remainders by a capacity that is not a constant. */
module Modular {

  function Pow2(k: nat): (p: nat)
    ensures p >= 1
  {
    if k == 0 then 1 else 2 * Pow2(k - 1)
  }

  lemma Pow2Adds(a: nat, b: nat)
    ensures Pow2(a + b) == Pow2(a) * Pow2(b)
  {
    if a > 0 { Pow2Adds(a - 1, b); }
  }

  lemma Pow2Monotone(a: nat, b: nat)
    requires a <= b
    ensures Pow2(a) <= Pow2(b)
    decreases b
  {
    if a < b { Pow2Monotone(a, b - 1); }
  }

  lemma SmallMultiple(m: int, d: int)
    requires 0 < m && -m < m * d < m
    ensures d == 0
  {
    if d != 0 { BigMultiple(m, d); }
  }

  lemma BigMultiple(m: int, d: int)
    requires 0 < m && d != 0
    ensures m * d >= m || m * d <= -m
  {
  }

  /** Quotient and remainder are unique. */
  lemma ModUnique(x: int, m: int, q: int, r: int)
    requires 0 < m && x == m * q + r && 0 <= r < m
    ensures x % m == r && x / m == q
  {
    var d := x / m - q;
    assert x == m * (x / m) + x % m;
    assert m * d == m * (x / m) - m * q;
    SmallMultiple(m, d);
  }

  lemma ModShift(x: int, m: int, k: int)
    requires 0 < m
    ensures (x + m * k) % m == x % m
  {
    var q := x / m;
    assert x == m * q + x % m;
    assert m * (q + k) == m * q + m * k;
    ModUnique(x + m * k, m, q + k, x % m);
  }

  /** Reducing modulo a multiple of `m` first changes nothing. */
  lemma ModOfMod(x: int, m: int, n: int)
    requires 0 < m && 0 < n
    ensures m * n > 0 && (x % (m * n)) % m == x % m
  {
    assert m * n > 0;
    var w := m * n;
    var q := x / w;
    assert x == w * q + x % w;
    assert w * q == m * (n * q);
    ModShift(x % w, m, n * q);
  }

  /** Two positions less than `m` apart are different slots. */
  lemma DistinctSlots(a: int, b: int, m: int)
    requires 0 < m && a < b < a + m
    ensures a % m != b % m
  {
    if a % m == b % m {
      assert b - a == m * (b / m - a / m) by {
        assert a == m * (a / m) + a % m && b == m * (b / m) + b % m;
        assert m * (b / m - a / m) == m * (b / m) - m * (a / m);
      }
      SmallMultiple(m, b / m - a / m);
    }
  }

  /** The difference of two wrapped counters is their true difference while that fits in a word. */
  lemma WrappedDifference(a: int, b: int, w: int)
    requires 0 < w && b <= a
    ensures (a % w - b % w) % w == a - b <==> a - b < w
  {
    assert a == w * (a / w) + a % w && b == w * (b / w) + b % w;
    var k := a / w - b / w;
    assert w * k == w * (a / w) - w * (b / w);
    assert a - b == (a % w - b % w) + w * k;
    ModShift(a % w - b % w, w, k);
    if a - b < w { ModUnique(a - b, w, 0, a - b); }
  }

  /** Two wrapped counters less than a word apart are equal exactly when the true counters are. */
  lemma WrappedEqual(a: int, b: int, w: int)
    requires 0 < w && b <= a < b + w
    ensures a % w == b % w <==> a == b
  {
    if a != b { DistinctSlots(b, a, w); }
  }

  // ---------------------------------------------------------------- masks

  /** Bitwise and of two naturals, bit by bit. */
  function And(a: nat, b: nat): nat
    decreases a
  {
    if a == 0 || b == 0 then 0
    else (if a % 2 == 1 && b % 2 == 1 then 1 else 0) + 2 * And(a / 2, b / 2)
  }

  lemma HalfRemainder(a: nat, m: nat)
    requires 0 < m
    ensures a % (2 * m) == 2 * ((a / 2) % m) + a % 2
  {
    var q, r := (a / 2) / m, (a / 2) % m;
    assert a / 2 == m * q + r;
    assert (2 * m) * q == 2 * (m * q);
    ModUnique(a, 2 * m, q, 2 * r + a % 2);
  }

  /** Masking with a power of two less one takes the remainder. */
  lemma {:induction false} MaskIsRemainder(a: nat, k: nat)
    ensures And(a, Pow2(k) - 1) == a % Pow2(k)
    decreases k
  {
    if k > 0 {
      var m := Pow2(k - 1);
      assert Pow2(k) == 2 * m;
      MaskIsRemainder(a / 2, k - 1);
      HalfRemainder(a, m);
      MaskStep(a, m);
    }
  }

  lemma MaskStep(a: nat, m: nat)
    requires 0 < m
    ensures And(a, 2 * m - 1) == a % 2 + 2 * And(a / 2, m - 1)
  {
    assert (2 * m - 1) / 2 == m - 1 && (2 * m - 1) % 2 == 1;
    assert And(0, m - 1) == 0;
  }
}
