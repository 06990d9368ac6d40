/** Powers of two and the division facts that aligned address blocks rest on. */
module Bits {

  function Pow2(n: nat): (r: nat)
    ensures r >= 1
  {
    if n == 0 then 1 else 2 * Pow2(n - 1)
  }

  lemma {:induction false} Pow2Add(m: nat, n: nat)
    ensures Pow2(m + n) == Pow2(m) * Pow2(n)
    decreases m
  {
    if m == 0 {
    } else {
      Pow2Add(m - 1, n);
      assert Pow2(m + n) == 2 * (Pow2(m - 1) * Pow2(n));
    }
  }

  lemma {:induction false} Pow2Doubles(m: nat, n: nat)
    requires m < n
    ensures Pow2(n) >= 2 * Pow2(m)
    decreases n
  {
    if m < n - 1 {
      Pow2Doubles(m, n - 1);
    }
  }

  lemma Pow2Constants()
    ensures Pow2(8) == 0x100 && Pow2(16) == 0x1_0000 && Pow2(24) == 0x100_0000
    ensures Pow2(32) == 0x1_0000_0000
  {
    assert Pow2(4) == 16;
    Pow2Add(4, 4);
    Pow2Add(8, 8);
    Pow2Add(8, 16);
    Pow2Add(16, 16);
  }

  /** `k * n` by repeated addition. */
  function Multiple(k: nat, n: nat): nat {
    if k == 0 then 0 else Multiple(k - 1, n) + n
  }

  lemma {:induction false} MultipleIs(k: nat, n: nat)
    ensures Multiple(k, n) == k * n
  {
    if k > 0 {
      MultipleIs(k - 1, n);
      assert k * n == (k - 1) * n + n;
    }
  }

  lemma MulMonotone(d: nat, m: nat, n: nat)
    requires m <= n
    ensures d * m <= d * n
  {
  }

  lemma SmallMultiple(d: int, x: int)
    requires d > 0 && -d < d * x < d
    ensures x == 0
  {
    if x > 0 {
      MulMonotone(d, 1, x);
    }
  }

  lemma QuotientUnique(a: int, d: nat, q: int, r: int)
    requires 0 <= r < d && a == d * q + r
    ensures a / d == q && a % d == r
  {
    assert d * (a / d - q) == d * (a / d) - d * q;
    SmallMultiple(d, a / d - q);
  }

  lemma DivDiv(a: nat, m: nat, n: nat)
    requires m > 0 && n > 0
    ensures m * n > 0 && a / (m * n) == (a / m) / n
  {
    var q, s, r := (a / m) / n, (a / m) % n, a % m;
    assert a == m * (n * q + s) + r;
    assert m * s + r < m * n by {
      assert m * (s + 1) <= m * n;
    }
    assert a == (m * n) * q + (m * s + r) by {
      assert m * (n * q + s) == m * (n * q) + m * s;
      assert m * (n * q) == (m * n) * q;
    }
    QuotientUnique(a, m * n, q, m * s + r);
  }

  lemma BlockFits(v: nat, s: nat, n: nat)
    requires s > 0 && v < s * n
    ensures v / s < n && s * (v / s) + s <= s * n
  {
    if v / s >= n {
      MulMonotone(s, n, v / s);
    }
    MulMonotone(s, v / s + 1, n);
  }

  lemma SameQuotientIsInterval(v: nat, s: nat, q: nat)
    requires s > 0
    ensures v / s == q <==> s * q <= v < s * q + s
  {
    if s * q <= v < s * q + s {
      QuotientUnique(v, s, q, v - s * q);
    }
  }

  function Align(v: nat, s: nat): (r: nat)
    requires s > 0
    ensures r <= v
  {
    MulMonotone(s, 0, v / s);
    s * (v / s)
  }
}
