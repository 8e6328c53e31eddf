/** Arithmetic of fixed-width words: remainders, powers of two, wrapping. */
module WordArith {

  function Pow2(n: nat): (r: nat)
    ensures r > 0
  {
    if n == 0 then 1 else 2 * Pow2(n - 1)
  }

  /** The signed w-bit word congruent to x. */
  function Wrap(w: nat, x: int): (r: int)
    requires w > 0
    ensures 0 <= r + Pow2(w - 1) < 2 * Pow2(w - 1)
  {
    (x + Pow2(w - 1)) % (2 * Pow2(w - 1)) - Pow2(w - 1)
  }

  lemma MulAtLeast(k: int, m: int)
    requires k >= 1 && m > 0
    ensures k * m >= m
  {
    assert k * m == (k - 1) * m + m;
  }

  lemma MulDistributes(j: int, k: int, m: int)
    ensures (j + k) * m == j * m + k * m
    ensures (j - k) * m == j * m - k * m
  {}

  /** Quotient and remainder are determined by the number. */
  lemma QuotientUnique(m: int, q: int, r: int, q': int, r': int)
    requires m > 0 && q * m + r == q' * m + r' && 0 <= r < m && 0 <= r' < m
    ensures q == q' && r == r'
  {
    if q > q' {
      MulAtLeast(q - q', m);
      MulDistributes(q, q', m);
    } else if q < q' {
      MulAtLeast(q' - q, m);
      MulDistributes(q', q, m);
    }
  }

  lemma DivMod(x: int, m: int)
    requires m > 0
    ensures x == x / m * m + x % m
  {}

  lemma DivModUnique(x: int, m: int, q: int, r: int)
    requires m > 0 && x == q * m + r && 0 <= r < m
    ensures x / m == q && x % m == r
  {
    DivMod(x, m);
    QuotientUnique(m, x / m, x % m, q, r);
  }

  lemma WrapForm(w: nat, x: int) returns (k: int)
    requires w > 0
    ensures x == Wrap(w, x) + k * Pow2(w)
  {
    var h := Pow2(w - 1);
    k := (x + h) / (2 * h);
    DivMod(x + h, 2 * h);
  }

  lemma WrapUnique(w: nat, x: int, y: int, k: int)
    requires w > 0 && x == y + k * Pow2(w) && 0 <= y + Pow2(w - 1) < Pow2(w)
    ensures Wrap(w, x) == y
  {
    var h := Pow2(w - 1);
    DivModUnique(x + h, 2 * h, k, y + h);
  }

  lemma WrapAdd(w: nat, x: int, y: int)
    requires w > 0
    ensures Wrap(w, Wrap(w, x) + y) == Wrap(w, x + y)
  {
    var k := WrapForm(w, x);
    var j := WrapForm(w, Wrap(w, x) + y);
    MulDistributes(k, j, Pow2(w));
    WrapUnique(w, x + y, Wrap(w, Wrap(w, x) + y), k + j);
  }

  lemma WrapInjective(w: nat, x: int, j: int, k: int)
    requires w > 0 && j <= k < j + Pow2(w) && Wrap(w, x + j) == Wrap(w, x + k)
    ensures j == k
  {
    var p := WrapForm(w, x + j);
    var q := WrapForm(w, x + k);
    MulDistributes(q, p, Pow2(w));
    if q > p {
      MulAtLeast(q - p, Pow2(w));
    } else if q < p {
      MulAtLeast(p - q, Pow2(w));
      MulDistributes(p, q, Pow2(w));
    }
  }

  lemma {:induction false} Pow2Split(w: nat, b: nat)
    requires b <= w
    ensures Pow2(w) == Pow2(b) * Pow2(w - b)
  {
    if b > 0 {
      Pow2Split(w - 1, b - 1);
      MulAssoc(2, Pow2(b - 1), Pow2(w - b));
    }
  }

  lemma MulAssoc(x: int, y: int, z: int)
    ensures x * (y * z) == x * y * z
  {}

  lemma {:induction false} Pow2Monotone(b: nat, w: nat)
    requires b <= w
    ensures Pow2(b) <= Pow2(w)
  {
    if b < w {
      Pow2Monotone(b, w - 1);
    }
  }

  predicate BitIsSet(x: int, bit: nat) {
    x / Pow2(bit) % 2 == 1
  }

  function SetBit(w: nat, x: int, bit: nat): int
    requires w > 0
  {
    if BitIsSet(x, bit) then x else Wrap(w, x + Pow2(bit))
  }

  lemma AddMultiple(x: int, p: int, k: int)
    requires p > 0
    ensures (x + k * p) / p == x / p + k
  {
    DivMod(x, p);
    MulDistributes(x / p, k, p);
    DivModUnique(x + k * p, p, x / p + k, x % p);
  }

  lemma Regroup(k: int, p: int, e: int)
    ensures k * (p * (2 * e)) == 2 * (k * e) * p
  {}

  /** Taking an even multiple of p away leaves the parity of the quotient by p. */
  lemma SameParity(y: int, z: int, p: int, e: int, k: int)
    requires p > 0 && y == z + k * (p * (2 * e))
    ensures z / p % 2 == y / p % 2
  {
    Regroup(k, p, e);
    AddMultiple(z, p, 2 * (k * e));
    EvenShift(z / p, k * e);
  }

  lemma EvenShift(x: int, k: int)
    ensures (x + 2 * k) % 2 == x % 2
  {}

  lemma FlipsParity(x: int, p: int)
    requires p > 0 && x / p % 2 != 1
    ensures (x + p) / p % 2 == 1
  {
    AddMultiple(x, p, 1);
  }

  lemma WrapKeepsParity(w: nat, y: int, b: nat)
    requires b < w
    ensures Wrap(w, y) / Pow2(b) % 2 == y / Pow2(b) % 2
  {
    var k := WrapForm(w, y);
    Pow2Split(w, b);
    SameParity(y, Wrap(w, y), Pow2(b), Pow2(w - b - 1), k);
  }

  lemma SetBitSets(w: nat, x: int, b: nat)
    requires b < w && !BitIsSet(x, b)
    ensures BitIsSet(SetBit(w, x, b), b)
  {
    FlipsParity(x, Pow2(b));
    WrapKeepsParity(w, x + Pow2(b), b);
  }

  /** Dividing twice is dividing by the product. */
  lemma DivDiv(x: int, q: int, n: int)
    requires q > 0 && n > 0
    ensures q * n > 0 && x / (q * n) == x / q / n
  {
    var r, s := x / q, x % q;
    var u, v := r / n, r % n;
    DivMod(x, q);
    DivMod(r, n);
    Nested(x, q, n, u, v, s);
    RemainderFits(q, n, v, s);
    DivModUnique(x, q * n, u, v * q + s);
  }

  lemma Nested(x: int, q: int, n: int, u: int, v: int, s: int)
    requires x == (u * n + v) * q + s
    ensures x == u * (q * n) + (v * q + s)
  {
    MulDistributes(u * n, v, q);
  }

  lemma RemainderFits(q: int, n: int, v: int, s: int)
    requires q > 0 && 0 <= v < n && 0 <= s < q
    ensures q * n > 0 && 0 <= v * q + s < q * n
  {
    MulAtLeast(n - v, q);
    MulDistributes(n, v, q);
    if v > 0 { MulAtLeast(v, q); }
  }

  /** Adding one to an even number does not change its quotient by an even one. */
  lemma OddQuotient(t: int, m: int)
    requires m > 0
    ensures (2 * t + 1) / (2 * m) == 2 * t / (2 * m)
  {
    DivMod(t, m);
    DivModUnique(2 * t, 2 * m, t / m, 2 * (t % m));
    DivModUnique(2 * t + 1, 2 * m, t / m, 2 * (t % m) + 1);
  }

  lemma AddBelow(x: int, b: nat, c: nat)
    requires c < b && !BitIsSet(x, c)
    ensures (x + Pow2(c)) / Pow2(b) == x / Pow2(b)
  {
    var q, m := Pow2(c), Pow2(b - c - 1);
    Pow2Split(b, c);
    AddMultiple(x, q, 1);
    DivDiv(x, q, 2 * m);
    DivDiv(x + q, q, 2 * m);
    OddQuotient(x / q / 2, m);
  }

  lemma AddAbove(x: int, b: nat, c: nat)
    requires b < c
    ensures (x + Pow2(c)) / Pow2(b) % 2 == x / Pow2(b) % 2
  {
    Pow2Split(c, b);
    SameParity(x + Pow2(c), x, Pow2(b), Pow2(c - b - 1), 1);
  }

  lemma SetBitKeepsOthers(w: nat, x: int, c: nat, b: nat)
    requires b < w && c < w && b != c && !BitIsSet(x, c)
    ensures BitIsSet(SetBit(w, x, c), b) == BitIsSet(x, b)
  {
    WrapKeepsParity(w, x + Pow2(c), b);
    if c < b { AddBelow(x, b, c); } else { AddAbove(x, b, c); }
  }

  lemma MaskIsNonZero(w: nat, b: nat)
    requires b < w
    ensures Wrap(w, Pow2(b)) != 0
  {
    Pow2Monotone(b, w - 1);
    if Wrap(w, Pow2(b)) == 0 {
      var k := WrapForm(w, Pow2(b));
      if k >= 1 {
        MulAtLeast(k, Pow2(w));
      }
    }
  }
}
