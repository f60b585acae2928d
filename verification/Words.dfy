/** Machine words: what is left of a number in 32 or 64 bits, read as signed. */
module Words {
  const TWO31: int := 0x8000_0000
  const TWO32: int := 0x1_0000_0000
  const TWO63: int := 0x8000_0000_0000_0000
  const TWO64: int := 0x1_0000_0000_0000_0000

  function Wrap32(v: int): (r: int)
    ensures -TWO31 <= r < TWO31 && (r - v) % TWO32 == 0
    ensures -TWO31 <= v < TWO31 ==> r == v
  {
    var u := v % TWO32;
    if u < TWO31 then u else u - TWO32
  }

  function Wrap64(v: int): (r: int)
    ensures -TWO63 <= r < TWO63 && (r - v) % TWO64 == 0
    ensures -TWO63 <= v < TWO63 ==> r == v
  {
    var u := v % TWO64;
    if u < TWO63 then u else u - TWO64
  }

  function Pow2(k: nat): (p: nat)
    ensures p > 0
  {
    if k == 0 then 1 else 2 * Pow2(k - 1)
  }

  lemma SmallPowers()
    ensures Pow2(0) == 1 && Pow2(1) == 2 && Pow2(2) == 4 && Pow2(3) == 8 && Pow2(4) == 16 && Pow2(5) == 32
    ensures Pow2(6) == 64 && Pow2(7) == 128 && Pow2(8) == 256
  {}

  lemma {:induction false} PowerSum(j: nat, k: nat)
    ensures Pow2(j + k) == Prod(Pow2(j), Pow2(k))
  {
    if j > 0 {
      PowerSum(j - 1, k);
      assert Pow2(j + k) == 2 * Pow2(j - 1 + k);
      TwiceProd(Pow2(j - 1), Pow2(k));
    } else {
      assert Pow2(0) == 1;
    }
  }

  lemma TwiceProd(a: int, b: int)
    ensures Prod(2 * a, b) == 2 * Prod(a, b)
  {}

  function Prod(a: int, b: int): int { a * b }

  lemma ProdSum(d: int, j: int, k: int)
    ensures Prod(d, j + k) == Prod(d, j) + Prod(d, k)
  {}

  lemma ProdAtLeast(d: nat, j: int)
    requires j >= 1
    ensures Prod(d, j) >= d
  {
    assert Prod(d, j) == d + d * (j - 1);
  }

  lemma ProdAssociates(a: int, b: int, c: int)
    ensures Prod(Prod(a, b), c) == Prod(a, Prod(b, c))
  {}

  lemma DivIs(n: nat, d: nat)
    requires d > 0
    ensures n == Prod(d, n / d) + n % d && 0 <= n % d < d && n / d >= 0
  {}

  lemma Quotient(n: nat, d: nat, q: int, r: int)
    requires d > 0 && n == Prod(d, q) + r && 0 <= r < d
    ensures n / d == q && n % d == r
  {
    DivIs(n, d);
    var k := n / d;
    hide Prod;
    ProdSum(d, q, k - q);
    ProdSum(d, k, q - k);
    if k > q { ProdAtLeast(d, k - q); }
    if k < q { ProdAtLeast(d, q - k); }
  }

  function Quot(n: nat, d: nat): nat
    requires d > 0
  {
    n / d
  }

  /** Dividing twice is dividing by the product. */
  lemma DivDiv(n: nat, a: nat, b: nat)
    requires a > 0 && b > 0
    ensures Prod(a, b) > 0 && Quot(Quot(n, a), b) == Quot(n, Prod(a, b))
  {
    ProdAtLeast(a, b);
    DivIs(n, a);
    var q, r := n / a, n % a;
    DivIs(q, b);
    var u, v := q / b, q % b;
    hide Prod;
    ProdSum(a, Prod(b, u), v);
    ProdAssociates(a, b, u);
    ProdSum(a, v, b - v);
    ProdAtLeast(a, b - v);
    ProdNonNegative(a, v);
    Quotient(n, Prod(a, b), u, Prod(a, v) + r);
  }

  lemma ProdNonNegative(a: nat, b: nat)
    ensures Prod(a, b) >= 0
  {}

  /** A multiple of the divisor can be taken out. */
  lemma DivAdd(c: nat, m: nat, x: nat)
    requires c > 0
    ensures Prod(c, m) >= 0 && Quot(Prod(c, m) + x, c) == m + Quot(x, c)
  {
    ProdNonNegative(c, m);
    DivIs(x, c);
    hide Prod;
    ProdSum(c, m, x / c);
    Quotient(Prod(c, m) + x, c, m + x / c, x % c);
  }

  /** The binary digit of n with the place value c. */
  function Binary(n: nat, c: nat): nat
    requires c > 0
  {
    Quot(n, c) % 2
  }

  lemma HalfMod(m: nat, k: nat)
    requires k > 0
    ensures m % (2 * k) == 2 * (m / 2 % k) + Binary(m, 1)
  {
    DivIs(m / 2, k);
    hide Prod;
    var q, r := m / 2 / k, m / 2 % k;
    TwiceProd(k, q);
    Quotient(m, 2 * k, q, 2 * r + m % 2);
  }

  lemma Halvings(m: nat)
    ensures m / 2 / 2 == m / 4 && m / 4 / 2 == m / 8 && m / 8 / 2 == m / 16 && m / 16 / 2 == m / 32
    ensures Binary(m / 2, 1) == Binary(m, 2) && Binary(m / 4, 1) == Binary(m, 4) && Binary(m / 8, 1) == Binary(m, 8)
    ensures Binary(m / 16, 1) == Binary(m, 16) && m / 32 % 2 == Binary(m, 32)
  {}

  lemma SixDigits(m: nat)
    ensures m % 64 == 32 * Binary(m, 32) + 16 * Binary(m, 16) + 8 * Binary(m, 8) + 4 * Binary(m, 4)
      + 2 * Binary(m, 2) + Binary(m, 1)
  {
    Halvings(m);
    HalfMod(m, 32);
    HalfMod(m / 2, 16);
    HalfMod(m / 4, 8);
    HalfMod(m / 8, 4);
    HalfMod(m / 16, 2);
    hide Binary;
  }
}
