/** Facts about products and quotients, one nonlinear step each. */
module Arithmetic {

  lemma ProductNonneg(a: real, b: real)
    requires a >= 0.0 && b >= 0.0
    ensures a * b >= 0.0
  {
  }

  lemma SignOfProduct(z: real, e: real)
    requires e > 0.0
    ensures z * e > 0.0 <==> z > 0.0
    ensures z * e < 0.0 <==> z < 0.0
  {
  }

  lemma CastProduct(a: nat, b: nat)
    ensures (a * b) as real == a as real * b as real
  {
  }

  lemma RatioStep(a: real, b: real, c: real, e: real)
    requires b > 0.0 && e > 0.0
    ensures b * e > 0.0 && (a * c) / (e * b) == (a / b) * (c / e)
  {
    assert b * e > 0.0;
    var q, r := a / b, c / e;
    assert a == q * b && c == r * e;
    assert a * c == (q * r) * (e * b);
  }

  lemma RatioFold(f: nat, p: nat, k: nat, d: nat)
    requires d > 0 && p > 0
    ensures d * p > 0
    ensures (f * k) as real / (d * p) as real == f as real / p as real * (k as real / d as real)
  {
    CastProduct(f, k);
    CastProduct(d, p);
    RatioStep(f as real, p as real, k as real, d as real);
  }

  lemma ProductMonotone(a: nat, b: nat, c: nat, d: nat)
    requires a <= c && b <= d
    ensures a * b <= c * d
  {
    assert a * b <= c * b <= c * d;
  }

  lemma ScaleMonotone(l: real, a: real, b: real)
    requires l >= 0.0 && a <= b
    ensures l * a <= l * b
  {
    ProductNonneg(l, b - a);
    assert l * (b - a) == l * b - l * a;
  }

  lemma StrictScale(l: real, a: real, b: real)
    requires l > 0.0 && a < b
    ensures l * a < l * b
  {
    SignOfProduct(b - a, l);
    assert (b - a) * l == l * b - l * a;
  }

  lemma CompareTimes(x: real, y: real, e: real)
    requires e > 0.0
    ensures x <= y <==> x * e <= y * e
  {
    SignOfProduct(x - y, e);
    assert (x - y) * e == x * e - y * e;
  }

  lemma ScaledBelow(p: real, e: real, f: real)
    requires 0.0 <= p && e < f && p * f <= 1.0
    ensures p * e < 1.0
  {
    var low, high := p * e, p * f;
    if p == 0.0 {
      assert low == 0.0;
    } else {
      StrictScale(p, e, f);
      assert low < high <= 1.0;
    }
  }

  lemma QuotientBelow(a: real, e: real, q: real)
    requires e > 0.0 && a < q * e
    ensures a / e < q
  {
    var r := a / e;
    assert r * e == a;
    SignOfProduct(q - r, e);
    assert (q - r) * e == q * e - r * e;
  }

  lemma Multiples(d: int, size: nat)
    ensures d >= 1 ==> d * size >= size
    ensures d <= -1 ==> d * size <= 0 - size
  {
    if d >= 1 {
      assert (d - 1) * size >= 0;
    } else if d <= -1 {
      assert (-d - 1) * size >= 0;
    }
  }

  lemma NoSmallMultiple(d: int, size: nat, e: int)
    requires d * size == e && 0 - size < e < size
    ensures d == 0
  {
    Multiples(d, size);
  }

  /** Place j of row i, with rows of a size, and back. */
  lemma Cell(i: nat, j: nat, size: nat)
    requires j < size
    ensures (i * size + j) / size == i && (i * size + j) % size == j
  {
    var k := i * size + j;
    var q, r := k / size, k % size;
    assert k == q * size + r;
    assert (q - i) * size == q * size - i * size == j - r;
    NoSmallMultiple(q - i, size, j - r);
  }

  lemma CellWithin(i: nat, j: nat, size: nat, n: nat)
    requires i < n && j < size
    ensures i * size + j < n * size
  {
    ProductMonotone(i + 1, size, n, size);
    assert (i + 1) * size == i * size + size;
  }

  lemma CellOf(k: nat, size: nat, n: nat)
    requires k < n * size
    ensures size > 0 && k / size < n && k == (k / size) * size + k % size
  {
    assert size > 0;
    assert k == (k / size) * size + k % size;
    Multiples(k / size - n + 1, size);
    assert (k / size - n) * size == (k / size) * size - n * size;
    assert (k / size - n + 1) * size == (k / size - n) * size + size;
  }
}
