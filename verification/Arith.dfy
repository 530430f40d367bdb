/** The few facts about products and remainders that the solver needs spelled out. */
module Arith {

  lemma MulAtLeast(a: nat, d: nat)
    requires 1 <= d
    ensures a <= a * d
  {
    assert a * d == a + a * (d - 1);
  }

  lemma MulOrder(a: nat, p: nat, q: nat)
    requires 0 < a
    ensures p < q ==> a * p + a <= a * q
    ensures p <= q ==> a * p <= a * q
    ensures a * p < a * q ==> p < q
  {
    if p < q {
      MulAtLeast(a, q - p);
      assert a * q == a * p + a * (q - p);
    } else {
      assert a * p == a * q + a * (p - q);
    }
  }

  /** Quotient and remainder are the only ones that fit. */
  lemma QuotientIs(x: nat, a: nat, p: nat, r: nat)
    requires x == a * p + r && r < a
    ensures x / a == p && x % a == r
  {
    var q := x / a;
    assert x == a * q + x % a;
    MulOrder(a, p, q);
    MulOrder(a, q, p);
  }

  lemma QuotientBelow(x: nat, a: nat, c: nat)
    requires 0 < a && x < a * c
    ensures x / a < c
  {
    var q := x / a;
    assert x == a * q + x % a;
    MulOrder(a, c, q);
  }

  lemma Division(x: nat, a: nat)
    requires 0 < a
    ensures x == x / a * a + x % a && x % a < a
  {
    assert a * (x / a) == x / a * a;
  }

  /** An aligned item of w bytes lies in one block, when blocks are made of such items. */
  lemma AlignedItem(at: nat, w: nat, m: nat, size: nat, k: nat)
    requires 0 < w && at == w * m && size == w * k && 0 < size
    ensures at % size + w <= size
  {
    var q := at / size;
    Division(at, size);
    assert q * size == w * (q * k);
    var i := m - q * k;
    assert at % size == w * i;
    MulOrder(w, if i < 0 then 0 else i, k);
  }

  lemma Distribute(a: nat, x: nat, y: nat)
    ensures (x + y) * a == x * a + y * a == a * (x + y)
  {
  }

  /** Position x of a run of n blocks that starts with block i. */
  lemma PlaceInRun(size: nat, i: nat, n: nat, x: nat)
    requires 0 < size && x < n * size
    ensures (i * size + x) / size == i + x / size && (i * size + x) % size == x % size
    ensures x / size < n && (i + x / size) * size + x % size == i * size + x
  {
    Distribute(size, n, 0);
    QuotientBelow(x, size, n);
    Division(x, size);
    PlaceOf(size, i, x / size, x % size, i * size + x);
  }

  lemma PlaceOf(size: nat, i: nat, q: nat, r: nat, y: nat)
    requires r < size && y == i * size + (q * size + r)
    ensures y / size == i + q && y % size == r && (i + q) * size + r == y
  {
    Distribute(size, i, q);
    QuotientIs(y, size, i + q, r);
  }

  /** How many blocks x items take. */
  lemma RoundedUp(x: nat, size: nat, n: nat)
    requires 0 < size && 0 < x && n == (x + size - 1) / size
    ensures 1 <= n && x <= n * size < x + size
  {
    Division(x + size - 1, size);
    if n == 0 {
      assert false;
    }
  }
}
