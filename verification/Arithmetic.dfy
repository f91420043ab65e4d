/** Facts about multiples and remainders. */
module Arithmetic {

  lemma Small(v: nat, m: nat)
    requires v < m
    ensures v % m == v
  {
  }

  lemma Scale(x: int, m: nat)
    ensures x >= 1 ==> x * m >= m
    ensures x <= -1 ==> x * m + m <= 0
  {
  }

  lemma Distribute(a: int, b: int, m: int)
    ensures (b - a) * m == b * m - a * m
  {
  }

  lemma Multiple(q: int, r: nat, m: nat)
    requires r < m
    ensures (q * m + r) % m == r && (q * m + r) / m == q
  {
    var d, e := (q * m + r) / m, (q * m + r) % m;
    assert q * m + r == d * m + e;
    Distribute(d, q, m);
    Scale(q - d, m);
  }

  lemma ModDistinct(v: nat, i: nat, j: nat, m: nat)
    requires i < j < i + m
    ensures (v + i) % m != (v + j) % m
  {
    var a, b := (v + i) / m, (v + j) / m;
    assert v + i == a * m + (v + i) % m;
    assert v + j == b * m + (v + j) % m;
    Distribute(a, b, m);
    Scale(b - a, m);
  }

  lemma ModNext(v: nat, m: nat)
    requires m > 0
    ensures (v % m + 1) % m == (v + 1) % m
  {
    var q := v / m;
    assert v == q * m + v % m;
    if v % m + 1 == m {
      assert v + 1 == (q + 1) * m;
      Multiple(q + 1, 0, m);
      assert m % m == 0;
    } else {
      Multiple(q, v % m + 1, m);
      Small(v % m + 1, m);
    }
  }

  lemma ModShifted(v: nat, i: nat, j: nat, m: nat)
    requires m > 0 && i <= j
    ensures (v + i) % m == (v + j) % m <==> (j - i) % m == 0
  {
    var q, r, a := (j - i) / m, (j - i) % m, (v + i) / m;
    assert v + j == (a * m + (v + i) % m) + (q * m + r);
    Distribute(-q, a, m);
    assert v + j == (a + q) * m + ((v + i) % m + r);
    if (v + i) % m + r < m {
      Multiple(a + q, (v + i) % m + r, m);
    } else {
      Distribute(-1, a + q, m);
      assert v + j == (a + q + 1) * m + ((v + i) % m + r - m);
      Multiple(a + q + 1, (v + i) % m + r - m, m);
    }
  }

  lemma ModShift(v: nat, i: nat, j: nat, m: nat)
    requires m > 0
    ensures (v + i) % m == (v + j) % m <==> i % m == j % m
  {
    if i <= j {
      ModShifted(v, i, j, m);
      ModShifted(0, i, j, m);
    } else {
      ModShifted(v, j, i, m);
      ModShifted(0, j, i, m);
    }
  }

  lemma DivideTwice(x: nat, m: nat)
    requires m > 0
    ensures x / (2 * m) == (x / 2) / m
  {
    var q, r := (x / 2) / m, (x / 2) % m;
    assert x == q * (2 * m) + (2 * r + x % 2) by {
      assert x / 2 == q * m + r;
      assert 2 * (q * m) == q * (2 * m);
    }
    Multiple(q, 2 * r + x % 2, 2 * m);
  }
}
