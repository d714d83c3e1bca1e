/** Division and remainder of naturals. */
module Division {

  lemma {:induction false} Gap(a: nat, b: nat, m: nat)
    requires a > b
    ensures a * m >= b * m + m
  {
    assert a * m == b * m + m + (a - b - 1) * m;
  }

  lemma {:induction false} DivisionIs(x: nat, q: nat, r: nat, m: nat)
    requires r < m && x == q * m + r
    ensures x / m == q && x % m == r
  {
    var d := x / m;
    assert x == d * m + x % m;
    if d > q {
      Gap(d, q, m);
    } else if q > d {
      Gap(q, d, m);
    }
  }

  lemma {:induction false} RoundUp(x: nat, m: nat)
    requires m > 0
    ensures (x + (m - x % m)) % m == 0
  {
    var q := x / m;
    assert x == q * m + x % m;
    assert (q + 1) * m == q * m + m;
    DivisionIs(x + (m - x % m), q + 1, 0, m);
  }

  lemma {:induction false} Small(a: nat, m: nat)
    requires a < m
    ensures a / m == 0 && a % m == a
  {
    DivisionIs(a, 0, a, m);
  }

  lemma {:induction false} PlusMultiple(x: nat, q: nat, m: nat)
    requires m > 0
    ensures (x + q * m) / m == x / m + q && (x + q * m) % m == x % m
  {
    assert (x / m + q) * m == x / m * m + q * m;
    DivisionIs(x + q * m, x / m + q, x % m, m);
  }

  lemma {:induction false} MinusOne(x: nat, m: nat)
    requires 0 < m <= x
    ensures x / m == (x - m) / m + 1 && x % m == (x - m) % m
  {
    PlusMultiple(x - m, 1, m);
  }

  lemma {:induction false} RemainderPlus(a: nat, b: nat, m: nat)
    requires m > 0
    ensures (a % m + b) % m == (a + b) % m
  {
    PlusMultiple(a % m + b, a / m, m);
    assert a % m + b + a / m * m == a + b;
  }
}
