/** Facts about division that several proofs need. */
module Division {
  lemma Grows(x: int, d: int)
    requires 0 < d
    ensures (1 <= x ==> d <= x * d) && (x <= -1 ==> x * d <= -d)
  {
  }

  lemma DivIs(n: nat, d: nat, q: nat, r: nat)
    requires 0 < d && n == q * d + r && r < d
    ensures n / d == q && n % d == r
  {
    var a, b := n / d, n % d;
    assert n == a * d + b;
    assert (a - q) * d == r - b;
    Grows(a - q, d);
  }

  lemma Spread(q: nat, a: nat, s: nat, p: nat, r: nat)
    ensures (q * a + s) * p + r == q * (a * p) + (s * p + r)
  {
  }

  lemma Below(a: nat, s: nat, p: nat, r: nat)
    requires r < p && s < a
    ensures s * p + r < a * p
  {
    Times(s + 1, a, p);
    assert (s + 1) * p == s * p + p;
  }

  /** Dividing twice is dividing by the product. */
  lemma DivDiv(n: nat, p: nat, a: nat)
    requires 0 < p && 0 < a
    ensures n / p / a == n / (a * p)
  {
    var q, r := n / p, n % p;
    var high, low := q / a, q % a;
    assert q == high * a + low;
    assert n == q * p + r;
    Spread(high, a, low, p, r);
    Below(a, low, p, r);
    DivIs(n, a * p, high, low * p + r);
  }

  lemma DivMono(a: nat, b: nat, d: nat)
    requires 0 < d && a <= b
    ensures a / d <= b / d
  {
    var q, r := a / d, a % d;
    var q', r' := b / d, b % d;
    assert a == q * d + r && b == q' * d + r';
    assert (q - q') * d <= r' - r;
    Grows(q - q', d);
  }

  lemma DivBelow(a: nat, q: nat, d: nat)
    requires 0 < d && a < q * d
    ensures a / d < q
  {
    var p, r := a / d, a % d;
    assert a == p * d + r;
    assert (q - p) * d > 0;
    Grows(q - p, d);
  }

  lemma Times(a: nat, b: nat, c: nat)
    requires a <= b
    ensures a * c <= b * c
  {
  }
}
