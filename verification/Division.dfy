/** Division by a number that is not a literal. */
module Division {
  lemma {:induction false} DivOf(m: nat, q: nat, s: nat)
    requires s < m
    ensures (m * q + s) / m == q && (m * q + s) % m == s
  {
    var x := m * q + s;
    var p, r := x / m, x % m;
    assert x == m * p + r;
    if q > p {
      Times(m, q, p);
    } else if p > q {
      Times(m, p, q);
    }
  }

  lemma Times(m: nat, a: nat, b: nat)
    requires a > b
    ensures m * a >= m * b + m
  {
    var d := a - b;
    assert m * (b + d) == m * b + m * d;
    AtLeast(m, d);
  }

  lemma AtLeast(m: nat, d: nat)
    requires d > 0
    ensures m * d >= m
  {
  }
}
