/** Powers of two, and products and quotients where the solver needs guidance. */
module Division {

  function Two(n: nat): (p: nat)
    ensures p >= 1
  {
    if n == 0 then 1 else 2 * Two(n - 1)
  }

  lemma Quotient(t: int, q: int, r: int, p: int)
    requires 0 <= r < p && t == q * p + r
    ensures t / p == q && t % p == r
  {
    var q', r' := t / p, t % p;
    assert t == p * q' + r';
    NoMultipleBetween(p, q - q', r' - r);
  }

  lemma NoMultipleBetween(p: int, d: int, e: int)
    requires p * d == e && -p < e < p
    ensures d == 0
  {
    if d >= 1 { OneTimes(p, d); } else if d <= -1 { OneTimes(p, -d); }
  }

  lemma OneTimes(p: int, d: int)
    requires d >= 1 && p >= 0
    ensures p * d >= p
  {
  }

  lemma Distribute(k: nat, u: nat, v: nat)
    requires u >= v
    ensures k * (u - v) == k * u - k * v
    ensures k * u >= k * v && (k > 0 && u > v ==> k * u > k * v)
  {
    assert k * u == k * v + k * (u - v);
    if k > 0 && u > v {
      OneTimes(k, u - v);
    }
  }
}
