/** The few facts about integer division that chunk counts and queue shares rest on. */
module Division {

  lemma DistinctMultiplesAreApart(p: int, q: int, d: nat)
    requires p > q && d > 0
    ensures p * d >= q * d + d
  {
    assert (p - q - 1) * d >= 0;
    assert p * d == q * d + d + (p - q - 1) * d;
  }

  lemma QuotientIsUnique(a: int, q: int, r: int, d: nat)
    requires d > 0 && a == q * d + r && 0 <= r < d
    ensures a / d == q
  {
    var p := a / d;
    assert a == p * d + a % d;
    if p > q { DistinctMultiplesAreApart(p, q, d); }
    if p < q { DistinctMultiplesAreApart(q, p, d); }
  }

  lemma OneMore(a: nat, d: nat)
    requires d > 0
    ensures (a + d) / d == a / d + 1
  {
    assert a == (a / d) * d + a % d;
    assert (a / d + 1) * d == (a / d) * d + d;
    QuotientIsUnique(a + d, a / d + 1, a % d, d);
  }

  lemma Monotone(a: nat, b: nat, d: nat)
    requires d > 0 && a <= b
    ensures a / d <= b / d
  {
    assert a == (a / d) * d + a % d && b == (b / d) * d + b % d;
    if a / d > b / d { DistinctMultiplesAreApart(a / d, b / d, d); }
  }
}
