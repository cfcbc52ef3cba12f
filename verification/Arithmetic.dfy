/** Division facts shared by the other modules. */
module Arithmetic {

  lemma MultipleIsFar(d: int, g: nat)
    ensures d >= 1 ==> d * g >= g
    ensures d <= -1 ==> d * g + g <= 0
  {
  }

  lemma DivUnique(a: nat, g: nat, q: int, r: nat)
    requires g > 0 && a == q * g + r && r < g
    ensures a / g == q && a % g == r
  {
    var d := q - a / g;
    assert a == (a / g) * g + a % g;
    assert d * g == a % g - r;
    MultipleIsFar(d, g);
  }

  lemma Divide(a: nat, g: nat) returns (q: nat, r: nat)
    requires g > 0
    ensures a == q * g + r && r < g && a % g == r
  {
    q, r := a / g, a % g;
  }

  lemma Distribute(a: nat, b: nat, c: nat)
    ensures (a + b) * c == a * c + b * c
  {
  }
}
