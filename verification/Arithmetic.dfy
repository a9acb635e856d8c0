/** The few facts about products and quotients that the models need. */
module Arithmetic {

  lemma {:induction false} MulOrder(a: int, b: int, c: int)
    requires a <= b && c >= 0
    ensures a * c <= b * c
  {
  }

  lemma {:induction false} MulStep(a: int, b: int, c: int)
    requires a < b && c >= 0
    ensures a * c + c <= b * c
  {
    MulOrder(a + 1, b, c);
    assert (a + 1) * c == a * c + c;
  }

  lemma {:induction false} DivMod(x: int, d: int)
    requires d > 0
    ensures x == x / d * d + x % d && 0 <= x % d < d
  {
  }

  /** x / d is the one q with q d <= x < q d + d. */
  lemma {:induction false} Quotient(x: int, d: int, q: int)
    requires d > 0
    ensures x / d == q <==> q * d <= x < q * d + d
  {
    var p := x / d;
    DivMod(x, d);
    if p < q {
      MulStep(p, q, d);
    } else if p > q {
      MulStep(q, p, d);
    }
  }

  lemma {:induction false} Distribute(a: int, b: int, c: int)
    ensures (a + b) * c == a * c + b * c && c * (a + b) == c * a + c * b
  {
  }
}
