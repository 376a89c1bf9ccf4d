/** Facts about floor division by a positive number. */
module Arithmetic {
  import opened Types

  lemma MulAtLeast(d: Duration, k: int)
    ensures k >= 1 ==> d * k >= d
    ensures k <= -1 ==> d * k + d <= 0
  {
    if k >= 1 {
      assert d * (k - 1) >= 0;
      assert d * k == d * (k - 1) + d;
    } else if k <= -1 {
      assert d * (-k - 1) >= 0;
      assert d * k == -(d * (-k - 1)) - d;
    }
  }

  lemma QuotientIs(a: int, d: Duration, q: int, r: nat)
    requires a == d * q + r && r < d
    ensures a / d == q
  {
    var q', r' := a / d, a % d;
    assert a == d * q' + r';
    MulAtLeast(d, q - q');
    assert d * (q - q') == d * q - d * q';
  }

  lemma DivMonotone(a: int, b: int, d: Duration)
    requires a <= b
    ensures a / d <= b / d
  {
    var q, q' := a / d, b / d;
    assert a == d * q + a % d && b == d * q' + b % d;
    MulAtLeast(d, q - q');
    assert d * (q - q') == d * q - d * q';
  }

  lemma DivNext(a: int, d: Duration)
    ensures (a + d) / d == a / d + 1
  {
    assert a == d * (a / d) + a % d;
    assert d * (a / d + 1) == d * (a / d) + d;
    QuotientIs(a + d, d, a / d + 1, a % d);
  }

  lemma AtLeastTwo(a: int, d: Duration)
    ensures a / d >= 2 <==> a >= 2 * d
  {
    if a >= 2 * d {
      QuotientIs(2 * d, d, 2, 0);
      DivMonotone(2 * d, a, d);
    } else {
      QuotientIs(2 * d - 1, d, 1, d - 1);
      DivMonotone(a, 2 * d - 1, d);
    }
  }
}
