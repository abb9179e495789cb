/** Division facts used by the block and page arithmetic. */
module Arith {
  function Min(a: nat, b: nat): nat { if a < b then a else b }

  function Max(a: nat, b: nat): nat { if a < b then b else a }

  lemma MulMono(m: nat, a: int, b: int)
    requires a <= b
    ensures m * a <= m * b
  {
    assert m * (b - a) >= 0;
  }

  lemma MulBounds(m: nat, d: int)
    ensures d >= 1 ==> m * d >= m
    ensures d <= -1 ==> m * d + m <= 0
  {
    if d >= 1 { MulMono(m, 1, d); } else if d <= -1 { MulMono(m, d, -1); }
  }

  /** Quotient and remainder are unique. */
  lemma DivUnique(x: int, m: nat, q: int, r: int)
    requires m > 0 && x == m * q + r && 0 <= r < m
    ensures x / m == q && x % m == r
  {
    var q', r' := x / m, x % m;
    assert x == m * q' + r';
    assert m * (q - q') == r' - r;
    MulBounds(m, q - q');
  }

  lemma AddMultiple(a: nat, b: nat, m: nat)
    requires m > 0 && a % m == 0
    ensures b % m == 0 ==> (a + b) % m == 0
  {
    if b % m == 0 {
      var i, j := a / m, b / m;
      assert a == m * i && b == m * j;
      assert m * (i + j) == m * i + m * j;
      DivUnique(a + b, m, i + j, 0);
    }
  }

  function RoundDown(x: nat, m: nat): (r: nat)
    requires m > 0
    ensures r <= x < r + m && r % m == 0
  {
    RoundDownLemma(x, m);
    x - x % m
  }

  lemma RoundDownLemma(x: nat, m: nat)
    requires m > 0
    ensures x % m <= x && (x - x % m) % m == 0
  {
    var q := x / m;
    assert x == m * q + x % m;
    MulMono(m, 0, q);
    DivUnique(x - x % m, m, q, 0);
  }

  /** `round_up`; the overflow check of the source is not modelled. */
  function RoundUp(x: nat, m: nat): (r: nat)
    requires m > 0
    ensures x <= r < x + m && r % m == 0
  {
    RoundDown(x + m - 1, m)
  }
}
