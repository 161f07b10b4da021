/** The font-size step function calcSize and its closed form. */
module FontSize {

  /** Minimum font size. */
  const MinSize: int := 11
  /** Number of font sizes. */
  const Sizes: int := 38

  function Min(a: int, b: int): int
  {
    if a <= b then a else b
  }

  /** The closed form of calcSize: one size step per whole increment of
      maxword / Sizes + 1 in value, at most Sizes steps. */
  function SizeFormula(value: int, maxword: int): int
    requires maxword >= 0
  {
    MinSize + Min(Sizes, value / (maxword / Sizes + 1))
  }

  lemma {:induction false} MulMono(d: int, a: int, b: int)
    requires d >= 0 && a <= b
    ensures d * a <= d * b
    decreases b - a
  {
    if a < b {
      MulMono(d, a + 1, b);
      assert d * (a + 1) == d * a + d;
    }
  }

  /** Division by a positive d is monotone in the dividend and is the q
      with q * d <= v < (q + 1) * d. */
  lemma DivAtLeast(v: int, d: int, q: int)
    requires d > 0 && q * d <= v
    ensures q <= v / d
  {
    var r := v / d;
    assert v == d * r + v % d;
    assert v < d * (r + 1);
    if r + 1 <= q {
      MulMono(d, r + 1, q);
    }
  }

  lemma DivBelow(v: int, d: int, q: int)
    requires d > 0 && v < q * d
    ensures v / d < q
  {
    var r := v / d;
    assert v == d * r + v % d;
    assert d * r <= v;
    if q <= r {
      MulMono(d, q, r);
    }
  }

  lemma DivIs(v: int, d: int, q: int)
    requires d > 0 && q * d <= v < (q + 1) * d
    ensures v / d == q
  {
    DivAtLeast(v, d, q);
    DivBelow(v, d, q + 1);
  }

  /** calcSize: starting at MinSize, one step for each i in 1..Sizes with
      value >= i * increment. The argument n is not used. */
  method CalcSize(n: int, value: int, maxword: int) returns (size: int)
    requires value > 0 && maxword > 0
    ensures size == SizeFormula(value, maxword)
  {
    var increment := maxword / Sizes + 1;
    size := MinSize;
    var i := 1;
    var sized := false;
    while i <= Sizes && !sized
      invariant 1 <= i <= Sizes + 1
      invariant !sized ==> size == MinSize + i - 1 && (i - 1) * increment <= value
      invariant sized ==> 2 <= i && size == MinSize + i - 2 &&
                          (i - 2) * increment <= value < (i - 1) * increment
    {
      if value < i * increment {
        sized := true;
      } else {
        size := size + 1;
      }
      i := i + 1;
    }
    if sized {
      DivIs(value, increment, i - 2);
    } else {
      DivAtLeast(value, increment, Sizes);
    }
  }

  /** For 0 < value <= maxword the size lies in [MinSize, MinSize + Sizes - 1]. */
  lemma SizeBounds(value: int, maxword: int)
    requires 0 < value <= maxword
    ensures MinSize <= SizeFormula(value, maxword) <= MinSize + Sizes - 1
  {
    var increment := maxword / Sizes + 1;
    assert maxword == Sizes * (maxword / Sizes) + maxword % Sizes;
    assert value < Sizes * increment;
    DivBelow(value, increment, Sizes);
    DivAtLeast(value, increment, 0);
  }

  /** For a fixed maxword the size does not decrease as value grows. */
  lemma SizeMonotone(v1: int, v2: int, maxword: int)
    requires 0 < v1 <= v2 && maxword >= 0
    ensures SizeFormula(v1, maxword) <= SizeFormula(v2, maxword)
  {
    var d := maxword / Sizes + 1;
    var q := v1 / d;
    assert v1 == d * q + v1 % d;
    assert q * d <= v2;
    DivAtLeast(v2, d, q);
  }

  /** Below Sizes the increment is 1, so the most frequent word gets size
      MinSize + maxword rather than the largest size: 13 for maxword = 2. */
  lemma TopWordSize(maxword: int)
    requires 0 < maxword < Sizes
    ensures SizeFormula(maxword, maxword) == MinSize + maxword
    ensures maxword == 2 ==> SizeFormula(2, 2) == 13
  {
    assert maxword / Sizes == 0;
  }
}
