/**
 * The graph menu's pattern-match forecast and its visit history.
 *
 * The forecast takes the recent window of closing prices (`base`), min-max
 * normalises it, slides a window of the same length over the whole series,
 * scores each candidate by cosine similarity with the base window, picks the
 * best-scoring offset, and extends the matched window by the number of days to
 * predict. Prices are exact reals. A window whose normalisation divides 0 by 0
 * (a flat window) yields no numbers (pandas: NaN), and so does a score whose
 * denominator is 0; both are None here.
 *
 * The score is the squared cosine `dot(x, y)^2 / (dot(x, x) * dot(y, y))`: all
 * normalised prices are non-negative, so `dot(x, y) >= 0` and squaring does not
 * change which candidate ranks first (lemma CosineOrder).
 */
module Forecast {
  import opened Wrappers
  import opened Text
  import opened Bookmarks

  // ---------------------------------------------------------------------------
  // Min-max normalisation

  /** `Series.min()` of a non-empty window. */
  function Min(s: seq<real>): real
    requires |s| > 0
    decreases |s|
  {
    if |s| == 1 then s[0]
    else
      var m := Min(s[1..]);
      if s[0] <= m then s[0] else m
  }

  /** `Series.max()` of a non-empty window. */
  function Max(s: seq<real>): real
    requires |s| > 0
    decreases |s|
  {
    if |s| == 1 then s[0]
    else
      var m := Max(s[1..]);
      if s[0] >= m then s[0] else m
  }

  /** `Min` is a price of the window and no price is below it. */
  lemma {:induction false} MinIsLeast(s: seq<real>)
    requires |s| > 0
    ensures Min(s) in s
    ensures forall i :: 0 <= i < |s| ==> Min(s) <= s[i]
    decreases |s|
  {
    if |s| > 1 {
      MinIsLeast(s[1..]);
      assert forall i :: 1 <= i < |s| ==> s[i] == s[1..][i - 1];
    }
  }

  /** `Max` is a price of the window and no price is above it. */
  lemma {:induction false} MaxIsGreatest(s: seq<real>)
    requires |s| > 0
    ensures Max(s) in s
    ensures forall i :: 0 <= i < |s| ==> s[i] <= Max(s)
    decreases |s|
  {
    if |s| > 1 {
      MaxIsGreatest(s[1..]);
      assert forall i :: 1 <= i < |s| ==> s[i] == s[1..][i - 1];
    }
  }

  /**
   * `(s - s.min()) / (s.max() - s.min())`. An empty window stays empty; a flat
   * one divides 0 by 0 throughout and yields None.
   */
  function Normalize(s: seq<real>): (r: Option<seq<real>>)
    ensures r.Some? <==> s == [] || Min(s) < Max(s)
    ensures r.Some? ==> |r.value| == |s|
  {
    if s == [] then Some([])
    else
      var mn, mx := Min(s), Max(s);
      MinIsLeast(s);
      MaxIsGreatest(s);
      if mn == mx then None
      else Some(seq(|s|, i requires 0 <= i < |s| => Rescale(s[i], mn, mx)))
  }

  /** `(x - lo) / (hi - lo)`. */
  function Rescale(x: real, lo: real, hi: real): real
    requires lo < hi
  {
    (x - lo) / (hi - lo)
  }

  lemma RescaleTimes(x: real, lo: real, hi: real)
    requires lo < hi
    ensures Mul(Rescale(x, lo, hi), hi - lo) == x - lo
  {
    DivTimes(x - lo, hi - lo);
  }

  lemma DivTimes(a: real, d: real)
    requires d != 0.0
    ensures Mul(a / d, d) == a
  {
  }

  /** A price between `lo` and `hi` rescales into [0, 1], `lo` to 0 and `hi` to 1. */
  lemma RescaleRange(x: real, lo: real, hi: real)
    requires lo <= x <= hi && lo < hi
    ensures 0.0 <= Rescale(x, lo, hi) <= 1.0
    ensures Rescale(x, lo, hi) == 0.0 <==> x == lo
    ensures Rescale(x, lo, hi) == 1.0 <==> x == hi
  {
    RescaleTimes(x, lo, hi);
    UnitFraction(Rescale(x, lo, hi), x - lo, hi - lo);
  }

  /** `r * d == a` with `0 <= a <= d` puts `r` in [0, 1], with 0 and 1 exactly at the ends. */
  lemma UnitFraction(r: real, a: real, d: real)
    requires d > 0.0 && 0.0 <= a <= d && Mul(r, d) == a
    ensures 0.0 <= r <= 1.0
    ensures r == 0.0 <==> a == 0.0
    ensures r == 1.0 <==> a == d
  {
  }

  /** Rescaling keeps the order. */
  lemma RescaleMonotonic(x: real, y: real, lo: real, hi: real)
    requires lo < hi
    ensures x <= y <==> Rescale(x, lo, hi) <= Rescale(y, lo, hi)
  {
    var d := hi - lo;
    var rx, ry := Rescale(x, lo, hi), Rescale(y, lo, hi);
    RescaleTimes(x, lo, hi);
    RescaleTimes(y, lo, hi);
    assert Mul(ry - rx, d) == y - x;
    if rx <= ry {
      NonNegativeProduct(ry - rx, d);
    } else {
      PositiveProduct(rx - ry, d);
      assert Mul(rx - ry, d) == x - y;
    }
  }

  lemma NormalizedAt(s: seq<real>, i: nat)
    requires Normalize(s).Some? && i < |s|
    ensures s != [] && Min(s) < Max(s)
    ensures Min(s) <= s[i] <= Max(s)
    ensures Normalize(s).value[i] == Rescale(s[i], Min(s), Max(s))
  {
    MinIsLeast(s);
    MaxIsGreatest(s);
  }

  /**
   * Every normalised price lies in [0, 1]; the window's minimum maps to 0 and its
   * maximum to 1.
   */
  lemma NormalizeRange(s: seq<real>)
    requires Normalize(s).Some?
    ensures forall i :: 0 <= i < |s| ==> 0.0 <= Normalize(s).value[i] <= 1.0
    ensures forall i :: 0 <= i < |s| ==> (Normalize(s).value[i] == 0.0 <==> s[i] == Min(s))
    ensures forall i :: 0 <= i < |s| ==> (Normalize(s).value[i] == 1.0 <==> s[i] == Max(s))
  {
    forall i | 0 <= i < |s|
      ensures 0.0 <= Normalize(s).value[i] <= 1.0
      ensures Normalize(s).value[i] == 0.0 <==> s[i] == Min(s)
      ensures Normalize(s).value[i] == 1.0 <==> s[i] == Max(s)
    {
      NormalizeRangeAt(s, i);
    }
  }

  lemma NormalizeRangeAt(s: seq<real>, i: nat)
    requires Normalize(s).Some? && i < |s|
    ensures 0.0 <= Normalize(s).value[i] <= 1.0
    ensures Normalize(s).value[i] == 0.0 <==> s[i] == Min(s)
    ensures Normalize(s).value[i] == 1.0 <==> s[i] == Max(s)
  {
    NormalizedAt(s, i);
    RescaleRange(s[i], Min(s), Max(s));
  }

  /** `lo + r * (hi - lo)` for every `r`: the prices a normalisation came from. */
  function Denormalize(r: seq<real>, lo: real, hi: real): (s: seq<real>)
    ensures |s| == |r|
  {
    seq(|r|, i requires 0 <= i < |r| => lo + Mul(r[i], hi - lo))
  }

  /** Normalisation loses nothing: the window is recovered from its normalisation, minimum and maximum. */
  lemma NormalizeInverse(s: seq<real>)
    requires Normalize(s).Some? && s != []
    ensures Denormalize(Normalize(s).value, Min(s), Max(s)) == s
  {
    var lo, hi := Min(s), Max(s);
    RescaleAllInverse(s, lo, hi);
  }

  lemma RescaleAllInverse(s: seq<real>, lo: real, hi: real)
    requires lo < hi
    ensures Denormalize(seq(|s|, i requires 0 <= i < |s| => Rescale(s[i], lo, hi)), lo, hi) == s
  {
    var r := seq(|s|, i requires 0 <= i < |s| => Rescale(s[i], lo, hi));
    forall i | 0 <= i < |s|
      ensures Denormalize(r, lo, hi)[i] == s[i]
    {
      RescaleInverse(s[i], lo, hi, r[i]);
    }
  }

  /** Rescaling is undone by `lo + v * (hi - lo)`. */
  lemma RescaleInverse(x: real, lo: real, hi: real, v: real)
    requires lo < hi && v == Rescale(x, lo, hi)
    ensures x == lo + Mul(v, hi - lo)
  {
    RescaleTimes(x, lo, hi);
  }

  /** Normalisation keeps the order of the prices. */
  lemma NormalizeMonotonic(s: seq<real>, i: nat, j: nat)
    requires Normalize(s).Some? && i < |s| && j < |s|
    ensures s[i] <= s[j] <==> Normalize(s).value[i] <= Normalize(s).value[j]
  {
    NormalizedAt(s, i);
    NormalizedAt(s, j);
    RescaleMonotonic(s[i], s[j], Min(s), Max(s));
  }

  // ---------------------------------------------------------------------------
  // Similarity

  /** Multiplication of two prices, kept as a function: the algebra below is stated through it. */
  function Mul(a: real, b: real): real {
    a * b
  }

  lemma MulComm(a: real, b: real)
    ensures Mul(a, b) == Mul(b, a)
  {
  }

  lemma MulAddLeft(a: real, b: real, c: real)
    ensures Mul(a + b, c) == Mul(a, c) + Mul(b, c)
  {
  }

  lemma MulAddRight(a: real, b: real, c: real)
    ensures Mul(a, b + c) == Mul(a, b) + Mul(a, c)
  {
  }

  lemma MulSubLeft(a: real, b: real, c: real)
    ensures Mul(a - b, c) == Mul(a, c) - Mul(b, c)
  {
  }

  lemma MulSubRight(a: real, b: real, c: real)
    ensures Mul(a, b - c) == Mul(a, b) - Mul(a, c)
  {
  }

  /** `(ab)(cd) == (ac)(bd)`. */
  lemma MulRearrange(a: real, b: real, c: real, d: real)
    ensures Mul(Mul(a, b), Mul(c, d)) == Mul(Mul(a, c), Mul(b, d))
  {
    assert (a * b) * (c * d) == (a * c) * (b * d);
  }

  lemma MulZero(a: real, b: real)
    requires a == 0.0
    ensures Mul(a, b) == 0.0
  {
  }

  lemma PositiveProduct(a: real, b: real)
    requires a > 0.0 && b > 0.0
    ensures Mul(a, b) > 0.0
  {
  }

  lemma NonNegativeProduct(a: real, b: real)
    requires a >= 0.0 && b >= 0.0
    ensures Mul(a, b) >= 0.0
  {
  }

  lemma NegativeProduct(a: real, b: real)
    requires a < 0.0 && b < 0.0
    ensures Mul(a, b) > 0.0
  {
    PositiveProduct(-a, -b);
    assert Mul(a, b) == Mul(-a, -b);
  }

  lemma SquarePositive(a: real)
    requires a != 0.0
    ensures Mul(a, a) > 0.0
  {
    if a > 0.0 {
      PositiveProduct(a, a);
    } else {
      NegativeProduct(a, a);
    }
  }

  lemma SquareNonNegative(a: real)
    ensures Mul(a, a) >= 0.0
  {
    if a != 0.0 {
      SquarePositive(a);
    } else {
      MulZero(a, a);
    }
  }

  lemma MulMonotone(a: real, b: real, c: real)
    requires a >= 0.0 && b <= c
    ensures Mul(a, b) <= Mul(a, c)
  {
    MulSubRight(a, c, b);
    NonNegativeProduct(a, c - b);
  }

  /** `(u - v)^2 == u^2 - 2uv + v^2`. */
  lemma SquareOfDifference(u: real, v: real)
    ensures Mul(u - v, u - v) == Mul(u, u) - 2.0 * Mul(u, v) + Mul(v, v)
  {
    MulSubLeft(u, v, u - v);
    MulSubRight(u, u, v);
    MulSubRight(v, u, v);
    MulComm(u, v);
  }

  /** `(c + p)^2 == c^2 + 2cp + p^2`. */
  lemma SquareOfSum(c: real, p: real)
    ensures Mul(c + p, c + p) == Mul(c, c) + 2.0 * Mul(c, p) + Mul(p, p)
  {
    MulAddLeft(c, p, c + p);
    MulAddRight(c, c, p);
    MulAddRight(p, c, p);
    MulComm(c, p);
  }

  /** `(a + b)(c + d) == ac + ad + bc + bd`. */
  lemma ProductOfSums(a: real, b: real, c: real, d: real)
    ensures Mul(a + b, c + d) == Mul(a, c) + Mul(a, d) + Mul(b, c) + Mul(b, d)
  {
    MulAddLeft(a, b, c + d);
    MulAddRight(a, c, d);
    MulAddRight(b, c, d);
  }

  /** `np.dot`; two non-negative windows have a non-negative dot product. */
  function Dot(x: seq<real>, y: seq<real>): (r: real)
    requires |x| == |y|
    ensures NonNegative(x) && NonNegative(y) ==> r >= 0.0
    decreases |x|
  {
    if x == [] then 0.0
    else
      assert NonNegative(x) ==> NonNegative(x[1..]) by {
        assert forall i :: 0 <= i < |x[1..]| ==> x[1..][i] == x[i + 1];
      }
      assert NonNegative(y) ==> NonNegative(y[1..]) by {
        assert forall i :: 0 <= i < |y[1..]| ==> y[1..][i] == y[i + 1];
      }
      assert NonNegative(x) && NonNegative(y) ==> Mul(x[0], y[0]) >= 0.0 by {
        if NonNegative(x) && NonNegative(y) { NonNegativeProduct(x[0], y[0]); }
      }
      Mul(x[0], y[0]) + Dot(x[1..], y[1..])
  }

  lemma {:induction false} DotSymmetric(x: seq<real>, y: seq<real>)
    requires |x| == |y|
    ensures Dot(x, y) == Dot(y, x)
    decreases |x|
  {
    if x != [] {
      DotSymmetric(x[1..], y[1..]);
      MulComm(x[0], y[0]);
    }
  }

  predicate NonNegative(x: seq<real>) {
    forall i :: 0 <= i < |x| ==> x[i] >= 0.0
  }

  /** A window's dot product with itself is never negative, and is 0 only for the zero window. */
  lemma {:induction false} DotSelf(x: seq<real>)
    ensures Dot(x, x) >= 0.0
    ensures Dot(x, x) == 0.0 <==> forall i :: 0 <= i < |x| ==> x[i] == 0.0
    decreases |x|
  {
    if x != [] {
      var t := x[1..];
      DotSelf(t);
      if x[0] != 0.0 {
        SquarePositive(x[0]);
      } else {
        MulZero(x[0], x[0]);
        assert (forall i :: 0 <= i < |x| ==> x[i] == 0.0) <==> (forall i :: 0 <= i < |t| ==> t[i] == 0.0) by {
          assert forall i :: 0 <= i < |t| ==> t[i] == x[i + 1];
          assert forall i :: 1 <= i < |x| ==> x[i] == t[i - 1];
        }
      }
    }
  }

  /**
   * With `A = a^2`, `B = b^2` and `C = ab`, the sum of the squares `(a*y_i - b*x_i)^2`
   * is `A*(y.y) - 2C*(x.y) + B*(x.x)`, so that is never negative.
   */
  lemma {:induction false} CrossTerm(x: seq<real>, y: seq<real>, a: real, b: real)
    requires |x| == |y|
    ensures Mul(Mul(a, a), Dot(y, y)) - 2.0 * Mul(Mul(a, b), Dot(x, y)) + Mul(Mul(b, b), Dot(x, x)) >= 0.0
    decreases |x|
  {
    var A, B, C := Mul(a, a), Mul(b, b), Mul(a, b);
    if x == [] {
      MulZero(0.0, A);
      MulComm(A, 0.0);
      MulZero(0.0, B);
      MulComm(B, 0.0);
      MulZero(0.0, C);
      MulComm(C, 0.0);
    } else {
      var xs, ys := x[1..], y[1..];
      CrossTerm(xs, ys, a, b);
      MulAddRight(A, Mul(y[0], y[0]), Dot(ys, ys));
      MulAddRight(C, Mul(x[0], y[0]), Dot(xs, ys));
      MulAddRight(B, Mul(x[0], x[0]), Dot(xs, xs));
      HeadTerm(a, b, x[0], y[0]);
    }
  }

  /** `a^2 y0^2 - 2ab x0 y0 + b^2 x0^2 == (a y0 - b x0)^2 >= 0`. */
  lemma HeadTerm(a: real, b: real, x0: real, y0: real)
    ensures Mul(Mul(a, a), Mul(y0, y0)) - 2.0 * Mul(Mul(a, b), Mul(x0, y0)) + Mul(Mul(b, b), Mul(x0, x0)) >= 0.0
  {
    var u, v := Mul(a, y0), Mul(b, x0);
    SquareNonNegative(u - v);
    SquareOfDifference(u, v);
    MulRearrange(a, y0, a, y0);
    MulRearrange(a, y0, b, x0);
    MulComm(y0, x0);
    MulRearrange(b, x0, b, x0);
  }

  /** The Cauchy-Schwarz inequality: `(x.y)^2 <= (x.x) * (y.y)`. */
  lemma {:induction false} CauchySchwarz(x: seq<real>, y: seq<real>)
    requires |x| == |y|
    ensures Mul(Dot(x, y), Dot(x, y)) <= Mul(Dot(x, x), Dot(y, y))
    decreases |x|
  {
    if x == [] {
      MulZero(0.0, 0.0);
    } else {
      var xs, ys := x[1..], y[1..];
      CauchySchwarz(xs, ys);
      CrossTerm(xs, ys, x[0], y[0]);
      MulRearrange(x[0], y[0], x[0], y[0]);
      CauchySchwarzStep(Mul(x[0], x[0]), Mul(y[0], y[0]), Mul(x[0], y[0]), Dot(xs, ys), Dot(xs, xs), Dot(ys, ys));
    }
  }

  /** One more coordinate keeps the inequality, given the cross term is non-negative. */
  lemma CauchySchwarzStep(A: real, B: real, C: real, p: real, px: real, py: real)
    requires Mul(C, C) == Mul(A, B)
    requires Mul(p, p) <= Mul(px, py)
    requires Mul(A, py) - 2.0 * Mul(C, p) + Mul(B, px) >= 0.0
    ensures Mul(C + p, C + p) <= Mul(A + px, B + py)
  {
    SquareOfSum(C, p);
    ProductOfSums(A, px, B, py);
    MulComm(px, B);
  }



  /**
   * `cosine_similarity` on two normalised windows, squared. None when either
   * window has no numbers or when the denominator is 0 (pandas: NaN).
   */
  function Score(x: Option<seq<real>>, y: Option<seq<real>>): (r: Option<real>)
    requires x.Some? && y.Some? ==> |x.value| == |y.value|
    ensures r.Some? <==> x.Some? && y.Some? && Dot(x.value, x.value) != 0.0 && Dot(y.value, y.value) != 0.0
  {
    if x.None? || y.None? then None
    else if Dot(x.value, x.value) == 0.0 || Dot(y.value, y.value) == 0.0 then None
    else
      var d := Dot(x.value, y.value);
      Some(Mul(d, d) / Mul(Dot(x.value, x.value), Dot(y.value, y.value)))
  }

  /** The score does not depend on which window comes first. */
  lemma ScoreSymmetric(x: Option<seq<real>>, y: Option<seq<real>>)
    requires x.Some? && y.Some? ==> |x.value| == |y.value|
    ensures Score(x, y) == Score(y, x)
  {
    if x.Some? && y.Some? {
      DotSymmetric(x.value, y.value);
      MulComm(Dot(x.value, x.value), Dot(y.value, y.value));
    }
  }

  /** A window is as similar to itself as any window can be: 1. */
  lemma ScoreSelf(x: seq<real>)
    requires Dot(x, x) != 0.0
    ensures Score(Some(x), Some(x)) == Some(1.0)
  {
    var d := Dot(x, x);
    SquarePositive(d);
    DivSelf(Mul(d, d));
  }

  lemma DivSelf(n: real)
    requires n != 0.0
    ensures n / n == 1.0
  {
  }

  /** Every price of `y` multiplied by `c`. */
  function Scale(c: real, y: seq<real>): (r: seq<real>)
    ensures |r| == |y|
  {
    seq(|y|, i requires 0 <= i < |y| => Mul(c, y[i]))
  }

  /** Scaling one window scales the dot product by the same factor. */
  lemma {:induction false} DotScale(x: seq<real>, y: seq<real>, c: real)
    requires |x| == |y|
    ensures Dot(x, Scale(c, y)) == Mul(c, Dot(x, y))
    decreases |x|
  {
    if x != [] {
      DotScale(x[1..], y[1..], c);
      assert Scale(c, y)[1..] == Scale(c, y[1..]);
      MulSwap(x[0], c, y[0]);
      MulAddRight(c, Mul(x[0], y[0]), Dot(x[1..], y[1..]));
    }
  }

  /** The score is scale-invariant: multiplying a window by a positive constant leaves it unchanged. */
  lemma ScoreScale(x: seq<real>, y: seq<real>, c: real)
    requires |x| == |y| && c > 0.0
    ensures Score(Some(x), Some(Scale(c, y))) == Score(Some(x), Some(y))
  {
    var z := Scale(c, y);
    var xx, yy, d := Dot(x, x), Dot(y, y), Dot(x, y);
    DotScale(x, y, c);
    DotScale(y, y, c);
    DotScale(z, y, c);
    DotSymmetric(z, y);
    assert Dot(z, z) == Mul(c, Mul(c, yy));
    RatioScale(c, d, xx, yy);
  }

  /** The real algebra behind `ScoreScale`: `(cd)^2 / (xx * c^2 yy) == d^2 / (xx * yy)`. */
  lemma RatioScale(c: real, d: real, xx: real, yy: real)
    requires c > 0.0
    ensures Mul(c, Mul(c, yy)) == 0.0 <==> yy == 0.0
    ensures xx != 0.0 && yy != 0.0 ==>
      Mul(Mul(c, d), Mul(c, d)) / Mul(xx, Mul(c, Mul(c, yy))) == Mul(d, d) / Mul(xx, yy)
  {
    var k := Mul(c, c);
    PositiveProduct(c, c);
    MulAssoc(c, c, yy);
    if yy != 0.0 {
      NonZeroProduct(k, yy);
    } else {
      MulZero(yy, k);
      MulComm(k, yy);
    }
    if xx != 0.0 && yy != 0.0 {
      MulRearrange(c, d, c, d);
      MulSwap(xx, k, yy);
      NonZeroProduct(xx, yy);
      DivCancel(k, Mul(d, d), Mul(xx, yy));
    }
  }

  lemma MulAssoc(a: real, b: real, c: real)
    ensures Mul(a, Mul(b, c)) == Mul(Mul(a, b), c)
  {
    assert a * (b * c) == (a * b) * c;
  }

  lemma MulSwap(a: real, b: real, c: real)
    ensures Mul(a, Mul(b, c)) == Mul(b, Mul(a, c))
  {
    assert a * (b * c) == b * (a * c);
  }

  lemma NonZeroProduct(a: real, b: real)
    requires a != 0.0 && b != 0.0
    ensures Mul(a, b) != 0.0
  {
    if a > 0.0 {
      if b > 0.0 { PositiveProduct(a, b); } else { PositiveProduct(a, -b); assert Mul(a, b) == -Mul(a, -b); }
    } else {
      if b > 0.0 { PositiveProduct(-a, b); assert Mul(a, b) == -Mul(-a, b); } else { NegativeProduct(a, b); }
    }
  }

  /** `(k a) / (k b) == a / b`. */
  lemma DivCancel(k: real, a: real, b: real)
    requires k != 0.0 && b != 0.0
    ensures Mul(k, b) != 0.0 && Mul(k, a) / Mul(k, b) == a / b
  {
    NonZeroProduct(k, b);
    var q := a / b;
    DivTimes(a, b);
    assert Mul(k, a) == Mul(q, Mul(k, b)) by {
      assert k * a == k * (q * b);
      assert k * (q * b) == q * (k * b);
    }
    DivTimes(Mul(k, a), Mul(k, b));
    CancelNonZero(Mul(k, a) / Mul(k, b), q, Mul(k, b));
  }

  lemma CancelNonZero(u: real, v: real, n: real)
    requires n != 0.0 && Mul(u, n) == Mul(v, n)
    ensures u == v
  {
    if n > 0.0 {
      CancelPositive(u, v, n);
    } else {
      assert Mul(u, -n) == Mul(v, -n) by {
        assert u * -n == -(u * n);
        assert v * -n == -(v * n);
      }
      CancelPositive(u, v, -n);
    }
  }

  /** Every defined score lies in [0, 1]. */
  lemma ScoreBounds(x: Option<seq<real>>, y: Option<seq<real>>)
    requires x.Some? && y.Some? ==> |x.value| == |y.value|
    requires Score(x, y).Some?
    ensures 0.0 <= Score(x, y).value <= 1.0
  {
    var d := Dot(x.value, y.value);
    var xx, yy := Dot(x.value, x.value), Dot(y.value, y.value);
    DotSelf(x.value);
    DotSelf(y.value);
    PositiveProduct(xx, yy);
    SquareNonNegative(d);
    CauchySchwarz(x.value, y.value);
    var n := Mul(xx, yy);
    DivTimes(Mul(d, d), n);
    UnitFraction(Mul(d, d) / n, Mul(d, d), n);
  }

  /** `c` is the cosine of two non-negative windows: `c >= 0` and `c^2 * |x|^2 * |y|^2 == (x.y)^2`. */
  predicate IsCosine(c: real, x: seq<real>, y: seq<real>)
    requires |x| == |y|
  {
    c >= 0.0 && Mul(Mul(c, c), Mul(Dot(x, x), Dot(y, y))) == Mul(Dot(x, y), Dot(x, y))
  }

  /**
   * The scores rank candidates as the cosines do: for normalised (non-negative)
   * windows, a larger score is exactly a larger cosine.
   */
  lemma CosineOrder(x: seq<real>, y1: seq<real>, y2: seq<real>, c1: real, c2: real)
    requires |x| == |y1| == |y2|
    requires Score(Some(x), Some(y1)).Some? && Score(Some(x), Some(y2)).Some?
    requires IsCosine(c1, x, y1) && IsCosine(c2, x, y2)
    ensures c1 <= c2 <==> Score(Some(x), Some(y1)).value <= Score(Some(x), Some(y2)).value
  {
    ScoreIsSquare(x, y1, c1);
    ScoreIsSquare(x, y2, c2);
    SquareOrder(c1, c2);
  }

  /** The score is the square of the cosine. */
  lemma ScoreIsSquare(x: seq<real>, y: seq<real>, c: real)
    requires |x| == |y| && Score(Some(x), Some(y)).Some? && IsCosine(c, x, y)
    ensures Score(Some(x), Some(y)).value == Mul(c, c)
  {
    var xx, yy := Dot(x, x), Dot(y, y);
    var d := Dot(x, y);
    DotSelf(x);
    DotSelf(y);
    PositiveProduct(xx, yy);
    var n := Mul(xx, yy);
    DivTimes(Mul(d, d), n);
    CancelPositive(Mul(d, d) / n, Mul(c, c), n);
  }

  lemma CancelPositive(u: real, v: real, n: real)
    requires n > 0.0 && Mul(u, n) == Mul(v, n)
    ensures u == v
  {
    MulSubLeft(u, v, n);
    if u != v {
      if u > v {
        PositiveProduct(u - v, n);
      } else {
        PositiveProduct(v - u, n);
        MulSubLeft(v, u, n);
      }
    }
  }

  /** Squaring keeps the order of non-negative numbers. */
  lemma SquareOrder(c1: real, c2: real)
    requires c1 >= 0.0 && c2 >= 0.0
    ensures c1 <= c2 <==> Mul(c1, c1) <= Mul(c2, c2)
  {
    if c1 <= c2 {
      MulMonotone(c1, c1, c2);
      MulMonotone(c2, c1, c2);
      MulComm(c1, c2);
    } else {
      PositiveProduct(c1 - c2, c1 + c2);
      MulSubLeft(c1, c2, c1 + c2);
      MulAddRight(c1, c1, c2);
      MulAddRight(c2, c1, c2);
      MulComm(c1, c2);
    }
  }

  /** Normalised windows are non-negative, so their cosine is. */
  lemma NormalizedNonNegative(s: seq<real>)
    requires Normalize(s).Some?
    ensures NonNegative(Normalize(s).value)
  {
    NormalizeRange(s);
  }

  // ---------------------------------------------------------------------------
  // The scan

  /** Offset `i` leaves room for the window, the `next_date` days after it and one more point. */
  predicate IsCandidate(total: nat, windowSize: nat, nextDate: nat, i: nat) {
    i + windowSize + nextDate + 1 < total
  }

  /**
   * `moving_cnt`, clamped at 0 as `range(moving_cnt)` does: the offsets below it
   * are exactly the candidates.
   */
  function CandidateCount(total: nat, windowSize: nat, nextDate: nat): (n: nat)
    ensures forall i: nat :: i < n <==> IsCandidate(total, windowSize, nextDate, i)
  {
    var movingCnt := total - windowSize - nextDate - 1;
    if movingCnt > 0 then movingCnt else 0
  }

  /** Every candidate offset leaves room for the window and the days after it, and two more points. */
  lemma CandidateInRange(total: nat, windowSize: nat, nextDate: nat, i: nat)
    requires i < CandidateCount(total, windowSize, nextDate)
    ensures i + windowSize + nextDate <= total - 2
  {
    assert IsCandidate(total, windowSize, nextDate, i);
  }

  /** The candidate scores `sim_list`, one per offset. */
  function Scores(close: seq<real>, base: seq<real>, nextDate: nat): (sims: seq<Option<real>>)
    ensures |sims| == CandidateCount(|close|, |base|, nextDate)
  {
    var w := |base|;
    seq(CandidateCount(|close|, w, nextDate),
        i requires 0 <= i < CandidateCount(|close|, w, nextDate) =>
          CandidateScore(close, base, i))
  }

  /** The score of the candidate window at offset `i`. */
  function CandidateScore(close: seq<real>, base: seq<real>, i: nat): (r: Option<real>)
    requires i + |base| <= |close|
    ensures Normalize(base).None? ==> r.None?
    ensures r.Some? ==> 0.0 <= r.value <= 1.0
  {
    var x, y := Normalize(base), Normalize(close[i..i + |base|]);
    assert Score(x, y).Some? ==> 0.0 <= Score(x, y).value <= 1.0 by {
      if Score(x, y).Some? { ScoreBounds(x, y); }
    }
    Score(x, y)
  }

  /** Lines 163-169: the loop that appends each candidate's score to `sim_list`. */
  method Scan(close: seq<real>, base: seq<real>, nextDate: nat) returns (sims: seq<Option<real>>)
    ensures sims == Scores(close, base, nextDate)
    ensures |sims| == CandidateCount(|close|, |base|, nextDate)
  {
    var w := |base|;
    var baseNorm := Normalize(base);
    var movingCnt := |close| - w - nextDate - 1;
    ghost var all := Scores(close, base, nextDate);
    sims := [];
    var i := 0;
    while i < movingCnt
      invariant 0 <= i <= |all|
      invariant |sims| == i
      invariant forall k :: 0 <= k < i ==> sims[k] == all[k]
    {
      var target := close[i..i + w];
      var targetNorm := Normalize(target);
      var similarity := Score(baseNorm, targetNorm);
      ScoresAt(close, base, nextDate, i);
      sims := sims + [similarity];
      i := i + 1;
    }
  }

  /** Entry `i` of the scores is the score of the candidate window at offset `i`. */
  lemma ScoresAt(close: seq<real>, base: seq<real>, nextDate: nat, i: nat)
    requires i < CandidateCount(|close|, |base|, nextDate)
    ensures i + |base| <= |close|
    ensures Scores(close, base, nextDate)[i] == Score(Normalize(base), Normalize(close[i..i + |base|]))
  {
    assert IsCandidate(|close|, |base|, nextDate, i);
  }

  /** `a` ranks above `b` in a descending sort with undefined scores last. */
  predicate Above(a: Option<real>, b: Option<real>) {
    a.Some? && (b.None? || a.value > b.value)
  }

  /**
   * `sort_values(ascending=False).head(1).index[0]`: an offset with the largest
   * defined score, the earliest such one; offset 0 when no score is defined.
   */
  function BestIndex(sims: seq<Option<real>>): (b: nat)
    requires |sims| > 0
    ensures b < |sims|
    ensures forall j :: 0 <= j < |sims| && sims[j].Some? ==> sims[b].Some? && sims[j].value <= sims[b].value
    ensures forall j :: 0 <= j < b ==> Above(sims[b], sims[j])
    ensures sims[b].None? ==> b == 0
    decreases |sims|
  {
    if |sims| == 1 then 0
    else
      var init := sims[..|sims| - 1];
      var b := BestIndex(init);
      assert forall j :: 0 <= j < |init| ==> init[j] == sims[j];
      if Above(sims[|sims| - 1], sims[b]) then |sims| - 1 else b
  }

  datatype ForecastError = NoCandidates

  /**
   * What the graph shows: the normalised base window, the matched window extended
   * by `next_date` points and its normalisation, the x position of the "today"
   * line and the shaded span.
   */
  datatype Prediction = Prediction(
    offset: nat,
    baseNorm: Option<seq<real>>,
    matched: seq<real>,
    matchedNorm: Option<seq<real>>,
    today: int,
    spanStart: int,
    spanEnd: int)

  /**
   * Lines 149-193: scan, pick, extend. With no candidate offset, `index[0]` on the
   * empty series raises and nothing is drawn.
   */
  function Predict(close: seq<real>, base: seq<real>, nextDate: nat): (r: Result<Prediction, ForecastError>)
    ensures r.Failure? <==> CandidateCount(|close|, |base|, nextDate) == 0
  {
    PredictFrom(close, base, nextDate, Scores(close, base, nextDate))
  }

  /** Lines 170-193: pick the best offset among the given scores and extend its window. */
  function PredictFrom(close: seq<real>, base: seq<real>, nextDate: nat, sims: seq<Option<real>>)
    : (r: Result<Prediction, ForecastError>)
    requires |sims| == CandidateCount(|close|, |base|, nextDate)
    ensures r.Failure? <==> sims == []
  {
    if |sims| == 0 then Failure(NoCandidates)
    else
      var w := |base|;
      var idx := BestIndex(sims);
      CandidateInRange(|close|, w, nextDate, idx);
      var top := close[idx..idx + w + nextDate];
      Success(Prediction(idx, Normalize(base), top, Normalize(top), w - 1, w - 1, |top| - 1))
  }

  /**
   * The chosen offset has the best defined score of all candidates (the first
   * such), and its window and the days after it lie inside the series.
   */
  lemma PredictBest(close: seq<real>, base: seq<real>, nextDate: nat)
    requires Predict(close, base, nextDate).Success?
    ensures var p := Predict(close, base, nextDate).value;
            var sims := Scores(close, base, nextDate);
            && p.offset < |sims|
            && p.offset + |base| + nextDate <= |close| - 2
            && (forall j :: 0 <= j < |sims| && sims[j].Some? ==>
                  sims[p.offset].Some? && sims[j].value <= sims[p.offset].value)
            && (forall j :: 0 <= j < p.offset ==> Above(sims[p.offset], sims[j]))
  {
    var sims := Scores(close, base, nextDate);
    CandidateInRange(|close|, |base|, nextDate, BestIndex(sims));
  }

  /**
   * What is drawn: the matched window is the best candidate followed by the
   * `next_date` prices after it; the "today" line sits on the last base point and
   * the shaded span covers the predicted days.
   */
  lemma PredictWindow(close: seq<real>, base: seq<real>, nextDate: nat)
    requires Predict(close, base, nextDate).Success?
    ensures var p := Predict(close, base, nextDate).value;
            && p.offset + |base| + nextDate <= |close|
            && |p.matched| == |base| + nextDate
            && p.matched[..|base|] == close[p.offset..p.offset + |base|]
            && p.matched[|base|..] == close[p.offset + |base|..p.offset + |base| + nextDate]
            && p.baseNorm == Normalize(base)
            && p.matchedNorm == Normalize(p.matched)
            && p.today == p.spanStart == |base| - 1
            && p.spanEnd - p.spanStart == nextDate
  {
    var p := Predict(close, base, nextDate).value;
    var sims := Scores(close, base, nextDate);
    CandidateInRange(|close|, |base|, nextDate, BestIndex(sims));
    assert p.matched == close[p.offset..p.offset + |base| + nextDate];
  }

  /** The scan loop, then the pick and the extension. */
  method FindPattern(close: seq<real>, base: seq<real>, nextDate: nat) returns (r: Result<Prediction, ForecastError>)
    ensures r == Predict(close, base, nextDate)
  {
    var sims := Scan(close, base, nextDate);
    r := PickBest(close, base, nextDate, sims);
  }

  /** Lines 170-193: the best offset, its extended window, and the marks on the graph. */
  method PickBest(close: seq<real>, base: seq<real>, nextDate: nat, sims: seq<Option<real>>)
    returns (r: Result<Prediction, ForecastError>)
    requires |sims| == CandidateCount(|close|, |base|, nextDate)
    ensures r == PredictFrom(close, base, nextDate, sims)
  {
    var baseNorm := Normalize(base);
    var w := |base|;
    if |sims| == 0 {
      return Failure(NoCandidates);
    }
    var idx := BestIndex(sims);
    CandidateInRange(|close|, w, nextDate, idx);
    var top := close[idx..idx + w + nextDate];
    var topNorm := Normalize(top);
    r := Success(Prediction(idx, baseNorm, top, topNorm, w - 1, w - 1, |top| - 1));
  }

  /**
   * Candidates are not kept out of the base window: when the base window is the
   * tail of the series and is longer than `next_date + 2`, the last candidate
   * window shares the base window's first price.
   */
  lemma CandidatesOverlapBase(close: seq<real>, windowSize: nat, nextDate: nat)
    requires windowSize <= |close|
    requires CandidateCount(|close|, windowSize, nextDate) > 0
    requires windowSize > nextDate + 2
    ensures var last := CandidateCount(|close|, windowSize, nextDate) - 1;
            last <= |close| - windowSize < last + windowSize
            && close[last..last + windowSize][|close| - windowSize - last]
               == close[|close| - windowSize..][0]
  {
  }

  // ---------------------------------------------------------------------------
  // Dates

  /** `str(timestamp).split(" ")[0]`: the text before the first space. */
  function DatePart(stamp: string): (d: string)
    ensures d <= stamp && ' ' !in d
    ensures |d| == |stamp| || stamp[|d|] == ' '
  {
    SplitParts(stamp, ' ');
    PrefixBeforeSplit(stamp, ' ');
    Split(stamp, ' ')[0]
  }

  /** The first part of a split is a prefix that ends at the end of the text or at a separator. */
  lemma {:induction false} PrefixBeforeSplit(s: string, sep: char)
    ensures Split(s, sep)[0] <= s
    ensures |Split(s, sep)[0]| == |s| || s[|Split(s, sep)[0]|] == sep
    decreases |s|
  {
    if s != [] {
      PrefixBeforeSplit(s[1..], sep);
      var r := Split(s[1..], sep)[0];
      if s[0] != sep {
        assert Split(s, sep)[0] == [s[0]] + r;
        assert |r| < |s[1..]| ==> s[1 + |r|] == s[1..][|r|];
      }
    }
  }

  /** A "date time" stamp gives its date. */
  lemma DatePartOfStamp(date: string, time: string)
    requires ' ' !in date
    ensures DatePart(date + " " + time) == date
  {
    SplitFirst(date, time, ' ');
  }

  /**
   * `get_dates`: one date per index label, each the label's text up to its first
   * space (the whole label when it has none).
   */
  function GetDates(stamps: seq<string>): (dates: seq<string>)
    ensures |dates| == |stamps|
    ensures forall i :: 0 <= i < |stamps| ==>
              dates[i] <= stamps[i] && ' ' !in dates[i]
              && (|dates[i]| == |stamps[i]| || stamps[i][|dates[i]|] == ' ')
  {
    seq(|stamps|, i requires 0 <= i < |stamps| => DatePart(stamps[i]))
  }

  // ---------------------------------------------------------------------------
  // Visit history

  /** The list read from its last entry to its first. */
  function Reverse(s: seq<string>): (r: seq<string>)
    ensures |r| == |s|
  {
    seq(|s|, k requires 0 <= k < |s| => s[|s| - 1 - k])
  }

  lemma ReverseMembers(s: seq<string>)
    ensures forall x :: x in Reverse(s) <==> x in s
  {
    forall x ensures x in Reverse(s) <==> x in s {
      if x in s {
        var k :| 0 <= k < |s| && s[k] == x;
        assert Reverse(s)[|s| - 1 - k] == x;
      }
    }
  }

  lemma ReverseAppend(s: seq<string>, x: string)
    ensures Reverse(s + [x]) == [x] + Reverse(s)
  {
    var r, t := Reverse(s + [x]), [x] + Reverse(s);
    forall k | 0 <= k < |r| ensures r[k] == t[k] {
      if k > 0 {
        assert t[k] == Reverse(s)[k - 1];
      }
    }
  }

  /** The entries of `s` other than `x`, in order. */
  function Without(s: seq<string>, x: string): (r: seq<string>)
    ensures x !in r
    ensures forall y :: y in r <==> y in s && y != x
    decreases |s|
  {
    if s == [] then []
    else if s[0] == x then Without(s[1..], x)
    else [s[0]] + Without(s[1..], x)
  }

  lemma {:induction false} WithoutAbsent(s: seq<string>, x: string)
    requires x !in s
    ensures Without(s, x) == s
    decreases |s|
  {
    if s != [] {
      WithoutAbsent(s[1..], x);
    }
  }

  /** In a list without duplicates, deleting `x` at its index is dropping `x`. */
  lemma {:induction false} WithoutAtIndex(s: seq<string>, x: string)
    requires NoDuplicates(s) && x in s
    ensures Without(s, x) == s[..IndexOf(s, x)] + s[IndexOf(s, x) + 1..]
    decreases |s|
  {
    var t := s[1..];
    if s[0] == x {
      HeadNotInTail(s);
      WithoutAbsent(t, x);
      assert Without(s, x) == Without(t, x);
      assert s[..0] + s[1..] == t;
    } else {
      TailKeepsDistinct(s);
      IndexOfTail(s, x);
      WithoutAtIndex(t, x);
      var j := IndexOf(t, x);
      var i := j + 1;
      assert Without(s, x) == [s[0]] + Without(t, x);
      assert s[..i] == [s[0]] + t[..j];
      assert s[i + 1..] == t[j + 1..];
      assert [s[0]] + (t[..j] + t[j + 1..]) == ([s[0]] + t[..j]) + t[j + 1..];
    }
  }

  lemma HeadNotInTail(s: seq<string>)
    requires NoDuplicates(s) && s != []
    ensures s[0] !in s[1..]
  {
    forall k | 0 <= k < |s[1..]| ensures s[1..][k] != s[0] {
      assert s[1..][k] == s[k + 1];
    }
  }

  lemma TailKeepsDistinct(s: seq<string>)
    requires NoDuplicates(s) && s != []
    ensures NoDuplicates(s[1..])
  {
    forall i, j | 0 <= i < j < |s[1..]| ensures s[1..][i] != s[1..][j] {
      assert s[1..][i] == s[i + 1] && s[1..][j] == s[j + 1];
    }
  }

  /** Past a different first entry, `x` is found one place further on than in the tail. */
  lemma IndexOfTail(s: seq<string>, x: string)
    requires x in s && s[0] != x
    ensures x in s[1..] && IndexOf(s, x) == IndexOf(s[1..], x) + 1
  {
  }

  /** The browsing history and its menu. */
  class GraphMenu {
    /** The symbols of `self.history`, oldest first. */
    var history: seq<string>
    /** The symbols of the history menu's actions, top first. */
    var historyMenu: seq<string>
    /** Whether the history menu has been added to the menu bar. */
    var historyMenuAttached: bool

    /** No symbol twice; the menu lists the newest first; it is shown once there are two visits. */
    predicate Valid()
      reads this
    {
      NoDuplicates(history)
      && historyMenu == Reverse(history)
      && (historyMenuAttached <==> |history| >= 2)
    }

    constructor ()
      ensures history == [] && historyMenu == [] && !historyMenuAttached
      ensures Valid()
    {
      history := [];
      historyMenu := [];
      historyMenuAttached := false;
    }

    /**
     * Lines 101-128: a new symbol is appended (its action put at the top of the
     * menu); a revisited one is deleted from its place and appended again (its
     * action moved to the top).
     */
    method Visit(symbol: string)
      requires Valid()
      modifies this
      ensures Valid()
      ensures history == Without(old(history), symbol) + [symbol]
      ensures symbol !in old(history) ==> history == old(history) + [symbol]
      ensures symbol in old(history) ==>
        var i := IndexOf(old(history), symbol);
        history == old(history)[..i] + old(history)[i + 1..] + [symbol]
      ensures historyMenu[0] == symbol
    {
      if symbol !in history {
        WithoutAbsent(history, symbol);
        AppendNoDuplicates(history, symbol);
        ReverseAppend(history, symbol);
        historyMenu := [symbol] + historyMenu;
        history := history + [symbol];
        if |history| == 2 {
          historyMenuAttached := true;
        }
      } else {
        var i := IndexOf(history, symbol);
        var e := history[i];
        WithoutAtIndex(history, symbol);
        RemoveAtKeepsValid(history, i);
        var rest := history[..i] + history[i + 1..];
        ReverseRemove(history, i);
        var j := IndexOf(historyMenu, e);
        MenuIndex(history, i, j);
        AppendNoDuplicates(rest, e);
        ReverseAppend(rest, e);
        history := rest + [e];
        historyMenu := historyMenu[..j] + historyMenu[j + 1..];
        historyMenu := [e] + historyMenu;
      }
    }
  }

  /** The action at history index `i` is at menu index `|s| - 1 - i`. */
  lemma MenuIndex(s: seq<string>, i: nat, j: nat)
    requires NoDuplicates(s) && i < |s| && s[i] in Reverse(s) && j == IndexOf(Reverse(s), s[i])
    ensures j == |s| - 1 - i
  {
    var r, k := Reverse(s), |s| - 1 - i;
    forall m | 0 <= m < k ensures r[..k][m] != s[i] {
      assert r[..k][m] == s[|s| - 1 - m];
    }
    FirstAt(r, k, s[i]);
  }

  /** An entry absent before index `k` and present at `k` is first found at `k`. */
  lemma FirstAt(r: seq<string>, k: nat, x: string)
    requires k < |r| && r[k] == x && x !in r[..k]
    ensures x in r && IndexOf(r, x) == k
  {
  }

  /** Deleting index `i` of a list deletes index `|s| - 1 - i` of its reverse. */
  lemma ReverseRemove(s: seq<string>, i: nat)
    requires i < |s|
    ensures s[i] in Reverse(s)
    ensures var k := |s| - 1 - i;
            Reverse(s[..i] + s[i + 1..]) == Reverse(s)[..k] + Reverse(s)[k + 1..]
  {
    var k, r := |s| - 1 - i, Reverse(s);
    assert r[k] == s[i];
    var t := s[..i] + s[i + 1..];
    var lhs, rhs := Reverse(t), r[..k] + r[k + 1..];
    forall m | 0 <= m < |lhs| ensures lhs[m] == rhs[m] {
      if m < k {
        assert t[|t| - 1 - m] == s[|s| - 1 - m];
      } else {
        assert t[|t| - 1 - m] == s[|s| - 2 - m];
      }
    }
  }
}
