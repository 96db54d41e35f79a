/** Plane vectors, the Euclidean norm of `get_norm`, and the unit clip that
    `_take_action` applies to an action before it moves the agent.

    Dafny has no square root on `real`, so the numeric square root the
    environment calls is a parameter `sqrt` of every member that needs it;
    `IsSqrt(sqrt)` is all that is assumed of it. */
module Geometry {

  /** A 2-component real vector: a location, an action or a direction. */
  datatype Vec = Vec(x: real, y: real) {
    function Add(o: Vec): Vec { Vec(x + o.x, y + o.y) }
    function Scale(k: real): Vec { Vec(k * x, k * y) }
    function Div(k: real): Vec
      requires k != 0.0
    { Vec(x / k, y / k) }
  }

  const Origin := Vec(0.0, 0.0)

  function Abs(x: real): real { if x < 0.0 then -x else x }

  /** The square of the Euclidean length; needs no square root. */
  function SqNorm(v: Vec): (r: real)
    ensures 0.0 <= r
  {
    SquareNonNegative(v.x);
    SquareNonNegative(v.y);
    v.x * v.x + v.y * v.y
  }

  /** What the environment relies on of its square root. */
  ghost predicate IsSqrt(sqrt: real -> real)
  {
    forall x :: 0.0 <= x ==> 0.0 <= sqrt(x) && sqrt(x) * sqrt(x) == x
  }

  lemma MulPositive(a: real, b: real)
    requires 0.0 < a && 0.0 < b
    ensures 0.0 < a * b
  {}

  lemma MulMonotone(a: real, b: real, c: real)
    requires a <= b && 0.0 <= c
    ensures a * c <= b * c
  {}

  lemma DifferenceOfSquares(a: real, b: real)
    ensures (b - a) * (b + a) == b * b - a * a
  {}

  lemma SquareNonNegative(x: real)
    ensures 0.0 <= x * x
  {}

  lemma SquarePositive(x: real)
    requires x != 0.0
    ensures 0.0 < x * x
  {
    if 0.0 < x {
      MulPositive(x, x);
    } else {
      MulPositive(-x, -x);
      assert (-x) * (-x) == x * x;
    }
  }

  lemma SquareLess(a: real, b: real)
    requires 0.0 <= a < b
    ensures a * a < b * b
  {
    MulPositive(b - a, b + a);
    DifferenceOfSquares(a, b);
  }

  lemma SquareLe(a: real, b: real)
    requires 0.0 <= a <= b
    ensures a * a <= b * b
  {}

  /** Comparing non-negative numbers is comparing their squares. */
  lemma RootLess(a: real, b: real)
    requires 0.0 <= a && 0.0 <= b
    ensures a < b <==> a * a < b * b
  {
    if a < b { SquareLess(a, b); } else { SquareLe(b, a); }
  }

  lemma RootLe(a: real, b: real)
    requires 0.0 <= a && 0.0 <= b
    ensures a <= b <==> a * a <= b * b
  {
    if a <= b { SquareLe(a, b); } else { SquareLess(b, a); }
  }

  /** Square roots of non-negative numbers are unique. */
  lemma RootUnique(a: real, b: real)
    requires 0.0 <= a && 0.0 <= b && a * a == b * b
    ensures a == b
  {
    if a < b { SquareLess(a, b); } else if b < a { SquareLess(b, a); }
  }

  /** `get_norm` of a vector: its Euclidean length. */
  function Norm(sqrt: real -> real, v: Vec): (r: real)
    requires IsSqrt(sqrt)
    ensures 0.0 <= r && r * r == SqNorm(v)
  {
    sqrt(SqNorm(v))
  }

  /** `get_norm` of a single coordinate: its absolute value. */
  function ScalarNorm(sqrt: real -> real, x: real): (r: real)
    requires IsSqrt(sqrt)
    ensures r == Abs(x)
  {
    var r := sqrt(x * x);
    assert r * r == Abs(x) * Abs(x);
    RootUnique(r, Abs(x));
    r
  }

  /** The length of a vector is determined by its squared length. */
  lemma NormOfSquare(sqrt: real -> real, v: Vec, r: real)
    requires IsSqrt(sqrt)
    requires 0.0 <= r && r * r == SqNorm(v)
    ensures Norm(sqrt, v) == r
  {
    RootUnique(Norm(sqrt, v), r);
  }

  /** Scaling by a non-negative factor scales the length by that factor. */
  lemma NormScale(sqrt: real -> real, v: Vec, k: real)
    requires IsSqrt(sqrt) && 0.0 <= k
    ensures Norm(sqrt, v.Scale(k)) == k * Norm(sqrt, v)
  {
    var n := Norm(sqrt, v);
    SqNormScale(v, k);
    assert (k * n) * (k * n) == k * k * (n * n);
    NormOfSquare(sqrt, v.Scale(k), k * n);
  }

  /** The first half of `_take_action`: an action longer than 1 is divided
      by its length; a shorter one is left alone. */
  function Clip(sqrt: real -> real, a: Vec): Vec
    requires IsSqrt(sqrt)
  {
    var n := Norm(sqrt, a);
    if n > 1.0 then a.Div(n) else a
  }

  /** The clipped action is never longer than 1, equals the action when the
      action is no longer than 1, and otherwise is the unit vector pointing
      the same way as the action. */
  lemma ClipSpec(sqrt: real -> real, a: Vec)
    requires IsSqrt(sqrt)
    ensures SqNorm(Clip(sqrt, a)) <= 1.0
    ensures SqNorm(a) <= 1.0 ==> Clip(sqrt, a) == a
    ensures SqNorm(a) > 1.0 ==>
      SqNorm(Clip(sqrt, a)) == 1.0 &&
      exists k: real :: 0.0 < k && Clip(sqrt, a) == a.Scale(k)
  {
    var n := Norm(sqrt, a);
    RootLess(n, 1.0);
    if n > 1.0 {
      var c := a.Div(n);
      assert c == a.Scale(1.0 / n);
      assert SqNorm(c) == SqNorm(a) / (n * n);
      assert SqNorm(c) == 1.0;
    }
  }

  /** Clipping twice is clipping once. */
  lemma ClipIdempotent(sqrt: real -> real, a: Vec)
    requires IsSqrt(sqrt)
    ensures Clip(sqrt, Clip(sqrt, a)) == Clip(sqrt, a)
  {
    ClipSpec(sqrt, a);
    var c := Clip(sqrt, a);
    RootLess(Norm(sqrt, c), 1.0);
  }

  lemma CancelFactor(k: real, x: real, n: real)
    requires k != 0.0 && n != 0.0
    ensures (k * x) / (k * n) == x / n
  {}

  lemma ScaleThenDivide(a: Vec, k: real, n: real)
    requires k != 0.0 && n != 0.0
    ensures a.Scale(k).Div(k * n) == a.Div(n)
  {
    CancelFactor(k, a.x, n);
    CancelFactor(k, a.y, n);
  }

  lemma ScaleAtLeastOne(k: real, n: real)
    requires 1.0 <= k && 0.0 <= n
    ensures n <= k * n
  {
    assert 0.0 <= (k - 1.0) * n;
  }

  /** Once an action is longer than 1, stretching it further changes
      nothing: `k·a` clips to the same unit vector as `a`. */
  lemma ClipScaleInvariant(sqrt: real -> real, a: Vec, k: real)
    requires IsSqrt(sqrt)
    requires Norm(sqrt, a) > 1.0 && k >= 1.0
    ensures Clip(sqrt, a.Scale(k)) == Clip(sqrt, a)
  {
    var n := Norm(sqrt, a);
    var m := Norm(sqrt, a.Scale(k));
    assert m == k * n by { NormScale(sqrt, a, k); }
    assert m > 1.0 by { ScaleAtLeastOne(k, n); }
    assert Clip(sqrt, a.Scale(k)) == a.Scale(k).Div(k * n);
    ScaleThenDivide(a, k, n);
  }

  lemma SqNormScale(v: Vec, k: real)
    ensures SqNorm(v.Scale(k)) == k * k * SqNorm(v)
  {}

  lemma SqNormDiv(v: Vec, w: real)
    requires w != 0.0
    ensures SqNorm(v.Div(w)) == (1.0 / (w * w)) * SqNorm(v)
  {
    DivIsScale(v.x, w);
    DivIsScale(v.y, w);
    assert v.Div(w) == v.Scale(1.0 / w);
    SqNormScale(v, 1.0 / w);
    InverseSquare(w);
  }

  /** Scaling and then dividing is one scaling. */
  lemma ScaleDivIsScale(v: Vec, k: real, w: real)
    requires w != 0.0
    ensures v.Scale(k).Div(w) == v.Scale(k / w)
  {
    DivIsScale(k * v.x, w);
    DivIsScale(k * v.y, w);
    DivIsScale(k, w);
  }

  lemma DivIsScale(x: real, w: real)
    requires w != 0.0
    ensures x / w == (1.0 / w) * x
  {}

  lemma InverseSquare(w: real)
    requires w != 0.0
    ensures (1.0 / w) * (1.0 / w) == 1.0 / (w * w)
  {}
}
