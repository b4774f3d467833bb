/** Real-number helpers shared by the motion and connectivity models:
    the absolute value of f64 and the law that a square root satisfies. */
module Numeric {

  /** `f64::abs`. */
  function Abs(x: real): (r: real)
    ensures 0.0 <= r
    ensures r == x || r == -x
  {
    if x < 0.0 then -x else x
  }

  /** `dx * dx + dy * dy`, the squared length of an offset. */
  function SumOfSquares(dx: real, dy: real): (r: real)
    ensures 0.0 <= r
  {
    dx * dx + dy * dy
  }

  /** `sqrt` behaves as the non-negative square root on non-negative inputs.
      The engine calls `f64::sqrt`; the model receives it as a parameter
      constrained by this predicate. */
  ghost predicate IsSqrt(sqrt: real -> real)
  {
    forall x: real :: 0.0 <= x ==> RootOf(sqrt, x)
  }

  /** `sqrt(x)` is a non-negative square root of `x`. */
  ghost predicate RootOf(sqrt: real -> real, x: real)
  {
    0.0 <= sqrt(x) && sqrt(x) * sqrt(x) == x
  }

  /** Comparing a square root against a positive bound is the same as
      comparing the radicand against the bound squared. */
  lemma SqrtBelow(sqrt: real -> real, x: real, b: real)
    requires IsSqrt(sqrt)
    requires 0.0 <= x && 0.0 < b
    ensures sqrt(x) < b <==> x < b * b
  {
    var s := sqrt(x);
    assert RootOf(sqrt, x);
    if s < b {
      calc {
        x;
      ==
        s * s;
      <=
        s * b;
      <
        b * b;
      }
    } else {
      calc {
        x;
      ==
        s * s;
      >=
        s * b;
      >=
        b * b;
      }
    }
  }

  /** A positive number has a positive square. */
  lemma PositiveSquare(r: real)
    requires 0.0 < r
    ensures 0.0 < r * r
  {
    assert 0.0 < r * r by {
      calc {
        r * r;
      >
        0.0 * r;
      }
    }
  }

  /** The square root of zero is zero. */
  lemma SqrtZero(sqrt: real -> real)
    requires IsSqrt(sqrt)
    ensures sqrt(0.0) == 0.0
  {
    SqrtOfSquare(sqrt, 0.0);
  }

  /** The square root of a perfect square of a non-negative number is that number. */
  lemma SqrtOfSquare(sqrt: real -> real, a: real)
    requires IsSqrt(sqrt)
    requires 0.0 <= a
    ensures sqrt(a * a) == a
  {
    var s := sqrt(a * a);
    assert RootOf(sqrt, a * a);
    if s < a {
      calc {
        s * s;
      <=
        s * a;
      <
        a * a;
      }
    } else if s > a {
      calc {
        s * s;
      >
        s * a;
      >=
        a * a;
      }
    }
  }
}
