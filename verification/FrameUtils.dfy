/**
  Angle wrapping and minimal angular error, over the real numbers. Half a turn is an arbitrary
  positive constant `pi`, so nothing here depends on its value.
*/
module FrameUtils {

  // The remainder of C's fmod: the quotient is truncated toward zero, so the result takes the
  // sign of x.
  function Truncate(x: real): int {
    if x >= 0.0 then x.Floor else -((-x).Floor)
  }

  function Fmod(x: real, m: real): real
    requires m > 0.0
  {
    x - Truncate(x / m) as real * m
  }

  function WrapAngle0To2Pi(theta: real, pi: real): real
    requires pi > 0.0
  {
    var wrapped := Fmod(theta, 2.0 * pi);
    if wrapped < 0.0 then wrapped + 2.0 * pi else wrapped
  }

  function WrapAnglePiToPi(theta: real, pi: real): real
    requires pi > 0.0
  {
    var wrapped := WrapAngle0To2Pi(theta, pi);
    if wrapped >= pi then wrapped - 2.0 * pi else wrapped
  }

  function AngleMinError(theta1: real, theta2: real, pi: real): real
    requires pi > 0.0
  {
    var error := WrapAngle0To2Pi(theta1, pi) - WrapAngle0To2Pi(theta2, pi);
    if error > pi then error - 2.0 * pi
    else if error < -pi then error + 2.0 * pi
    else error
  }

  function Abs(x: real): real {
    if x < 0.0 then -x else x
  }

  // k whole turns, as repeated addition; TurnsIsProduct says that it is the product 2 k pi.
  function Turns(k: int, pi: real): real
    decreases if k < 0 then -k else k
  {
    if k == 0 then 0.0
    else if k > 0 then Turns(k - 1, pi) + 2.0 * pi
    else Turns(k + 1, pi) - 2.0 * pi
  }

  // a and b are the same angle up to k whole turns.
  ghost predicate Apart(a: real, b: real, k: int, pi: real) {
    a == b + Turns(k, pi)
  }

  ghost predicate Congruent(a: real, b: real, pi: real) {
    exists k: int :: Apart(a, b, k, pi)
  }

  lemma {:induction false} TurnsIsProduct(k: int, pi: real)
    ensures Turns(k, pi) == k as real * (2.0 * pi)
    decreases if k < 0 then -k else k
  {
    if k > 0 {
      TurnsIsProduct(k - 1, pi);
      assert k as real == (k - 1) as real + 1.0;
    } else if k < 0 {
      TurnsIsProduct(k + 1, pi);
      assert k as real == (k + 1) as real - 1.0;
    }
  }

  lemma {:induction false} TurnsAdd(i: int, j: int, pi: real)
    ensures Turns(i + j, pi) == Turns(i, pi) + Turns(j, pi)
    decreases if j < 0 then -j else j
  {
    if j > 0 {
      TurnsAdd(i, j - 1, pi);
      var m := i + j - 1;
      assert Turns(m + 1, pi) == Turns(m, pi) + 2.0 * pi;
    } else if j < 0 {
      TurnsAdd(i, j + 1, pi);
      var m := i + j + 1;
      assert Turns(m - 1, pi) == Turns(m, pi) - 2.0 * pi;
    }
  }

  lemma {:induction false} TurnsBound(k: int, pi: real)
    requires pi > 0.0
    ensures k >= 1 ==> Turns(k, pi) >= 2.0 * pi
    ensures k <= -1 ==> Turns(k, pi) <= -2.0 * pi
    decreases if k < 0 then -k else k
  {
    if k > 1 {
      TurnsBound(k - 1, pi);
    } else if k < -1 {
      TurnsBound(k + 1, pi);
    } else {
      assert Turns(0, pi) == 0.0;
    }
  }

  // A fraction f of m, p, when f is what is left of y after q whole parts.
  lemma ScaleBounds(f: real, y: real, q: real, m: real, p: real)
    requires f == y - q && 0.0 <= f < 1.0 && m > 0.0
    requires p == y * m - q * m
    ensures 0.0 <= p < m
  {
    assert p == f * m;
    assert (1.0 - f) * m > 0.0;
  }

  lemma QuotientSign(x: real, m: real, y: real)
    requires m > 0.0 && x == y * m
    ensures x >= 0.0 <==> y >= 0.0
  {
  }

  lemma FmodBounds(x: real, m: real)
    requires m > 0.0
    ensures x >= 0.0 ==> 0.0 <= Fmod(x, m) < m
    ensures x < 0.0 ==> -m < Fmod(x, m) <= 0.0
  {
    var y := x / m;
    var q := Truncate(y) as real;
    assert x == y * m;
    QuotientSign(x, m, y);
    if y >= 0.0 {
      ScaleBounds(y - q, y, q, m, Fmod(x, m));
    } else {
      ScaleBounds(q - y, q, y, m, -Fmod(x, m));
    }
  }

  /** The wrap is congruent to the angle and lies in [0, 2 pi). */
  lemma Wrap0To2PiSpec(theta: real, pi: real)
    requires pi > 0.0
    ensures 0.0 <= WrapAngle0To2Pi(theta, pi) < 2.0 * pi
    ensures Congruent(WrapAngle0To2Pi(theta, pi), theta, pi)
  {
    FmodBounds(theta, 2.0 * pi);
    var q := Truncate(theta / (2.0 * pi));
    TurnsIsProduct(q, pi);
    TurnsAdd(q, -q, pi);
    assert Turns(1, pi) == Turns(0, pi) + 2.0 * pi;
    TurnsAdd(-q, 1, pi);
    assert Fmod(theta, 2.0 * pi) == theta - Turns(q, pi);
    var k := if Fmod(theta, 2.0 * pi) < 0.0 then -q + 1 else -q;
    assert Apart(WrapAngle0To2Pi(theta, pi), theta, k, pi);
  }

  // One whole turn more or less stays in the class.
  lemma OneTurn(a: real, b: real, pi: real)
    requires Congruent(a, b, pi)
    ensures Congruent(a - 2.0 * pi, b, pi) && Congruent(a + 2.0 * pi, b, pi)
  {
    var k :| Apart(a, b, k, pi);
    assert Turns(1, pi) == Turns(0, pi) + 2.0 * pi && Turns(-1, pi) == Turns(0, pi) - 2.0 * pi;
    TurnsAdd(k, 1, pi);
    TurnsAdd(k, -1, pi);
    assert Apart(a - 2.0 * pi, b, k + -1, pi) && Apart(a + 2.0 * pi, b, k + 1, pi);
  }

  /** The wrap is congruent to the angle and lies in [-pi, pi). */
  lemma WrapPiToPiSpec(theta: real, pi: real)
    requires pi > 0.0
    ensures -pi <= WrapAnglePiToPi(theta, pi) < pi
    ensures Congruent(WrapAnglePiToPi(theta, pi), theta, pi)
  {
    Wrap0To2PiSpec(theta, pi);
    OneTurn(WrapAngle0To2Pi(theta, pi), theta, pi);
  }

  lemma CongruentFlip(a: real, b: real, pi: real)
    requires Congruent(a, b, pi)
    ensures Congruent(b, a, pi) && Congruent(-a, -b, pi)
  {
    var k :| Apart(a, b, k, pi);
    TurnsAdd(k, -k, pi);
    assert Turns(0, pi) == 0.0;
    assert Apart(b, a, -k, pi) && Apart(-a, -b, -k, pi);
  }

  lemma CongruentAdd(a: real, b: real, c: real, d: real, pi: real)
    requires Congruent(a, b, pi) && Congruent(c, d, pi)
    ensures Congruent(a + c, b + d, pi)
  {
    var i :| Apart(a, b, i, pi);
    var j :| Apart(c, d, j, pi);
    TurnsAdd(i, j, pi);
    assert Apart(a + c, b + d, i + j, pi);
  }

  lemma CongruentTrans(a: real, b: real, c: real, pi: real)
    requires Congruent(a, b, pi) && Congruent(b, c, pi)
    ensures Congruent(a, c, pi)
  {
    var i :| Apart(a, b, i, pi);
    var j :| Apart(b, c, j, pi);
    TurnsAdd(i, j, pi);
    assert Apart(a, c, i + j, pi);
  }

  /** Each wrap is the only angle of its class in its interval. */
  lemma WrapsAreUnique(theta: real, x: real, pi: real)
    requires pi > 0.0 && Congruent(x, theta, pi)
    ensures 0.0 <= x < 2.0 * pi ==> x == WrapAngle0To2Pi(theta, pi)
    ensures -pi <= x < pi ==> x == WrapAnglePiToPi(theta, pi)
  {
    Wrap0To2PiSpec(theta, pi);
    WrapPiToPiSpec(theta, pi);
    SameClassSameAngle(x, WrapAngle0To2Pi(theta, pi), theta, pi);
    SameClassSameAngle(x, WrapAnglePiToPi(theta, pi), theta, pi);
  }

  lemma SameClassSameAngle(x: real, y: real, theta: real, pi: real)
    requires pi > 0.0 && Congruent(x, theta, pi) && Congruent(y, theta, pi)
    ensures -2.0 * pi < x - y < 2.0 * pi ==> x == y
  {
    CongruentFlip(y, theta, pi);
    CongruentTrans(x, theta, y, pi);
    var k :| Apart(x, y, k, pi);
    TurnsBound(k, pi);
    assert Turns(0, pi) == 0.0;
  }

  // No angle of its class is nearer to zero than one that lies in [-pi, pi], and inside that
  // interval it is the only one.
  lemma LeastOfItsClass(e: real, x: real, pi: real)
    requires pi > 0.0
    requires -pi <= e <= pi && Congruent(x, e, pi)
    ensures Abs(e) <= Abs(x)
    ensures Abs(e) < pi && Abs(x) == Abs(e) ==> x == e
  {
    var k :| Apart(x, e, k, pi);
    TurnsBound(k, pi);
    assert Turns(0, pi) == 0.0;
  }

  /** The error is the difference of the angles modulo whole turns, in [-pi, pi]. */
  lemma MinErrorSpec(theta1: real, theta2: real, pi: real)
    requires pi > 0.0
    ensures Congruent(AngleMinError(theta1, theta2, pi), theta1 - theta2, pi)
    ensures -pi <= AngleMinError(theta1, theta2, pi) <= pi
  {
    Wrap0To2PiSpec(theta1, pi);
    Wrap0To2PiSpec(theta2, pi);
    var w1, w2 := WrapAngle0To2Pi(theta1, pi), WrapAngle0To2Pi(theta2, pi);
    CongruentFlip(w2, theta2, pi);
    CongruentAdd(w1, theta1, -w2, -theta2, pi);
    assert w1 + -w2 == w1 - w2 && theta1 + -theta2 == theta1 - theta2;
    OneTurn(w1 - w2, theta1 - theta2, pi);
  }

  /** Every angle congruent to theta1 - theta2 is at least as large in absolute value. */
  lemma MinErrorIsLeast(theta1: real, theta2: real, x: real, pi: real)
    requires pi > 0.0
    requires Congruent(x, theta1 - theta2, pi)
    ensures Abs(AngleMinError(theta1, theta2, pi)) <= Abs(x)
  {
    MinErrorSpec(theta1, theta2, pi);
    var e := AngleMinError(theta1, theta2, pi);
    CongruentFlip(e, theta1 - theta2, pi);
    CongruentTrans(x, theta1 - theta2, e, pi);
    LeastOfItsClass(e, x, pi);
  }

  /**
    The absolute error is a distance on the circle: antisymmetric before the absolute value, zero
    exactly between angles that differ by whole turns, and subject to the triangle inequality.
  */
  lemma MinErrorIsAMetric(a: real, b: real, c: real, pi: real)
    requires pi > 0.0
    ensures AngleMinError(a, b, pi) == -AngleMinError(b, a, pi)
    ensures AngleMinError(a, b, pi) == 0.0 <==> Congruent(a, b, pi)
    ensures Abs(AngleMinError(a, c, pi)) <= Abs(AngleMinError(a, b, pi)) + Abs(AngleMinError(b, c, pi))
  {
    var ab, bc := AngleMinError(a, b, pi), AngleMinError(b, c, pi);
    MinErrorSpec(a, b, pi);
    MinErrorSpec(b, c, pi);
    CongruentAdd(ab, a - b, bc, b - c, pi);
    assert (a - b) + (b - c) == a - c;
    MinErrorIsLeast(a, c, ab + bc, pi);
    if ab == 0.0 {
      var k :| Apart(ab, a - b, k, pi);
      assert Apart(b, a, k, pi);
      CongruentFlip(b, a, pi);
    }
    if Congruent(a, b, pi) {
      var k :| Apart(a, b, k, pi);
      assert Apart(a - b, 0.0, k, pi);
      CongruentFlip(a - b, 0.0, pi);
      MinErrorIsLeast(a, b, 0.0, pi);
    }
  }

  /**
    Wrapping the plain difference gives the same error, except exactly when the two wrapped angles
    are half a turn apart with the first one ahead: there the error is pi and the wrap -pi.
  */
  lemma MinErrorVersusWrap(theta1: real, theta2: real, pi: real)
    requires pi > 0.0
    ensures AngleMinError(theta1, theta2, pi) == WrapAnglePiToPi(theta1 - theta2, pi)
      <==> WrapAngle0To2Pi(theta1, pi) - WrapAngle0To2Pi(theta2, pi) != pi
  {
    var e, w := AngleMinError(theta1, theta2, pi), WrapAnglePiToPi(theta1 - theta2, pi);
    MinErrorSpec(theta1, theta2, pi);
    WrapPiToPiSpec(theta1 - theta2, pi);
    CongruentFlip(e, theta1 - theta2, pi);
    CongruentTrans(w, theta1 - theta2, e, pi);
    CongruentFlip(w, e, pi);
    LeastOfItsClass(e, w, pi);
    LeastOfItsClass(w, e, pi);
    Wrap0To2PiSpec(theta1, pi);
    Wrap0To2PiSpec(theta2, pi);
  }
}
