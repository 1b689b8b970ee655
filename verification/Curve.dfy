/** Affine points of a short Weierstrass curve over a prime field, as the web client computes with them. */
module Curve {
  import opened Collections
  import opened Bytes
  import opened Modular
  import opened Group

  datatype Point = Point(x: int, y: int)

  /** y^2 = x^3 + a x + b modulo the field prime p; scalars are reduced modulo n. */
  datatype Curve = Curve(p: int, a: int, b: int, n: int)

  /** Zero exactly on the curve. */
  function Defect(c: Curve, x: int, y: int): int {
    y * y - x * x * x - c.a * x - c.b
  }

  /** Infinity, or a reduced point that satisfies the equation. */
  predicate OnCurve(c: Curve, q: Option<Point>)
    requires c.p > 1
  {
    q.Some? ==> 0 <= q.value.x < c.p && 0 <= q.value.y < c.p && Zero(c.p, Defect(c, q.value.x, q.value.y))
  }

  /** The client's pointAdd; None is its null, Err its thrown exception. */
  function PointAdd(c: Curve, left: Option<Point>, right: Option<Point>): (r: Result<Option<Point>>)
    requires c.p > 1
  {
    if left.None? then Ok(right)
    else if right.None? then Ok(left)
    else
      var l, r := left.value, right.value;
      if l.x == r.x && Mod(l.y + r.y, c.p) == 0 then Ok(None)
      else if l.x == r.x && l.y == r.y then
        if l.y == 0 then Ok(None)
        else Third(c, l, r, 3 * l.x * l.x + c.a, Inverse(2 * l.y, c.p))
      else
        Third(c, l, r, r.y - l.y, Inverse(r.x - l.x, c.p))
  }

  /** The last four lines of pointAdd, with the slope given as numerator and inverted denominator. */
  function Third(c: Curve, l: Point, r: Point, numerator: int, inverse: Result<int>): (q: Result<Option<Point>>)
    requires c.p > 1
  {
    if inverse.Err? then Err
    else
      var slope := Mod(numerator * inverse.value, c.p);
      var x := Mod(slope * slope - l.x - r.x, c.p);
      var y := Mod(slope * (l.x - x) - l.y, c.p);
      Ok(Some(Point(x, y)))
  }

  /** The client's pointNegate. */
  function PointNegate(c: Curve, q: Option<Point>): Option<Point>
    requires c.p > 1
  {
    if q.Some? then Some(Point(q.value.x, Mod(-q.value.y, c.p))) else None
  }

  // ---- closure ----

  lemma DefectCong(c: Curve, x: int, y: int, x': int, y': int)
    requires c.p > 1 && Cong(c.p, x, x') && Cong(c.p, y, y')
    ensures Zero(c.p, Defect(c, x, y)) <==> Zero(c.p, Defect(c, x', y'))
  {
    var p := c.p;
    ZeroMultiple(p, 0);
    CongMul(p, y, y', y, y');
    CongMul(p, x, x', x, x');
    CongMul(p, x * x, x' * x', x, x');
    CongMul(p, c.a, c.a, x, x');
    CongAdd(p, y * y, y' * y', x * x * x, x' * x' * x');
    CongAdd(p, y * y - x * x * x, y' * y' - x' * x' * x', c.a * x, c.a * x');
    CongAdd(p, y * y - x * x * x - c.a * x, y' * y' - x' * x' * x' - c.a * x', c.b, c.b);
    CongIff(p, Defect(c, x, y), Defect(c, x', y'));
  }

  /** What remains of the line's cubic after dividing by its root x1, at t. */
  function Chord(c: Curve, x1: int, y1: int, s: int, t: int): int {
    t * t + t * x1 + x1 * x1 + c.a - 2 * y1 * s - s * s * (t - x1)
  }

  /** The point where the line of slope s through (x1, y1) meets the curve again lies on it. */
  lemma LineMeets(c: Curve, x1: int, y1: int, x2: int, s: int)
    requires c.p > 1 && Zero(c.p, Defect(c, x1, y1)) && Zero(c.p, Chord(c, x1, y1, s, x2))
    ensures var x3 := s * s - x1 - x2;
            Zero(c.p, Defect(c, x3, s * (x1 - x3) - y1))
  {
    var x3 := s * s - x1 - x2;
    var y3 := s * (x1 - x3) - y1;
    ChordSameAtThird(c, x1, y1, x2, s);
    LineIdentity(c, x1, y1, s, x3);
    ZeroMul(c.p, Chord(c, x1, y1, s, x2), x3 - x1);
    ZeroAdd(c.p, Defect(c, x1, y1), (x3 - x1) * Chord(c, x1, y1, s, x2));
  }

  lemma ChordSameAtThird(c: Curve, x1: int, y1: int, x2: int, s: int)
    ensures Chord(c, x1, y1, s, s * s - x1 - x2) == Chord(c, x1, y1, s, x2)
  {
  }

  /** The curve's defect along the line, as a polynomial identity. */
  lemma LineIdentity(c: Curve, x1: int, y1: int, s: int, t: int)
    ensures Defect(c, t, s * (x1 - t) - y1) == Defect(c, x1, y1) - (t - x1) * Chord(c, x1, y1, s, t)
  {
    var d := t - x1;
    LineSquare(x1, y1, s, t);
    CubeDifference(t, x1);
    var k, u, v := t * t + t * x1 + x1 * x1, 2 * y1 * s, s * s * d;
    assert Chord(c, x1, y1, s, t) == k + c.a - u - v;
    Expand(d, k, c.a, u, v);
    Distribute(c.a, d, x1);
  }

  lemma LineSquare(x1: int, y1: int, s: int, t: int)
    ensures var y, d := s * (x1 - t) - y1, t - x1;
            y * y == d * (s * s * d) + d * (2 * y1 * s) + y1 * y1
  {
  }

  lemma CubeDifference(t: int, x: int)
    ensures (t - x) * (t * t + t * x + x * x) == t * t * t - x * x * x
  {
  }

  lemma Expand(d: int, k: int, a: int, u: int, v: int)
    ensures d * (k + a - u - v) == d * k + d * a - d * u - d * v
  {
  }

  /** Reducing the slope and then each coordinate, as the code does, stays on the curve. */
  lemma ThirdOnCurve(c: Curve, l: Point, r: Point, numerator: int, inverse: int)
    requires c.p > 1 && OnCurve(c, Some(l))
    requires Zero(c.p, Chord(c, l.x, l.y, Mod(numerator * inverse, c.p), r.x))
    ensures var q := Third(c, l, r, numerator, Ok(inverse));
            q.Ok? && q.value.Some? && OnCurve(c, q.value)
  {
    var p := c.p;
    var s := Mod(numerator * inverse, p);
    var x3 := s * s - l.x - r.x;
    var x := Mod(x3, p);
    LineMeets(c, l.x, l.y, r.x, s);
    ModIsResidue(x3, p);
    ModIsResidue(s * (l.x - x) - l.y, p);
    CongResidue(p, x3);
    CongResidue(p, s * (l.x - x) - l.y);
    ZeroMul(p, x3 - x, s);
    assert (s * (l.x - x) - l.y) - (s * (l.x - x3) - l.y) == (x3 - x) * s;
    CongTrans(p, Mod(s * (l.x - x) - l.y, p), s * (l.x - x) - l.y, s * (l.x - x3) - l.y);
    DefectCong(c, x, Mod(s * (l.x - x) - l.y, p), x3, s * (l.x - x3) - l.y);
  }

  /** slope = numerator * inverse satisfies slope * denominator = numerator. */
  lemma SlopeEquation(p: int, numerator: int, denominator: int, inverse: int)
    requires p > 1 && (denominator * inverse) % p == 1
    ensures Cong(p, Mod(numerator * inverse, p) * denominator, numerator)
  {
    var s := Mod(numerator * inverse, p);
    ModIsResidue(numerator * inverse, p);
    CongResidue(p, numerator * inverse);
    CongResidue(p, denominator * inverse);
    ZeroMul(p, s - numerator * inverse, denominator);
    ZeroMul(p, denominator * inverse - 1, numerator);
    ZeroAdd(p, (s - numerator * inverse) * denominator, (denominator * inverse - 1) * numerator);
    SlopeSum(s, numerator, denominator, inverse);
  }

  lemma SlopeSum(s: int, numerator: int, denominator: int, inverse: int)
    ensures (s - numerator * inverse) * denominator + (denominator * inverse - 1) * numerator
            == s * denominator - numerator
  {
    assert (s - numerator * inverse) * denominator == s * denominator - numerator * inverse * denominator;
    assert (denominator * inverse - 1) * numerator == numerator * inverse * denominator - numerator;
  }

  /** The chord polynomial vanishes at the second intersection: distinct abscissas. */
  lemma ChordOfSecant(c: Curve, l: Point, r: Point, s: int)
    requires IsPrime(c.p) && OnCurve(c, Some(l)) && OnCurve(c, Some(r)) && l.x != r.x
    requires Cong(c.p, s * (r.x - l.x), r.y - l.y)
    ensures Zero(c.p, Chord(c, l.x, l.y, s, r.x))
  {
    var p := c.p;
    var w := s * (l.x - r.x) - l.y;
    LineIdentity(c, l.x, l.y, s, r.x);
    ZeroMul(p, s * (r.x - l.x) - (r.y - l.y), -1);
    assert s * (l.x - r.x) == -(s * (r.x - l.x));
    assert w - (-r.y) == (s * (r.x - l.x) - (r.y - l.y)) * (-1);
    ZeroMultiple(p, 0);
    DefectCong(c, r.x, w, r.x, -r.y);
    assert (-r.y) * (-r.y) == r.y * r.y;
    ZeroAdd(p, Defect(c, l.x, l.y), Defect(c, r.x, w));
    PrimeDividesProduct(p, r.x - l.x, Chord(c, l.x, l.y, s, r.x));
    if Zero(p, r.x - l.x) {
      SmallMultiple(p, r.x - l.x);
    }
  }

  /** The chord polynomial vanishes at the tangent point. */
  lemma ChordOfTangent(c: Curve, l: Point, s: int)
    requires c.p > 1 && Cong(c.p, s * (2 * l.y), 3 * l.x * l.x + c.a)
    ensures Zero(c.p, Chord(c, l.x, l.y, s, l.x))
  {
    ZeroFlip(c.p, s * (2 * l.y) - (3 * l.x * l.x + c.a));
    TangentChord(c, l.x, l.y, s);
  }

  lemma TangentChord(c: Curve, x: int, y: int, s: int)
    ensures Chord(c, x, y, s, x) == -(s * (2 * y) - (3 * x * x + c.a))
  {
  }

  lemma SmallMultiple(p: int, v: int)
    requires p > 1 && Zero(p, v) && -p < v < p
    ensures v == 0
  {
  }

  /** On the curve, equal abscissas leave only the same point and its negative. */
  lemma SameAbscissa(c: Curve, l: Point, r: Point)
    requires IsPrime(c.p) && OnCurve(c, Some(l)) && OnCurve(c, Some(r)) && l.x == r.x
    ensures l.y == r.y || Mod(l.y + r.y, c.p) == 0
  {
    var p := c.p;
    ZeroAdd(p, Defect(c, l.x, l.y), Defect(c, r.x, r.y));
    assert Defect(c, l.x, l.y) - Defect(c, r.x, r.y) == (l.y - r.y) * (l.y + r.y);
    PrimeDividesProduct(p, l.y - r.y, l.y + r.y);
    ModIsResidue(l.y + r.y, p);
    if Zero(p, l.y - r.y) {
      SmallMultiple(p, l.y - r.y);
    }
  }

  /** On the curve pointAdd never throws, and its result is on the curve. */
  lemma AddClosed(c: Curve, left: Option<Point>, right: Option<Point>)
    requires IsPrime(c.p) && OnCurve(c, left) && OnCurve(c, right)
    ensures var r := PointAdd(c, left, right);
            r.Ok? && OnCurve(c, r.value)
  {
    if left.Some? && right.Some? {
      var p, l, r := c.p, left.value, right.value;
      ModIsResidue(l.y + r.y, p);
      if l.x == r.x && Mod(l.y + r.y, p) != 0 {
        SameAbscissa(c, l, r);
        PrimeCoprime(p, 2 * l.y);
        var inverse := Inverse(2 * l.y, p).value;
        SlopeEquation(p, 3 * l.x * l.x + c.a, 2 * l.y, inverse);
        ChordOfTangent(c, l, Mod((3 * l.x * l.x + c.a) * inverse, p));
        ThirdOnCurve(c, l, r, 3 * l.x * l.x + c.a, inverse);
      } else if l.x != r.x {
        if Zero(p, r.x - l.x) {
          SmallMultiple(p, r.x - l.x);
        }
        PrimeCoprime(p, r.x - l.x);
        var inverse := Inverse(r.x - l.x, p).value;
        SlopeEquation(p, r.y - l.y, r.x - l.x, inverse);
        ChordOfSecant(c, l, r, Mod((r.y - l.y) * inverse, p));
        ThirdOnCurve(c, l, r, r.y - l.y, inverse);
      }
    }
  }

  // ---- group structure that follows from the code ----

  /** pointAdd without its exception, which never occurs on the curve. */
  function Sum(c: Curve, left: Option<Point>, right: Option<Point>): Option<Point>
    requires c.p > 1
  {
    var r := PointAdd(c, left, right);
    if r.Ok? then r.value else None
  }

  lemma AddCommutes(c: Curve, left: Option<Point>, right: Option<Point>)
    requires IsPrime(c.p) && OnCurve(c, left) && OnCurve(c, right)
    ensures PointAdd(c, left, right) == PointAdd(c, right, left)
  {
    if left.Some? && right.Some? {
      var l, r := left.value, right.value;
      if l.x == r.x {
        SameAbscissa(c, l, r);
      } else {
        SecantCommutes(c, l, r);
      }
    }
  }

  lemma SecantCommutes(c: Curve, l: Point, r: Point)
    requires IsPrime(c.p) && OnCurve(c, Some(l)) && OnCurve(c, Some(r)) && l.x != r.x
    ensures PointAdd(c, Some(l), Some(r)) == PointAdd(c, Some(r), Some(l))
  {
    var p := c.p;
    var d := r.x - l.x;
    if Zero(p, d) {
      SmallMultiple(p, d);
    }
    ZeroFlip(p, d);
    PrimeCoprime(p, d);
    PrimeCoprime(p, -d);
    assert l.x - r.x == -d && l.y - r.y == -(r.y - l.y);
    SlopesAgree(p, r.y - l.y, d, Inverse(d, p).value, Inverse(-d, p).value);
    OrdinatesAgree(p, l, r, Mod((r.y - l.y) * Inverse(d, p).value, p));
  }

  /** Swapping the points negates numerator and denominator, which leaves the slope. */
  lemma SlopesAgree(p: int, e: int, d: int, i: int, j: int)
    requires IsPrime(p) && !Zero(p, d) && (d * i) % p == 1 && (-d * j) % p == 1
    ensures Mod(e * i, p) == Mod(-e * j, p) && Cong(p, Mod(e * i, p) * d, e)
  {
    var s, t := Mod(e * i, p), Mod(-e * j, p);
    ModIsResidue(e * i, p);
    ModIsResidue(-e * j, p);
    SlopeEquation(p, e, d, i);
    SlopeEquation(p, -e, -d, j);
    SlopeDifference(s, t, e, d);
    ZeroAdd(p, s * d - e, t * -d - (-e));
    PrimeDividesProduct(p, s - t, d);
    SmallMultiple(p, s - t);
  }

  lemma SlopeDifference(s: int, t: int, e: int, d: int)
    ensures s * d - e + (t * -d - (-e)) == (s - t) * d
  {
    assert t * -d == -(t * d);
  }

  lemma OrdinatesAgree(p: int, l: Point, r: Point, s: int)
    requires p > 1 && Cong(p, s * (r.x - l.x), r.y - l.y)
    ensures var x := Mod(s * s - l.x - r.x, p);
            Mod(s * (l.x - x) - l.y, p) == Mod(s * (r.x - x) - r.y, p)
  {
    var x := Mod(s * s - l.x - r.x, p);
    assert (s * (l.x - x) - l.y) - (s * (r.x - x) - r.y) == -(s * (r.x - l.x) - (r.y - l.y)) by {
      assert s * (l.x - x) == s * l.x - s * x && s * (r.x - x) == s * r.x - s * x;
    }
    ZeroFlip(p, s * (r.x - l.x) - (r.y - l.y));
    ModIsResidue(s * (l.x - x) - l.y, p);
    ModIsResidue(s * (r.x - x) - r.y, p);
    CongIff(p, s * (l.x - x) - l.y, s * (r.x - x) - r.y);
  }

  lemma ZeroFlip(p: int, v: int)
    requires p > 0
    ensures Zero(p, v) <==> Zero(p, -v)
  {
    if Zero(p, v) {
      ZeroMul(p, v, -1);
    }
    if Zero(p, -v) {
      ZeroMul(p, -v, -1);
    }
  }

  /** The negated point is on the curve and cancels. */
  lemma NegateCancels(c: Curve, q: Option<Point>)
    requires IsPrime(c.p) && OnCurve(c, q)
    ensures OnCurve(c, PointNegate(c, q))
    ensures PointAdd(c, q, PointNegate(c, q)) == Ok(None)
  {
    if q.Some? {
      var p, x, y := c.p, q.value.x, q.value.y;
      ModIsResidue(-y, p);
      CongResidue(p, -y);
      CongSym(p, Mod(-y, p), -y);
      ZeroMultiple(p, 0);
      DefectCong(c, x, Mod(-y, p), x, -y);
      assert (-y) * (-y) == y * y;
      ModIsResidue(y + Mod(-y, p), p);
      assert Mod(-y, p) - (-y) == y + Mod(-y, p);
    }
  }

  // ---- scalar multiplication ----

  /** The curve's points under pointAdd. */
  function PointGroup(c: Curve): Op<Option<Point>>
    requires c.p > 1
  {
    Op(None, (x: Option<Point>, y: Option<Point>) => Sum(c, x, y), (q: Option<Point>) => OnCurve(c, q))
  }

  /** Closure, unit and commutativity follow from the code. */
  lemma PointGroupLaws(c: Curve)
    requires IsPrime(c.p)
    ensures Closed(PointGroup(c)) && Commutative(PointGroup(c))
  {
    var g := PointGroup(c);
    forall x, y | g.member(x) && g.member(y)
      ensures g.member(g.add(x, y)) && g.add(x, y) == g.add(y, x)
    {
      AddClosed(c, x, y);
      AddCommutes(c, x, y);
    }
  }

  /** The remaining iterations of pointMultiply's loop. */
  function DoubleAndAdd(c: Curve, amount: nat, result: Option<Point>, addend: Option<Point>): Result<Option<Point>>
    requires c.p > 1
  {
    if amount == 0 then Ok(result)
    else
      var next := if amount % 2 == 1 then PointAdd(c, result, addend) else Ok(result);
      var double := PointAdd(c, addend, addend);
      if next.Err? || double.Err? then Err
      else DoubleAndAdd(c, amount / 2, next.value, double.value)
  }

  function Multiply(c: Curve, scalar: int, q: Option<Point>): Result<Option<Point>>
    requires c.p > 1 && c.n > 0
  {
    DoubleAndAdd(c, scalar % c.n, None, q)
  }

  /** The client's pointMultiply. */
  method PointMultiply(c: Curve, scalar: int, point: Option<Point>) returns (r: Result<Option<Point>>)
    requires c.p > 1 && c.n > 0
    ensures r == Multiply(c, scalar, point)
    ensures IsPrime(c.p) && OnCurve(c, point) ==> r.Ok? && OnCurve(c, r.value)
    ensures IsPrime(c.p) && OnCurve(c, point) && Associative(PointGroup(c)) ==>
      r == Ok(Times(PointGroup(c), scalar % c.n, point))
  {
    ModIsResidue(scalar, c.n);
    if IsPrime(c.p) && OnCurve(c, point) {
      LoopClosed(c, scalar % c.n, None, point);
      if Associative(PointGroup(c)) {
        MultiplyIsTimes(c, scalar, point);
      }
    }
    var amount := Mod(scalar, c.n);
    var result, addend := None, point;
    while amount > 0
      invariant amount >= 0
      invariant Multiply(c, scalar, point) == DoubleAndAdd(c, amount, result, addend)
    {
      if amount % 2 == 1 {
        var added := PointAdd(c, result, addend);
        if added.Err? {
          return Err;
        }
        result := added.value;
      }
      var doubled := PointAdd(c, addend, addend);
      if doubled.Err? {
        return Err;
      }
      addend := doubled.value;
      amount := amount / 2;
    }
    return Ok(result);
  }

  lemma {:induction false} LoopClosed(c: Curve, amount: nat, result: Option<Point>, addend: Option<Point>)
    requires IsPrime(c.p) && OnCurve(c, result) && OnCurve(c, addend)
    ensures var r := DoubleAndAdd(c, amount, result, addend);
            r.Ok? && OnCurve(c, r.value)
  {
    if amount > 0 {
      AddClosed(c, result, addend);
      AddClosed(c, addend, addend);
      LoopClosed(c, amount / 2, if amount % 2 == 1 then Sum(c, result, addend) else result, Sum(c, addend, addend));
    }
  }

  /** Scalar multiplication of a curve point never throws and stays on the curve. */
  lemma MultiplyClosed(c: Curve, scalar: int, q: Option<Point>)
    requires IsPrime(c.p) && c.n > 0 && OnCurve(c, q)
    ensures Multiply(c, scalar, q).Ok? && OnCurve(c, Multiply(c, scalar, q).value)
  {
    LoopClosed(c, scalar % c.n, None, q);
  }

  /** Without exceptions the loop is double-and-add in the group of points. */
  lemma {:induction false} LoopInGroup(c: Curve, amount: nat, result: Option<Point>, addend: Option<Point>)
    requires IsPrime(c.p) && OnCurve(c, result) && OnCurve(c, addend)
    ensures DoubleAndAdd(c, amount, result, addend) == Ok(Group.DoubleAndAdd(PointGroup(c), amount, result, addend))
  {
    if amount > 0 {
      AddClosed(c, result, addend);
      AddClosed(c, addend, addend);
      LoopInGroup(c, amount / 2, if amount % 2 == 1 then Sum(c, result, addend) else result, Sum(c, addend, addend));
    }
  }

  /** Double-and-add is repeated addition of the reduced scalar, once addition is associative. */
  lemma MultiplyIsTimes(c: Curve, scalar: int, q: Option<Point>)
    requires IsPrime(c.p) && c.n > 0 && OnCurve(c, q) && Associative(PointGroup(c))
    ensures Multiply(c, scalar, q) == Ok(Times(PointGroup(c), scalar % c.n, q))
  {
    PointGroupLaws(c);
    LoopInGroup(c, scalar % c.n, None, q);
    DoubleAndAddIsTimes(PointGroup(c), scalar % c.n, None, q);
    TimesClosed(PointGroup(c), scalar % c.n, q);
  }

  // ---- SEC 1 encoding ----

  /** The client's encodePoint: 04, then both coordinates in 32 bytes. */
  function EncodePoint(q: Option<Point>): Result<seq<byte>> {
    if q.None? then Err
    else
      var x, y := BigintBytesOf(q.value.x, 32), BigintBytesOf(q.value.y, 32);
      if x.Err? || y.Err? then Err else Ok([4] + x.value + y.value)
  }

  /** The client's decodePoint. */
  function DecodePoint(c: Curve, bytes: seq<byte>): Result<Point>
    requires c.p > 0
  {
    if |bytes| != 65 || bytes[0] != 4 then Err
    else
      var x, y := FromBigEndian(bytes[1..33]), FromBigEndian(bytes[33..]);
      if x >= c.p || y >= c.p || Mod(Defect(c, x, y), c.p) != 0 then Err else Ok(Point(x, y))
  }

  /** Every finite curve point survives encoding, when the field fits 32 bytes. */
  lemma DecodeEncode(c: Curve, q: Point)
    requires 1 < c.p <= Pow256(32) && OnCurve(c, Some(q))
    ensures EncodePoint(Some(q)).Ok? && |EncodePoint(Some(q)).value| == 65
    ensures DecodePoint(c, EncodePoint(Some(q)).value) == Ok(q)
  {
    BytesExist(q.x, 32);
    BytesExist(q.y, 32);
    ModIsResidue(Defect(c, q.x, q.y), c.p);
    DecodeHalves(c, BigintBytesOf(q.x, 32).value, BigintBytesOf(q.y, 32).value);
  }

  lemma BytesExist(v: nat, n: nat)
    requires v < Pow256(n)
    ensures BigintBytesOf(v, n).Ok?
  {
  }

  /** What decodePoint makes of two 32-byte coordinates. */
  lemma DecodeHalves(c: Curve, x: seq<byte>, y: seq<byte>)
    requires c.p > 0 && |x| == |y| == 32
    ensures |[4] + x + y| == 65
    ensures var q := Point(FromBigEndian(x), FromBigEndian(y));
            DecodePoint(c, [4] + x + y)
            == if q.x >= c.p || q.y >= c.p || Mod(Defect(c, q.x, q.y), c.p) != 0 then Err else Ok(q)
  {
    Halves(x, y);
  }

  lemma Halves(x: seq<byte>, y: seq<byte>)
    requires |x| == |y| == 32
    ensures var b := [4] + x + y;
            |b| == 65 && b[0] == 4 && b[1..33] == x && b[33..] == y
  {
  }

  /** encodePoint undoes reading two 32-byte coordinates. */
  lemma EncodeHalves(x: seq<byte>, y: seq<byte>)
    requires |x| == |y| == 32
    ensures EncodePoint(Some(Point(FromBigEndian(x), FromBigEndian(y)))) == Ok([4] + x + y)
  {
    BytesOfValue(x);
    BytesOfValue(y);
  }

  lemma BytesOfValue(b: seq<byte>)
    ensures BigintBytesOf(FromBigEndian(b), |b|) == Ok(b)
  {
    ToBigEndianOfValue(b);
  }

  /** What decodes is a curve point, and only its own encoding decodes to it. */
  lemma EncodeDecode(c: Curve, bytes: seq<byte>)
    requires c.p > 1 && DecodePoint(c, bytes).Ok?
    ensures OnCurve(c, Some(DecodePoint(c, bytes).value))
    ensures EncodePoint(Some(DecodePoint(c, bytes).value)) == Ok(bytes)
  {
    var x, y := bytes[1..33], bytes[33..];
    assert bytes == [4] + x + y;
    ModIsResidue(Defect(c, FromBigEndian(x), FromBigEndian(y)), c.p);
    EncodeHalves(x, y);
  }
}
