/** pointAdd against the chord-and-tangent law, stated from the coordinates alone. */
module CurveLaw {
  import opened Collections
  import opened Bytes
  import opened Modular
  import opened Curve

  /** The last lines of pointAdd, cleared of the division by d. */
  lemma ThirdLaw(c: Curve, l: Point, r: Point, e: int, d: int, inverse: int)
    requires c.p > 1 && (d * inverse) % c.p == 1
    ensures var t := Third(c, l, r, e, Ok(inverse));
            && t.Ok? && t.value.Some?
            && 0 <= t.value.value.x < c.p && 0 <= t.value.value.y < c.p
            && Cong(c.p, (t.value.value.y + l.y) * d, e * (l.x - t.value.value.x))
            && Cong(c.p, (t.value.value.x + l.x + r.x) * d * d, e * e)
  {
    var p, s := c.p, Mod(e * inverse, c.p);
    var x := Mod(s * s - l.x - r.x, p);
    var y := Mod(s * (l.x - x) - l.y, p);
    SlopeEquation(p, e, d, inverse);
    Reduced(p, s * s - l.x - r.x);
    Reduced(p, s * (l.x - x) - l.y);
    Cleared(p, y + l.y, s * (l.x - x), l.x - x, s, d, e);
    ClearedTwice(p, x + l.x + r.x, s, d, e);
  }

  lemma Reduced(p: int, v: int)
    requires p > 1
    ensures 0 <= Mod(v, p) < p && Cong(p, Mod(v, p), v)
  {
    ModIsResidue(v, p);
    CongResidue(p, v);
  }

  lemma Cleared(p: int, u: int, v: int, w: int, s: int, d: int, e: int)
    requires p > 1 && Cong(p, u, v) && v == s * w && Cong(p, s * d, e)
    ensures Cong(p, u * d, e * w)
  {
    ZeroMultiple(p, 0);
    CongMul(p, u, v, d, d);
    CongMul(p, s * d, e, w, w);
    assert v * d == s * d * w;
    CongTrans(p, u * d, v * d, e * w);
  }

  lemma ClearedTwice(p: int, u: int, s: int, d: int, e: int)
    requires p > 1 && Cong(p, u, s * s) && Cong(p, s * d, e)
    ensures Cong(p, u * d * d, e * e)
  {
    ZeroMultiple(p, 0);
    CongMul(p, u, s * s, d * d, d * d);
    CongMul(p, s * d, e, s * d, e);
    assert u * (d * d) == u * d * d && s * s * (d * d) == s * d * (s * d);
    CongTrans(p, u * d * d, s * d * (s * d), e * e);
  }

  /** At most one reduced point solves the two equations. */
  lemma LawUnique(p: int, l: Point, rx: int, e: int, d: int, q: Point, q': Point)
    requires IsPrime(p) && !Zero(p, d)
    requires 0 <= q.x < p && 0 <= q.y < p && 0 <= q'.x < p && 0 <= q'.y < p
    requires Cong(p, (q.y + l.y) * d, e * (l.x - q.x)) && Cong(p, (q.x + l.x + rx) * d * d, e * e)
    requires Cong(p, (q'.y + l.y) * d, e * (l.x - q'.x)) && Cong(p, (q'.x + l.x + rx) * d * d, e * e)
    ensures q == q'
  {
    Cancel(p, (q.x + l.x + rx) * d, (q'.x + l.x + rx) * d, d, e * e);
    CancelOnce(p, q.x + l.x + rx, q'.x + l.x + rx, d);
    SmallMultiple(p, q.x - q'.x);
    Cancel(p, q.y + l.y, q'.y + l.y, d, e * (l.x - q.x));
    SmallMultiple(p, q.y - q'.y);
  }

  lemma Cancel(p: int, u: int, v: int, d: int, w: int)
    requires IsPrime(p) && !Zero(p, d) && Cong(p, u * d, w) && Cong(p, v * d, w)
    ensures Cong(p, u, v)
  {
    CongSym(p, v * d, w);
    CongTrans(p, u * d, w, v * d);
    CancelOnce(p, u, v, d);
  }

  lemma CancelOnce(p: int, u: int, v: int, d: int)
    requires IsPrime(p) && !Zero(p, d) && Cong(p, u * d, v * d)
    ensures Cong(p, u, v)
  {
    assert u * d - v * d == (u - v) * d;
    PrimeDividesProduct(p, u - v, d);
  }

  /** Points with one abscissa and opposite ordinates add to infinity, and on the curve no others do. */
  lemma VerticalLaw(c: Curve, l: Point, r: Point)
    requires IsPrime(c.p) && OnCurve(c, Some(l)) && OnCurve(c, Some(r))
    ensures PointAdd(c, Some(l), Some(r)) == Ok(None) <==> l.x == r.x && (l.y + r.y) % c.p == 0
    ensures PointAdd(c, Some(l), None) == PointAdd(c, None, Some(l)) == Ok(Some(l))
  {
    ModIsResidue(l.y + r.y, c.p);
    AddClosed(c, Some(l), Some(r));
  }

  /**
   Two curve points of different abscissas add to q exactly when q, reflected, lies on the
   line through them and the three abscissas sum to the square of its slope.
   */
  lemma ChordLaw(c: Curve, l: Point, r: Point, q: Point)
    requires IsPrime(c.p) && OnCurve(c, Some(l)) && OnCurve(c, Some(r)) && l.x != r.x
    requires 0 <= q.x < c.p && 0 <= q.y < c.p
    ensures PointAdd(c, Some(l), Some(r)) == Ok(Some(q)) <==>
            && Cong(c.p, (q.y + l.y) * (r.x - l.x), (r.y - l.y) * (l.x - q.x))
            && Cong(c.p, (q.x + l.x + r.x) * (r.x - l.x) * (r.x - l.x), (r.y - l.y) * (r.y - l.y))
  {
    var p, d, e := c.p, r.x - l.x, r.y - l.y;
    if Zero(p, d) {
      SmallMultiple(p, d);
    }
    PrimeCoprime(p, d);
    LawDecides(c, l, r, e, d, q);
  }

  /** A curve point doubles to q by the same two equations for the tangent, unless its double is infinity. */
  lemma TangentLaw(c: Curve, l: Point, q: Point)
    requires IsPrime(c.p) && OnCurve(c, Some(l)) && 2 * l.y % c.p != 0
    requires 0 <= q.x < c.p && 0 <= q.y < c.p
    ensures PointAdd(c, Some(l), Some(l)) == Ok(Some(q)) <==>
            && Cong(c.p, (q.y + l.y) * (2 * l.y), (3 * l.x * l.x + c.a) * (l.x - q.x))
            && Cong(c.p, (q.x + l.x + l.x) * (2 * l.y) * (2 * l.y),
                    (3 * l.x * l.x + c.a) * (3 * l.x * l.x + c.a))
  {
    PrimeCoprime(c.p, 2 * l.y);
    ModIsResidue(l.y + l.y, c.p);
    assert l.y + l.y == 2 * l.y;
    LawDecides(c, l, l, 3 * l.x * l.x + c.a, 2 * l.y, q);
  }

  lemma LawDecides(c: Curve, l: Point, r: Point, e: int, d: int, q: Point)
    requires IsPrime(c.p) && !Zero(c.p, d) && Gcd(d % c.p, c.p) == 1
    requires 0 <= q.x < c.p && 0 <= q.y < c.p
    ensures Third(c, l, r, e, Inverse(d, c.p)) == Ok(Some(q)) <==>
            && Cong(c.p, (q.y + l.y) * d, e * (l.x - q.x))
            && Cong(c.p, (q.x + l.x + r.x) * d * d, e * e)
  {
    var inverse := Inverse(d, c.p).value;
    ThirdLaw(c, l, r, e, d, inverse);
    var t := Third(c, l, r, e, Ok(inverse)).value.value;
    if Cong(c.p, (q.y + l.y) * d, e * (l.x - q.x)) && Cong(c.p, (q.x + l.x + r.x) * d * d, e * e) {
      LawUnique(c.p, l, r.x, e, d, q, t);
    }
  }
}
