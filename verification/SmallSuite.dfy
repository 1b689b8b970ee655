/** The hypotheses of the exchange can be met: a suite over a group of order five. */
module SmallSuite {
  import opened Collections
  import opened Bytes
  import opened Modular
  import opened Group
  import opened Curve
  import opened CurveLaw
  import opened Spake2

  /** y^2 = x^3 + 4x + 1 modulo 7 has five points. */
  const SMALL := Curve(7, 4, 1, 5)

  /** The k-th multiple of (0, 1). */
  function SmallMultiple(k: nat): Option<Point> {
    if k == 1 then Some(Point(0, 1))
    else if k == 2 then Some(Point(4, 5))
    else if k == 3 then Some(Point(4, 2))
    else if k == 4 then Some(Point(0, 6))
    else None
  }

  lemma SmallField()
    ensures IsPrime(7)
    ensures forall k: nat :: OnCurve(SMALL, SmallMultiple(k))
  {
    SmallPrime();
  }

  lemma SmallPrime()
    ensures IsPrime(7)
  {
  }

  lemma SmallDefect(x: int, y: int)
    requires 0 <= x < 7 && 0 <= y < 7 && (y * y - (x * x * x + 4 * x + 1)) % 7 == 0
    ensures (x == 0 && (y == 1 || y == 6)) || (x == 4 && (y == 2 || y == 5))
  {
    assert x * x * x == [0, 1, 8, 27, 64, 125, 216][x];
    assert y * y == [0, 1, 4, 9, 16, 25, 36][y];
  }

  lemma SmallPoint(q: Option<Point>) returns (k: nat)
    ensures OnCurve(SMALL, q) ==> k < 5 && q == SmallMultiple(k)
  {
    k := 0;
    if q.Some? && OnCurve(SMALL, q) {
      assert Defect(SMALL, q.value.x, q.value.y)
          == q.value.y * q.value.y - (q.value.x * q.value.x * q.value.x + 4 * q.value.x + 1);
      SmallDefect(q.value.x, q.value.y);
      k := if q.value.x == 0 then if q.value.y == 1 then 1 else 4 else if q.value.y == 5 then 2 else 3;
    }
  }

  /** The equations for the sum q on a line of slope e / d. */
  predicate MeetsAt(p: int, l: Point, r: Point, q: Point, e: int, d: int)
    requires p > 1
  {
    && d != 0 && d % p != 0 && 0 <= q.x < p && 0 <= q.y < p
    && Cong(p, (q.y + l.y) * d, e * (l.x - q.x)) && Cong(p, (q.x + l.x + r.x) * d * d, e * e)
  }

  /** The line is the tangent at l, or the chord through l and r. */
  predicate LineLaw(c: Curve, l: Point, r: Point, q: Point)
    requires c.p > 1
  {
    if l == r then MeetsAt(c.p, l, l, q, 3 * l.x * l.x + c.a, 2 * l.y)
    else MeetsAt(c.p, l, r, q, r.y - l.y, r.x - l.x)
  }

  predicate Opposite(c: Curve, l: Point, r: Point)
    requires c.p > 1
  {
    l.x == r.x && (l.y + r.y) % c.p == 0
  }

  lemma LineAdds(c: Curve, l: Point, r: Point, q: Point)
    requires IsPrime(c.p) && OnCurve(c, Some(l)) && OnCurve(c, Some(r)) && LineLaw(c, l, r, q)
    ensures Sum(c, Some(l), Some(r)) == Some(q)
  {
    if l == r {
      TangentAdds(c, l, q, 3 * l.x * l.x + c.a, 2 * l.y);
    } else {
      ChordAdds(c, l, r, q, r.y - l.y, r.x - l.x);
    }
  }

  lemma TangentAdds(c: Curve, l: Point, q: Point, e: int, d: int)
    requires IsPrime(c.p) && OnCurve(c, Some(l)) && e == 3 * l.x * l.x + c.a && d == 2 * l.y
    requires MeetsAt(c.p, l, l, q, e, d)
    ensures Sum(c, Some(l), Some(l)) == Some(q)
  {
    TangentLaw(c, l, q);
  }

  lemma ChordAdds(c: Curve, l: Point, r: Point, q: Point, e: int, d: int)
    requires IsPrime(c.p) && OnCurve(c, Some(l)) && OnCurve(c, Some(r)) && e == r.y - l.y && d == r.x - l.x
    requires MeetsAt(c.p, l, r, q, e, d)
    ensures Sum(c, Some(l), Some(r)) == Some(q)
  {
    ChordLaw(c, l, r, q);
  }

  lemma OppositesVanish(c: Curve, l: Point, r: Point)
    requires IsPrime(c.p) && OnCurve(c, Some(l)) && OnCurve(c, Some(r)) && Opposite(c, l, r)
    ensures Sum(c, Some(l), Some(r)) == None
  {
    VerticalLaw(c, l, r);
  }

  /** What the chord-and-tangent law says of an addition. */
  ghost predicate Lawful(c: Curve, add: (Option<Point>, Option<Point>) -> Option<Point>)
    requires c.p > 1
  {
    && (forall x :: add(None, x) == x && add(x, None) == x)
    && (forall l, r, q {:trigger LineLaw(c, l, r, q)} ::
          OnCurve(c, Some(l)) && OnCurve(c, Some(r)) && LineLaw(c, l, r, q) ==> add(Some(l), Some(r)) == Some(q))
    && (forall l, r {:trigger Opposite(c, l, r)} ::
          OnCurve(c, Some(l)) && OnCurve(c, Some(r)) && Opposite(c, l, r) ==> add(Some(l), Some(r)) == None)
  }

  lemma SumIsLawful(c: Curve)
    requires IsPrime(c.p)
    ensures Lawful(c, PointGroup(c).add)
  {
    forall l, r, q | OnCurve(c, Some(l)) && OnCurve(c, Some(r)) && LineLaw(c, l, r, q)
      ensures Sum(c, Some(l), Some(r)) == Some(q)
    {
      LineAdds(c, l, r, q);
    }
    forall l, r | OnCurve(c, Some(l)) && OnCurve(c, Some(r)) && Opposite(c, l, r)
      ensures Sum(c, Some(l), Some(r)) == None
    {
      OppositesVanish(c, l, r);
    }
  }

  lemma SmallNumbers()
    ensures LineLaw(SMALL, Point(0, 1), Point(0, 1), Point(4, 5))
    ensures LineLaw(SMALL, Point(0, 1), Point(4, 5), Point(4, 2))
    ensures LineLaw(SMALL, Point(0, 1), Point(4, 2), Point(0, 6))
    ensures Opposite(SMALL, Point(0, 1), Point(0, 6))
    ensures LineLaw(SMALL, Point(4, 5), Point(0, 1), Point(4, 2))
    ensures LineLaw(SMALL, Point(4, 5), Point(4, 5), Point(0, 6))
    ensures Opposite(SMALL, Point(4, 5), Point(4, 2))
    ensures LineLaw(SMALL, Point(4, 5), Point(0, 6), Point(0, 1))
  {
  }

  lemma ThirdNumbers()
    ensures LineLaw(SMALL, Point(4, 2), Point(0, 1), Point(0, 6))
    ensures Opposite(SMALL, Point(4, 2), Point(4, 5))
    ensures LineLaw(SMALL, Point(4, 2), Point(4, 2), Point(0, 1))
    ensures LineLaw(SMALL, Point(4, 2), Point(0, 6), Point(4, 5))
  {
  }

  lemma FourthNumbers()
    ensures Opposite(SMALL, Point(0, 6), Point(0, 1))
    ensures LineLaw(SMALL, Point(0, 6), Point(4, 5), Point(0, 1))
    ensures LineLaw(SMALL, Point(0, 6), Point(4, 2), Point(4, 5))
    ensures LineLaw(SMALL, Point(0, 6), Point(0, 6), Point(4, 2))
  {
  }

  lemma SmallMembers()
    ensures OnCurve(SMALL, Some(Point(0, 1)))
    ensures OnCurve(SMALL, Some(Point(4, 5)))
    ensures OnCurve(SMALL, Some(Point(4, 2)))
    ensures OnCurve(SMALL, Some(Point(0, 6)))
  {
  }

  /** Tangents and chords of the four points. */
  ghost predicate SmallTable(add: (Option<Point>, Option<Point>) -> Option<Point>) {
    && (forall x :: add(None, x) == x && add(x, None) == x)
    && add(Some(Point(0, 1)), Some(Point(0, 1))) == Some(Point(4, 5))
    && add(Some(Point(0, 1)), Some(Point(4, 5))) == Some(Point(4, 2))
    && add(Some(Point(0, 1)), Some(Point(4, 2))) == Some(Point(0, 6))
    && add(Some(Point(0, 1)), Some(Point(0, 6))) == None
    && add(Some(Point(4, 5)), Some(Point(0, 1))) == Some(Point(4, 2))
    && add(Some(Point(4, 5)), Some(Point(4, 5))) == Some(Point(0, 6))
    && add(Some(Point(4, 5)), Some(Point(4, 2))) == None
    && add(Some(Point(4, 5)), Some(Point(0, 6))) == Some(Point(0, 1))
    && add(Some(Point(4, 2)), Some(Point(0, 1))) == Some(Point(0, 6))
    && add(Some(Point(4, 2)), Some(Point(4, 5))) == None
    && add(Some(Point(4, 2)), Some(Point(4, 2))) == Some(Point(0, 1))
    && add(Some(Point(4, 2)), Some(Point(0, 6))) == Some(Point(4, 5))
    && add(Some(Point(0, 6)), Some(Point(0, 1))) == None
    && add(Some(Point(0, 6)), Some(Point(4, 5))) == Some(Point(0, 1))
    && add(Some(Point(0, 6)), Some(Point(4, 2))) == Some(Point(4, 5))
    && add(Some(Point(0, 6)), Some(Point(0, 6))) == Some(Point(4, 2))
  }

  lemma SmallRows(add: (Option<Point>, Option<Point>) -> Option<Point>)
    requires Lawful(SMALL, add)
    ensures add(Some(Point(0, 1)), Some(Point(0, 1))) == Some(Point(4, 5))
    ensures add(Some(Point(0, 1)), Some(Point(4, 5))) == Some(Point(4, 2))
    ensures add(Some(Point(0, 1)), Some(Point(4, 2))) == Some(Point(0, 6))
    ensures add(Some(Point(0, 1)), Some(Point(0, 6))) == None
    ensures add(Some(Point(4, 5)), Some(Point(0, 1))) == Some(Point(4, 2))
    ensures add(Some(Point(4, 5)), Some(Point(4, 5))) == Some(Point(0, 6))
    ensures add(Some(Point(4, 5)), Some(Point(4, 2))) == None
    ensures add(Some(Point(4, 5)), Some(Point(0, 6))) == Some(Point(0, 1))
  {
    SmallMembers();
    SmallNumbers();
  }

  lemma MoreRows(add: (Option<Point>, Option<Point>) -> Option<Point>)
    requires Lawful(SMALL, add)
    ensures add(Some(Point(4, 2)), Some(Point(0, 1))) == Some(Point(0, 6))
    ensures add(Some(Point(4, 2)), Some(Point(4, 5))) == None
    ensures add(Some(Point(4, 2)), Some(Point(4, 2))) == Some(Point(0, 1))
    ensures add(Some(Point(4, 2)), Some(Point(0, 6))) == Some(Point(4, 5))
    ensures add(Some(Point(0, 6)), Some(Point(0, 1))) == None
    ensures add(Some(Point(0, 6)), Some(Point(4, 5))) == Some(Point(0, 1))
    ensures add(Some(Point(0, 6)), Some(Point(4, 2))) == Some(Point(4, 5))
    ensures add(Some(Point(0, 6)), Some(Point(0, 6))) == Some(Point(4, 2))
  {
    SmallMembers();
    ThirdNumbers();
    FourthNumbers();
  }

  lemma SmallAddsUp(add: (Option<Point>, Option<Point>) -> Option<Point>)
    requires Lawful(SMALL, add)
    ensures SmallTable(add)
  {
    SmallRows(add);
    MoreRows(add);
  }

  /** The points form the cyclic group of order five, through tangents and chords. */
  lemma SmallSum(add: (Option<Point>, Option<Point>) -> Option<Point>, i: nat, j: nat)
    requires SmallTable(add) && i < 5 && j < 5
    ensures add(SmallMultiple(i), SmallMultiple(j)) == SmallMultiple((i + j) % 5)
  {
  }

  lemma SmallTriple(add: (Option<Point>, Option<Point>) -> Option<Point>, i: nat, j: nat, k: nat)
    requires SmallTable(add) && i < 5 && j < 5 && k < 5
    ensures add(add(SmallMultiple(i), SmallMultiple(j)), SmallMultiple(k))
         == add(SmallMultiple(i), add(SmallMultiple(j), SmallMultiple(k)))
  {
    ResidueSum(i, j, k);
    SmallSum(add, i, j);
    SmallSum(add, j, k);
    SmallSum(add, (i + j) % 5, k);
    SmallSum(add, i, (j + k) % 5);
  }

  lemma ResidueSum(i: nat, j: nat, k: nat)
    ensures ((i + j) % 5 + k) % 5 == (i + (j + k) % 5) % 5
  {
  }

  lemma SmallAssociative()
    ensures Associative(PointGroup(SMALL))
  {
    var g := PointGroup(SMALL);
    SmallField();
    SumIsLawful(SMALL);
    SmallAddsUp(g.add);
    forall x, y, z
      ensures AssociativeAt(g, x, y, z)
    {
      if g.member(x) && g.member(y) && g.member(z) {
        var i := SmallPoint(x);
        var j := SmallPoint(y);
        var k := SmallPoint(z);
        SmallTriple(g.add, i, j, k);
      }
    }
  }

  lemma SmallSized(s: Suite)
    requires s.curve.p == 7 && s.curve.n == 5
    ensures WellSized(s)
  {
    assert 0x1_0000 <= Pow256(32);
  }

  /** The hypotheses are consistent: a small suite with three different points meets them all. */
  lemma SoundIsPossible(s: Suite)
    requires s.curve == SMALL && s.g == Point(0, 1) && s.m == Point(4, 5) && s.maskN == Point(4, 2)
    ensures Sound(s)
  {
    SmallSized(s);
    SmallField();
    assert SmallMultiple(1) == Some(s.g) && SmallMultiple(2) == Some(s.m) && SmallMultiple(3) == Some(s.maskN);
    SmallAssociative();
  }
}
