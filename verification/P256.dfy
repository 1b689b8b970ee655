/** The constants of the web client's curve, and its decoding of compressed points. */
module P256 {
  import opened Collections
  import opened Bytes
  import opened Modular
  import opened Curve
  import opened CurveLaw
  import opened Group
  import Spake2

  const P := 0xffffffff00000001000000000000000000000000ffffffffffffffffffffffff
  const A := P - 3
  const B := 0x5ac635d8aa3a93e7b3ebbd55769886bc651d06b0cc53b0f63bce3c3e27d2604b
  const N := 0xffffffff00000000ffffffffffffffffbce6faada7179e84f3b9cac2fc632551
  const CURVE := Curve(P, A, B, N)
  const G := Point(
    0x6b17d1f2e12c4247f8bce6e563a440f277037d812deb33a0f4a13945d898c296,
    0x4fe342e2fe1a7f9b8ee7eb4a7c0f9e162bce33576b315ececbb6406837bf51f5)

  // Abscissas of the two SPAKE2 masks, and an ordinate of each.
  const MX := 0x886e2f97ace46e55ba9dd7242579f2993b64e16ef3dcab95afd497333d8fa12f
  const MY := 0x5ff355163e43ce224e0b0e65ff02ac8e5c7be09419c785e0ca547d55a12e2d20
  const NX := 0xd8bbd6c639c62937b04d997f38c3770719c629d7014d49a24b4f98baa1292b49
  const NY := 0x7d60aa6bfade45008a636337f5168c64d9bd36034808cd564490b1e656edbe7

  /** The right-hand side of the curve equation. */
  function YSquared(c: Curve, x: int): int {
    x * x * x + c.a * x + c.b
  }

  /** The candidate root, before its parity is adjusted. */
  function Root(c: Curve, x: int): int
    requires c.p > 2
  {
    Pow(YSquared(c, x) % c.p, (c.p + 1) / 4) % c.p
  }

  function FirstByte(bytes: seq<byte>): byte {
    if bytes == [] then 0 else bytes[0]
  }

  /** What decodeCompressed returns, for any byte string. */
  function Compressed(c: Curve, bytes: seq<byte>): Point
    requires c.p > 2
  {
    var x := FromBigEndian(if bytes == [] then [] else bytes[1..]);
    var y := Root(c, x);
    Point(x, if y % 2 != FirstByte(bytes) % 2 then c.p - y else y)
  }

  /** The client's decodeCompressed. */
  method DecodeCompressed(c: Curve, bytes: seq<byte>) returns (q: Point)
    requires c.p > 2
    ensures q == Compressed(c, bytes)
  {
    var x := BigintFromBytes(if bytes == [] then [] else bytes[1..]);
    ModIsResidue(YSquared(c, x), c.p);
    var ySquared := Mod(x * x * x + c.a * x + c.b, c.p);
    var y := ModPow(ySquared, (c.p + 1) / 4, c.p);
    var odd := y % 2;
    if odd != FirstByte(bytes) % 2 {
      y := c.p - y;
    }
    return Point(x, y);
  }

  /**
   Over a prime that is 3 modulo 4 the decoded ordinate has the prefix's parity, and it
   solves the curve equation exactly when the equation has a solution at that abscissa.
   It is reduced unless the right-hand side is divisible by P and the prefix is odd: then it is P.
   */
  lemma CompressedOnCurve(c: Curve, bytes: seq<byte>)
    requires IsPrime(c.p) && c.p % 4 == 3
    ensures var q := Compressed(c, bytes);
            && q.y % 2 == FirstByte(bytes) % 2
            && (Zero(c.p, Defect(c, q.x, q.y)) <==> IsSquare(c.p, YSquared(c, q.x)))
            && 0 <= q.y <= c.p
            && (q.y == c.p <==> YSquared(c, q.x) % c.p == 0 && FirstByte(bytes) % 2 == 1)
  {
    var x := FromBigEndian(if bytes == [] then [] else bytes[1..]);
    RootIsZero(c, x);
    RootDefect(c, x);
    NegatedDefect(c, x, Root(c, x));
    RootParity(c.p, Root(c, x), FirstByte(bytes));
  }

  /** The computed root is 0 exactly at the abscissas where the curve crosses the axis. */
  lemma RootIsZero(c: Curve, x: int)
    requires IsPrime(c.p) && c.p % 4 == 3
    ensures Root(c, x) == 0 <==> YSquared(c, x) % c.p == 0
  {
    PowerIsZero(c.p, YSquared(c, x) % c.p, (c.p + 1) / 4);
  }

  lemma PowerIsZero(p: int, v: int, e: nat)
    requires IsPrime(p) && 0 <= v < p && e > 0
    ensures Pow(v, e) % p == 0 <==> v == 0
  {
    if Zero(p, Pow(v, e)) {
      PowerHasFactor(p, v, e);
    }
  }

  /** A prime that divides a power divides its base. */
  lemma {:induction false} PowerHasFactor(p: int, v: int, e: nat)
    requires IsPrime(p) && Zero(p, Pow(v, e))
    ensures Zero(p, v)
  {
    if e > 0 {
      PrimeDividesProduct(p, v, Pow(v, e - 1));
      if !Zero(p, v) {
        PowerHasFactor(p, v, e - 1);
      }
    }
  }

  lemma RootParity(p: int, y: int, prefix: byte)
    requires p % 4 == 3 && 0 <= y < p
    ensures var adjusted := if y % 2 != prefix % 2 then p - y else y;
            adjusted % 2 == prefix % 2 && 0 <= adjusted <= p && (adjusted == p <==> y == 0 && prefix % 2 == 1)
  {
    OddComplement(p, y);
  }

  lemma OddComplement(p: int, y: int)
    requires p % 4 == 3
    ensures (p - y) % 2 != y % 2
  {
  }

  /** The root solves the equation exactly when there is a solution. */
  lemma RootDefect(c: Curve, x: int)
    requires IsPrime(c.p) && c.p % 4 == 3
    ensures Zero(c.p, Defect(c, x, Root(c, x))) <==> IsSquare(c.p, YSquared(c, x))
  {
    var p, v, y := c.p, YSquared(c, x), Root(c, x);
    ResidueIdempotent(v, p);
    SquareRoot(p, v % p, y);
    SquareClass(p, v);
    CongIff(p, y * y, v);
    assert Defect(c, x, y) == y * y - v;
  }

  /** P - y lies on the curve when y does. */
  lemma NegatedDefect(c: Curve, x: int, y: int)
    requires c.p > 1
    ensures Zero(c.p, Defect(c, x, c.p - y)) <==> Zero(c.p, Defect(c, x, y))
  {
    ZeroMultiple(c.p, 1);
    ZeroMultiple(c.p, 0);
    assert (c.p - y) - (-y) == c.p * 1;
    DefectCong(c, x, c.p - y, x, -y);
    assert (-y) * (-y) == y * y;
  }

  lemma ResidueIdempotent(v: int, p: int)
    requires p > 0
    ensures (v % p) % p == v % p
  {
  }

  /** Being a square depends on the residue only. */
  lemma SquareClass(p: int, v: int)
    requires p > 0
    ensures IsSquare(p, v % p) <==> IsSquare(p, v)
  {
    ResidueIdempotent(v, p);
    if b :| IsRoot(p, v, b) {
      assert IsRoot(p, v % p, b);
    }
    if b :| IsRoot(p, v % p, b) {
      assert IsRoot(p, v, b);
    }
  }

  lemma ConstantsFit()
    ensures P < Pow256(32) && P % 4 == 3 && 0 < N < P
  {
    assert Pow256(8) == 0x1_0000000000000000;
    assert Pow256(16) == 0x1_0000000000000000_0000000000000000;
    assert Pow256(24) == 0x1_0000000000000000_0000000000000000_0000000000000000;
  }

  /** N is as far from P + 1 as the order of a curve over this field can be at most. */
  lemma OrderIsNear()
    ensures (P + 1 - N) * (P + 1 - N) <= 4 * P
  {
  }

  lemma GeneratorOnCurve()
    ensures OnCurve(CURVE, Some(G))
  {
  }

  // Twice and three times the generator.
  const G2 := Point(
    0x7cf27b188d034f7e8a52380304b51ac3c08969e277f21b35a60b48fc47669978,
    0x07775510db8ed040293d9ac69f7430dbba7dade63ce982299e04b79d227873d1)
  const G3 := Point(
    0x5ecbe4d1a6330a44c8f7ef951d4bf165e6c6b721efada985fb41661bc6e7fd6c,
    0x8734640c4998ff7e374b06ce1a64a2ecd82ab036384fb83d9a79b127a27d5032)

  /** pointAdd on the curve's own numbers: a tangent, then a chord. */
  lemma GeneratorMultiples()
    requires IsPrime(P)
    ensures PointAdd(CURVE, Some(G), Some(G)) == Ok(Some(G2))
    ensures PointAdd(CURVE, Some(G2), Some(G)) == Ok(Some(G3))
  {
    TangentNumbers();
    TangentLaw(CURVE, G, G2);
    ChordNumbers();
    ChordLaw(CURVE, G2, G, G3);
  }

  lemma TangentNumbers()
    ensures OnCurve(CURVE, Some(G)) && 2 * G.y % P != 0 && 0 <= G2.x < P && 0 <= G2.y < P
    ensures Cong(P, (G2.y + G.y) * (2 * G.y), (3 * G.x * G.x + A) * (G.x - G2.x))
    ensures Cong(P, (G2.x + G.x + G.x) * (2 * G.y) * (2 * G.y), (3 * G.x * G.x + A) * (3 * G.x * G.x + A))
  {
  }

  lemma ChordNumbers()
    ensures OnCurve(CURVE, Some(G)) && OnCurve(CURVE, Some(G2)) && G2.x != G.x && 0 <= G3.x < P && 0 <= G3.y < P
    ensures Cong(P, (G3.y + G2.y) * (G.x - G2.x), (G.y - G2.y) * (G2.x - G3.x))
    ensures Cong(P, (G3.x + G2.x + G.x) * (G.x - G2.x) * (G.x - G2.x), (G.y - G2.y) * (G.y - G2.y))
  {
  }

  function MaskMBytes(): seq<byte> {
    ConstantsFit();
    [0x02] + ToBigEndian(MX, 32)
  }

  function MaskNBytes(): seq<byte> {
    ConstantsFit();
    [0x03] + ToBigEndian(NX, 32)
  }

  /** If P is prime, both masks of RFC 9382 decode to points of the curve. */
  lemma MasksOnCurve()
    requires IsPrime(P)
    ensures OnCurve(CURVE, Some(Compressed(CURVE, MaskMBytes())))
    ensures OnCurve(CURVE, Some(Compressed(CURVE, MaskNBytes())))
  {
    ConstantsFit();
    assert MaskMBytes()[1..] == ToBigEndian(MX, 32) && MaskNBytes()[1..] == ToBigEndian(NX, 32);
    MaskRoots();
    MaskDecodes(MaskMBytes(), MX, MY);
    MaskDecodes(MaskNBytes(), NX, NY);
  }

  /** The abscissas are below P, and each has the stated ordinate. */
  lemma MaskRoots()
    ensures 0 <= MX < P && IsRoot(P, YSquared(CURVE, MX), MY) && YSquared(CURVE, MX) % P != 0
    ensures 0 <= NX < P && IsRoot(P, YSquared(CURVE, NX), NY) && YSquared(CURVE, NX) % P != 0
  {
    EquationWitness(MX, MY,
      0x26bf9675d938f5da0485c33c012a52b0c2cdd90499e8e2b115acac4d0b02f9bbeed7c39536c8ef3c2fef7688bdc079f0321c0b554fa16cd298fedabe0652edde,
      0x23f680714aaecf6fbb73cc3264debbbd122e2302acc517bc89f6e18e4155ddfc,
      0x71240212b4744c9e686856d4457029046c8fcda2c022b14c2d2d35e4c0ca21fc);
    EquationWitness(NX, NY,
      0x9b588a38e49b43de9710dc057efb86f5fefc87a2be348bf6fda550e7fa37f5abf4b0459f30a339587735040dd52ddd65eba70b3f4e41aad7004a2fd75f68960c,
      0x3d678aedf2d457bedc42ec40756d199172c824729e7f631d71c8a485de7f5b,
      0xea2f4fb1b9cffd8d02ba279ba9e58170818b5d4853ad2b227441d64e834789cc);
  }

  /** Both sides of the equation leave the remainder r. */
  lemma EquationWitness(x: int, y: int, q: int, k: int, r: int)
    requires 0 < r < P && x * x * x + A * x + B == q * P + r && y * y == k * P + r
    ensures IsRoot(P, YSquared(CURVE, x), y) && YSquared(CURVE, x) % P != 0
  {
    ModUnique(y * y, k, r, P);
    ModUnique(YSquared(CURVE, x), q, r, P);
  }

  lemma MaskDecodes(bytes: seq<byte>, x: int, y: int)
    requires IsPrime(P) && |bytes| == 33 && FromBigEndian(bytes[1..]) == x
    requires 0 <= x < P && IsRoot(P, YSquared(CURVE, x), y) && YSquared(CURVE, x) % P != 0
    ensures OnCurve(CURVE, Some(Compressed(CURVE, bytes)))
  {
    ConstantsFit();
    CompressedOnCurve(CURVE, bytes);
  }

  /** The suite the client fixes at load time. */
  function ClientSuite(): Spake2.Suite {
    ConstantsFit();
    Spake2.Suite(CURVE, G, Compressed(CURVE, MaskMBytes()), Compressed(CURVE, MaskNBytes()))
  }

  /** So the agreement of Spake2 applies to P-256 under two hypotheses only. */
  lemma ClientSuiteSound()
    requires IsPrime(P) && Associative(PointGroup(CURVE))
    ensures Spake2.Sound(ClientSuite())
  {
    ConstantsFit();
    GeneratorOnCurve();
    MasksOnCurve();
  }
}
