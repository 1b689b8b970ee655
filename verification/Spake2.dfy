/** The SPAKE2 exchange of the web client (RFC 9382, sections 3.3 and 4). */
module Spake2 {
  import opened Collections
  import opened Bytes
  import opened Modular
  import opened Group
  import opened Curve

  type Digest = s: seq<byte> | |s| == 32 witness seq(32, i => 0)

  /** SHA-256 and HMAC-SHA-256, which the proofs do not look into. */
  datatype Hashes = Hashes(sha256: seq<byte> -> Digest, hmac: (seq<byte>, seq<byte>) -> Digest)

  /** "ConfirmationKeys" */
  const CONFIRMATION_LABEL: seq<byte> := [67, 111, 110, 102, 105, 114, 109, 97, 116, 105, 111, 110, 75, 101, 121, 115]

  /** A curve with the generator G and the two password masks. */
  datatype Suite = Suite(curve: Curve, g: Point, m: Point, maskN: Point)

  datatype PakeKeys = PakeKeys(transcript: seq<byte>, sharedKey: seq<byte>, confirmA: seq<byte>, confirmB: seq<byte>)

  predicate WellSized(s: Suite) {
    1 < s.curve.p <= Pow256(32) && 0 < s.curve.n <= Pow256(32)
  }

  /** The stated hypotheses: a prime field, the three points on the curve, and associativity. */
  ghost predicate Sound(s: Suite) {
    && WellSized(s)
    && IsPrime(s.curve.p)
    && OnCurve(s.curve, Some(s.g)) && OnCurve(s.curve, Some(s.m)) && OnCurve(s.curve, Some(s.maskN))
    && Associative(PointGroup(s.curve))
  }

  function OwnMask(s: Suite, isA: bool): Point {
    if isA then s.m else s.maskN
  }

  /** The point the constructor sends. */
  function Blinded(s: Suite, isA: bool, password: int, secret: int): Result<Option<Point>>
    requires WellSized(s)
  {
    var own := Multiply(s.curve, secret, Some(s.g));
    var mask := Multiply(s.curve, password, Some(OwnMask(s, isA)));
    if own.Err? || mask.Err? then Err else PointAdd(s.curve, own.value, mask.value)
  }

  function Message(s: Suite, isA: bool, password: int, secret: int): Result<seq<byte>>
    requires WellSized(s)
  {
    var point := Blinded(s, isA, password, secret);
    if point.Err? then Err else EncodePoint(point.value)
  }

  /** The shared point, from the peer's message. */
  function SharedPoint(s: Suite, isA: bool, password: int, secret: int, peerBytes: seq<byte>): Result<Option<Point>>
    requires WellSized(s)
  {
    var peer := DecodePoint(s.curve, peerBytes);
    var mask := Multiply(s.curve, password, Some(OwnMask(s, !isA)));
    if peer.Err? || mask.Err? then Err
    else
      var unmasked := PointAdd(s.curve, Some(peer.value), PointNegate(s.curve, mask.value));
      if unmasked.Err? then Err else Multiply(s.curve, secret, unmasked.value)
  }

  /** Each field preceded by its length in eight little-endian bytes. */
  function Transcript(fields: seq<seq<byte>>): seq<byte> {
    if fields == [] then [] else Uint64LE(|fields[0]|) + fields[0] + Transcript(fields[1..])
  }

  function Hkdf(h: Hashes, key: seq<byte>, info: seq<byte>): Digest {
    h.hmac(h.hmac(seq(32, i => 0), key), info + [1])
  }

  function Keys(h: Hashes, transcript: seq<byte>): PakeKeys {
    var digest := h.sha256(transcript);
    var confirmation := Hkdf(h, digest[16..], CONFIRMATION_LABEL);
    PakeKeys(transcript, digest[..16], h.hmac(confirmation[..16], transcript), h.hmac(confirmation[16..], transcript))
  }

  /** What finish returns on its first call. */
  function Outcome(s: Suite, h: Hashes, isA: bool, password: int, secret: int,
                   message: seq<byte>, peerBytes: seq<byte>, identityA: seq<byte>,
                   identityB: seq<byte>): Result<PakeKeys>
    requires WellSized(s)
  {
    var shared := SharedPoint(s, isA, password, secret, peerBytes);
    if shared.Err? then Err
    else Finalize(h, password, shared.value, if isA then message else peerBytes, if isA then peerBytes else message,
                  identityA, identityB)
  }

  /** The end of finish: a shared point at infinity throws; a and b are the two messages in their fixed order. */
  function Finalize(h: Hashes, password: int, shared: Option<Point>, a: seq<byte>, b: seq<byte>,
                    identityA: seq<byte>, identityB: seq<byte>): Result<PakeKeys> {
    var encoded, scalar := EncodePoint(shared), BigintBytesOf(password, 32);
    if encoded.Err? || scalar.Err? then Err
    else Ok(Keys(h, Transcript([identityA, identityB, a, b, encoded.value, scalar.value])))
  }

  /** secret times the generator plus password times the own mask, in the group of points. */
  ghost function MaskedPoint(s: Suite, isA: bool, password: int, secret: int): Option<Point>
    requires WellSized(s)
  {
    var g := PointGroup(s.curve);
    Sum(s.curve, Times(g, secret % s.curve.n, Some(s.g)),
        Times(g, password % s.curve.n, Some(if isA then s.m else s.maskN)))
  }

  /** A scalar already reduced multiplies as its residue. */
  lemma MultiplyReduced(c: Curve, scalar: int, q: Option<Point>)
    requires IsPrime(c.p) && c.n > 0 && OnCurve(c, q) && Associative(PointGroup(c))
    ensures Multiply(c, scalar % c.n, q) == Ok(Times(PointGroup(c), scalar % c.n, q))
  {
    MultiplyIsTimes(c, scalar % c.n, q);
    ModUnique(scalar % c.n, 0, scalar % c.n, c.n);
  }

  lemma BlindedIsMasked(s: Suite, isA: bool, password: int, secret: int)
    requires Sound(s)
    ensures Blinded(s, isA, password % s.curve.n, secret) == Ok(MaskedPoint(s, isA, password, secret))
    ensures var g := PointGroup(s.curve);
            MaskedPoint(s, isA, password, secret)
            == Sum(s.curve, Times(g, secret % s.curve.n, Some(s.g)),
                   Times(g, password % s.curve.n, Some(if isA then s.m else s.maskN)))
    ensures OnCurve(s.curve, MaskedPoint(s, isA, password, secret))
  {
    var c, mask := s.curve, Some(OwnMask(s, isA));
    MultiplyIsTimes(c, secret, Some(s.g));
    MultiplyReduced(c, password, mask);
    MultiplyClosed(c, secret, Some(s.g));
    MultiplyClosed(c, password % c.n, mask);
    AddClosed(c, Multiply(c, secret, Some(s.g)).value, Multiply(c, password % c.n, mask).value);
  }

  /** The message encodes that point, and fails exactly when it is infinity. */
  lemma MessageFailsAtInfinity(s: Suite, isA: bool, password: int, secret: int)
    requires Sound(s)
    ensures Message(s, isA, password % s.curve.n, secret) == EncodePoint(MaskedPoint(s, isA, password, secret))
    ensures Message(s, isA, password % s.curve.n, secret).Ok? <==> MaskedPoint(s, isA, password, secret).Some?
  {
    BlindedIsMasked(s, isA, password, secret);
    EncodeFails(s.curve, MaskedPoint(s, isA, password, secret));
  }

  lemma EncodeFails(c: Curve, q: Option<Point>)
    requires 1 < c.p <= Pow256(32) && OnCurve(c, q)
    ensures EncodePoint(q).Ok? <==> q.Some?
  {
    if q.Some? {
      DecodeEncode(c, q.value);
    }
  }

  /** One side of an exchange. */
  class Session {
    const suite: Suite
    const hashes: Hashes
    const isA: bool
    const passwordScalar: int
    const secret: int
    const message: seq<byte>
    var used: bool

    ghost predicate Valid() {
      && WellSized(suite)
      && 0 <= passwordScalar < suite.curve.n
      && Message(suite, isA, passwordScalar, secret) == Ok(message)
    }

    constructor (suite: Suite, hashes: Hashes, isA: bool, passwordScalar: int, secret: int, message: seq<byte>)
      requires WellSized(suite) && 0 <= passwordScalar < suite.curve.n
      requires Message(suite, isA, passwordScalar, secret) == Ok(message)
      ensures Valid() && !used
      ensures this.suite == suite && this.hashes == hashes && this.isA == isA && this.secret == secret
      ensures this.passwordScalar == passwordScalar && this.message == message
    {
      this.suite, this.hashes, this.isA := suite, hashes, isA;
      this.passwordScalar, this.secret, this.message := passwordScalar, secret, message;
      used := false;
    }

    /** The JavaScript constructor: the scalar is reduced, and a message at infinity throws. */
    static method Create(suite: Suite, hashes: Hashes, isA: bool, password: int, secret: int)
      returns (r: Result<Session>)
      requires WellSized(suite)
      ensures r.Ok? <==> Message(suite, isA, password % suite.curve.n, secret).Ok?
      ensures Sound(suite) ==> (r.Ok? <==> MaskedPoint(suite, isA, password, secret).Some?)
      ensures r.Ok? ==>
        fresh(r.value) && r.value.Valid() && !r.value.used && r.value.isA == isA && r.value.secret == secret
      ensures r.Ok? ==> r.value.suite == suite && r.value.hashes == hashes
      ensures r.Ok? ==> r.value.passwordScalar == password % suite.curve.n
    {
      if Sound(suite) {
        MessageFailsAtInfinity(suite, isA, password, secret);
      }
      ModIsResidue(password, suite.curve.n);
      var scalar := Mod(password, suite.curve.n);
      var own := PointMultiply(suite.curve, secret, Some(suite.g));
      var mask := PointMultiply(suite.curve, scalar, Some(if isA then suite.m else suite.maskN));
      if own.Err? || mask.Err? {
        return Err;
      }
      var point := PointAdd(suite.curve, own.value, mask.value);
      if point.Err? {
        return Err;
      }
      var message := EncodePoint(point.value);
      if message.Err? {
        return Err;
      }
      var session := new Session(suite, hashes, isA, scalar, secret, message.value);
      return Ok(session);
    }

    /** The first call computes the keys or throws; either way every later call throws. */
    method Finish(peerBytes: seq<byte>, identityA: seq<byte>, identityB: seq<byte>) returns (r: Result<PakeKeys>)
      requires Valid()
      modifies this`used
      ensures used && Valid()
      ensures old(used) ==> r == Err
      ensures !old(used) ==> r == Outcome(suite, hashes, isA, passwordScalar, secret, message, peerBytes, identityA,
                                          identityB)
    {
      if used {
        return Err;
      }
      used := true;
      var peer := DecodePoint(suite.curve, peerBytes);
      if peer.Err? {
        return Err;
      }
      var mask := PointMultiply(suite.curve, passwordScalar, Some(if isA then suite.maskN else suite.m));
      if mask.Err? {
        return Err;
      }
      var unmasked := PointAdd(suite.curve, Some(peer.value), PointNegate(suite.curve, mask.value));
      if unmasked.Err? {
        return Err;
      }
      var shared := PointMultiply(suite.curve, secret, unmasked.value);
      if shared.Err? || shared.value.None? {
        return Err;
      }
      var encoded, scalar := EncodePoint(shared.value), BigintBytesOf(passwordScalar, 32);
      if encoded.Err? || scalar.Err? {
        return Err;
      }
      var fields := [identityA, identityB,
                     if isA then message else peerBytes, if isA then peerBytes else message,
                     encoded.value, scalar.value];
      return Ok(Keys(hashes, Transcript(fields)));
    }
  }

  // ---- agreement ----

  /** Unmasking the peer's message recovers the peer's blinded secret. */
  lemma PeerUnmasked(s: Suite, isA: bool, password: nat, secret: int, peerSecret: int)
    requires Sound(s) && password < s.curve.n
    requires Message(s, !isA, password, peerSecret).Ok?
    ensures var g := PointGroup(s.curve);
            SharedPoint(s, isA, password, secret, Message(s, !isA, password, peerSecret).value)
            == Ok(Times(g, secret % s.curve.n, Times(g, peerSecret % s.curve.n, Some(s.g))))
  {
    var c, g := s.curve, PointGroup(s.curve);
    var own := Multiply(c, peerSecret, Some(s.g)).value;
    var mask := Multiply(c, password, Some(OwnMask(s, !isA))).value;
    MultiplyClosed(c, peerSecret, Some(s.g));
    MultiplyClosed(c, password, Some(OwnMask(s, !isA)));
    AddClosed(c, own, mask);
    DecodeEncode(c, Sum(c, own, mask).value);
    MaskRemoved(c, own, mask);
    MultiplyIsTimes(c, secret, own);
    MultiplyIsTimes(c, peerSecret, Some(s.g));
  }

  lemma MaskRemoved(c: Curve, own: Option<Point>, mask: Option<Point>)
    requires IsPrime(c.p) && OnCurve(c, own) && OnCurve(c, mask) && Associative(PointGroup(c))
    ensures PointAdd(c, Sum(c, own, mask), PointNegate(c, mask)) == Ok(own)
  {
    var g := PointGroup(c);
    PointGroupLaws(c);
    AddClosed(c, own, mask);
    NegateCancels(c, mask);
    AddClosed(c, Sum(c, own, mask), PointNegate(c, mask));
    assert g.add(mask, PointNegate(c, mask)) == g.zero;
    Unmask(g, own, mask, PointNegate(c, mask));
  }

  /**
   An A and a B that hold the same password scalar and name the same identities end
   with the same transcript, key and confirmations, or both reject the shared point.
   */
  lemma Agreement(s: Suite, h: Hashes, password: nat, secretA: int, secretB: int, identityA: seq<byte>,
                  identityB: seq<byte>)
    requires Sound(s) && password < s.curve.n
    requires Message(s, true, password, secretA).Ok? && Message(s, false, password, secretB).Ok?
    ensures var a, b := Message(s, true, password, secretA).value, Message(s, false, password, secretB).value;
            var left := Outcome(s, h, true, password, secretA, a, b, identityA, identityB);
            && left == Outcome(s, h, false, password, secretB, b, a, identityA, identityB)
            && (left.Ok? <==> Times(PointGroup(s.curve), secretA % s.curve.n,
                                    Times(PointGroup(s.curve), secretB % s.curve.n, Some(s.g))).Some?)
  {
    var c, g := s.curve, PointGroup(s.curve);
    PointGroupLaws(c);
    PeerUnmasked(s, true, password, secretA, secretB);
    PeerUnmasked(s, false, password, secretB, secretA);
    var j, k := secretA % c.n, secretB % c.n;
    Exchange(g, j, k, Some(s.g));
    TimesClosed(g, k, Some(s.g));
    TimesClosed(g, j, Times(g, k, Some(s.g)));
    FinalizeSucceeds(s, h, password, Times(g, j, Times(g, k, Some(s.g))),
                     Message(s, true, password, secretA).value, Message(s, false, password, secretB).value, identityA,
                       identityB);
  }

  /** With a reduced scalar and a curve point, only infinity is rejected. */
  lemma FinalizeSucceeds(s: Suite, h: Hashes, password: nat, shared: Option<Point>, a: seq<byte>, b: seq<byte>,
                         identityA: seq<byte>, identityB: seq<byte>)
    requires WellSized(s) && password < s.curve.n && OnCurve(s.curve, shared)
    ensures Finalize(h, password, shared, a, b, identityA, identityB).Ok? <==> shared.Some?
  {
  }

  // ---- the key schedule ----

  lemma LabelSpells()
    ensures |CONFIRMATION_LABEL| == |"ConfirmationKeys"|
    ensures forall i :: 0 <= i < 16 ==> CONFIRMATION_LABEL[i] == "ConfirmationKeys"[i] as int
  {
  }

  /**
   Section 4 of RFC 9382: the transcript's hash is Ke || Ka, the key derived from Ka under the
   confirmation label is KcA || KcB, and each confirmation is the transcript's code under its own key.
   */
  lemma KeySchedule(h: Hashes, transcript: seq<byte>, salt: seq<byte>, ke: seq<byte>, ka: seq<byte>, kcA: seq<byte>,
                    kcB: seq<byte>)
    requires |ke| == |ka| == |kcA| == |kcB| == 16
    requires |salt| == 32 && forall i :: 0 <= i < 32 ==> salt[i] == 0
    requires h.sha256(transcript) == ke + ka
    requires h.hmac(h.hmac(salt, ka), CONFIRMATION_LABEL + [1]) == kcA + kcB
    ensures Keys(h, transcript) == PakeKeys(transcript, ke, h.hmac(kcA, transcript), h.hmac(kcB, transcript))
  {
    assert salt == seq(32, i => 0);
    TwoHalves(ke, ka);
    TwoHalves(kcA, kcB);
  }

  lemma TwoHalves(a: seq<byte>, b: seq<byte>)
    requires |a| == |b| == 16
    ensures (a + b)[..16] == a && (a + b)[16..] == b
  {
  }

  /** Block i of the expansion of RFC 5869, section 2.3: T(0) is empty, T(i) covers T(i - 1), the label and i. */
  function Expanded(h: Hashes, prk: seq<byte>, info: seq<byte>, i: nat): seq<byte>
    requires i < 256
  {
    if i == 0 then [] else h.hmac(prk, Expanded(h, prk, info, i - 1) + info + [i])
  }

  /** T(1) || ... || T(n) */
  function Okm(h: Hashes, prk: seq<byte>, info: seq<byte>, n: nat): seq<byte>
    requires n < 256
  {
    if n == 0 then [] else Okm(h, prk, info, n - 1) + Expanded(h, prk, info, n)
  }

  /** The client's derivation is HKDF with a zero salt and 32 bytes of output. */
  lemma HkdfIsRfc5869(h: Hashes, key: seq<byte>, info: seq<byte>, salt: seq<byte>, n: nat)
    requires |salt| == 32 && (forall i :: 0 <= i < 32 ==> salt[i] == 0) && 1 <= n < 256
    ensures |Okm(h, h.hmac(salt, key), info, n)| >= 32
    ensures Okm(h, h.hmac(salt, key), info, n)[..32] == Hkdf(h, key, info)
  {
    var prk := h.hmac(salt, key);
    assert salt == seq(32, i => 0);
    if n == 1 {
      assert Expanded(h, prk, info, 0) + info + [1] == info + [1];
      assert Okm(h, prk, info, 1) == Okm(h, prk, info, 0) + Expanded(h, prk, info, 1) == Hkdf(h, key, info);
    } else {
      HkdfIsRfc5869(h, key, info, salt, n - 1);
    }
  }

  /** A field with its length before it, in eight bytes, the lowest first. */
  ghost predicate Prefixed(field: seq<byte>, encoded: seq<byte>) {
    && |field| < 0x1_0000_0000_0000_0000 && |encoded| == 8 + |field| && encoded[8..] == field
    && forall i :: 0 <= i < 8 ==> encoded[i] == (|field| / Pow256(i)) % 256
  }

  lemma PrefixedIsUnique(field: seq<byte>, encoded: seq<byte>)
    requires Prefixed(field, encoded)
    ensures encoded == Uint64LE(|field|) + field
  {
    forall i | 0 <= i < 8
      ensures encoded[i] == Uint64LE(|field|)[i]
    {
      LittleEndianDigit(|field|, 8, i);
    }
    assert encoded == encoded[..8] + encoded[8..];
    assert encoded[..8] == Uint64LE(|field|);
  }

  /** A first finish succeeds exactly on a curve point whose unmasked multiple is finite. */
  lemma FinishSucceedsIff(s: Suite, h: Hashes, isA: bool, password: nat, secret: int, message: seq<byte>,
                          peerBytes: seq<byte>, identityA: seq<byte>, identityB: seq<byte>)
    requires Sound(s) && password < s.curve.n
    ensures Outcome(s, h, isA, password, secret, message, peerBytes, identityA, identityB).Ok? <==>
      DecodePoint(s.curve, peerBytes).Ok?
      && Unmasked(s, isA, password, secret, DecodePoint(s.curve, peerBytes).value).Some?
  {
    if DecodePoint(s.curve, peerBytes).Ok? {
      SharedIsUnmasked(s, isA, password, secret, peerBytes);
      FinalizeSucceeds(s, h, password, Unmasked(s, isA, password, secret, DecodePoint(s.curve, peerBytes).value),
                       if isA then message else peerBytes, if isA then peerBytes else message, identityA, identityB);
    }
  }

  /** The six fields of the exchange: identities, A's message, B's message, the shared point, the password. */
  ghost predicate ExchangeFields(fields: seq<seq<byte>>, isA: bool, password: nat, message: seq<byte>,
                                 peerBytes: seq<byte>, identityA: seq<byte>, identityB: seq<byte>, shared: Point) {
    && |fields| == 6 && fields[0] == identityA && fields[1] == identityB
    && (if isA then fields[2] == message && fields[3] == peerBytes else fields[2] == peerBytes && fields[3] == message)
    && |fields[4]| == 65 && fields[4][0] == 4
    && FromBigEndian(fields[4][1..33]) == shared.x && FromBigEndian(fields[4][33..]) == shared.y
    && |fields[5]| == 32 && FromBigEndian(fields[5]) == password
  }

  /**
   And then its transcript t is those fields, each with its length before it in eight bytes, and with the
   hash of t split into Ke and Ka and the key derived from Ka into KcA and KcB, the keys are Ke and the
   codes of t under KcA and KcB.
   */
  lemma FinishKeys(s: Suite, h: Hashes, isA: bool, password: nat, secret: int, message: seq<byte>,
                   peerBytes: seq<byte>, identityA: seq<byte>, identityB: seq<byte>, fields: seq<seq<byte>>,
                   encoded: seq<seq<byte>>, salt: seq<byte>, ke: seq<byte>, ka: seq<byte>, kcA: seq<byte>,
                   kcB: seq<byte>)
    requires Sound(s) && password < s.curve.n && DecodePoint(s.curve, peerBytes).Ok?
    requires Unmasked(s, isA, password, secret, DecodePoint(s.curve, peerBytes).value).Some?
    requires ExchangeFields(fields, isA, password, message, peerBytes, identityA, identityB,
                            Unmasked(s, isA, password, secret, DecodePoint(s.curve, peerBytes).value).value)
    requires |encoded| == 6 && forall i :: 0 <= i < 6 ==> Prefixed(fields[i], encoded[i])
    requires |salt| == 32 && forall i :: 0 <= i < 32 ==> salt[i] == 0
    requires |ke| == |ka| == |kcA| == |kcB| == 16
    requires h.sha256(Six(encoded)) == ke + ka
    requires h.hmac(h.hmac(salt, ka), CONFIRMATION_LABEL + [1]) == kcA + kcB
    ensures Outcome(s, h, isA, password, secret, message, peerBytes, identityA, identityB)
         == Ok(PakeKeys(Six(encoded), ke, h.hmac(kcA, Six(encoded)), h.hmac(kcB, Six(encoded))))
  {
    SharedIsUnmasked(s, isA, password, secret, peerBytes);
    var shared := Unmasked(s, isA, password, secret, DecodePoint(s.curve, peerBytes).value);
    FieldsAreFinal(h, isA, password, message, peerBytes, identityA, identityB, shared.value, fields);
    SixPrefixed(fields, encoded);
    KeySchedule(h, Six(encoded), salt, ke, ka, kcA, kcB);
  }

  lemma FieldsAreFinal(h: Hashes, isA: bool, password: nat, message: seq<byte>, peerBytes: seq<byte>,
                       identityA: seq<byte>, identityB: seq<byte>, shared: Point, fields: seq<seq<byte>>)
    requires ExchangeFields(fields, isA, password, message, peerBytes, identityA, identityB, shared)
    ensures Finalize(h, password, Some(shared), if isA then message else peerBytes, if isA then peerBytes else message,
                     identityA, identityB) == Ok(Keys(h, Transcript(fields)))
  {
    PointField(shared, fields[4]);
    BytesOfValue(fields[5]);
    assert fields == [fields[0], fields[1], fields[2], fields[3], fields[4], fields[5]];
  }

  lemma PointField(q: Point, bytes: seq<byte>)
    requires |bytes| == 65 && bytes[0] == 4
    requires FromBigEndian(bytes[1..33]) == q.x && FromBigEndian(bytes[33..]) == q.y
    ensures EncodePoint(Some(q)) == Ok(bytes)
  {
    assert bytes == [4] + bytes[1..33] + bytes[33..];
    EncodeHalves(bytes[1..33], bytes[33..]);
  }

  function Six(parts: seq<seq<byte>>): seq<byte>
    requires |parts| == 6
  {
    parts[0] + parts[1] + parts[2] + parts[3] + parts[4] + parts[5]
  }

  /** The secret times the peer's point without the password times the peer's mask. */
  ghost function Unmasked(s: Suite, isA: bool, password: nat, secret: int, peer: Point): Option<Point>
    requires WellSized(s)
  {
    var g := PointGroup(s.curve);
    var mask := Times(g, password, Some(if isA then s.maskN else s.m));
    Times(g, secret % s.curve.n, Sum(s.curve, Some(peer), PointNegate(s.curve, mask)))
  }

  lemma SharedIsUnmasked(s: Suite, isA: bool, password: nat, secret: int, peerBytes: seq<byte>)
    requires Sound(s) && password < s.curve.n && DecodePoint(s.curve, peerBytes).Ok?
    ensures var shared := Unmasked(s, isA, password, secret, DecodePoint(s.curve, peerBytes).value);
            SharedPoint(s, isA, password, secret, peerBytes) == Ok(shared) && OnCurve(s.curve, shared)
    ensures var g := PointGroup(s.curve);
            var peer, mask := DecodePoint(s.curve, peerBytes).value, if isA then s.maskN else s.m;
            Unmasked(s, isA, password, secret, peer)
            == Times(g, secret % s.curve.n,
                     Sum(s.curve, Some(peer), PointNegate(s.curve, Times(g, password, Some(mask)))))
  {
    var c, g := s.curve, PointGroup(s.curve);
    var peer, mask := Some(DecodePoint(c, peerBytes).value), Some(OwnMask(s, !isA));
    EncodeDecode(c, peerBytes);
    MultiplyClosed(c, password, mask);
    MultiplyIsTimes(c, password, mask);
    ModUnique(password, 0, password, c.n);
    var negated := PointNegate(c, Multiply(c, password, mask).value);
    NegateCancels(c, Multiply(c, password, mask).value);
    AddClosed(c, peer, negated);
    MultiplyClosed(c, secret, Sum(c, peer, negated));
    MultiplyIsTimes(c, secret, Sum(c, peer, negated));
  }

  lemma SixPrefixed(fields: seq<seq<byte>>, encoded: seq<seq<byte>>)
    requires |fields| == |encoded| == 6 && forall i :: 0 <= i < 6 ==> Prefixed(fields[i], encoded[i])
    ensures Transcript(fields) == Six(encoded)
  {
    forall i | 0 <= i < 6
      ensures encoded[i] == Uint64LE(|fields[i]|) + fields[i]
    {
      PrefixedIsUnique(fields[i], encoded[i]);
    }
    SixFields(fields, encoded);
  }

  lemma SixFields(f: seq<seq<byte>>, e: seq<seq<byte>>)
    requires |f| == |e| == 6 && forall i :: 0 <= i < 6 ==> e[i] == Uint64LE(|f[i]|) + f[i]
    ensures Transcript(f) == Six(e)
  {
    assert f[0..] == f;
    FieldAfter(f, 0, [], e[0]);
    assert [] + e[0] == e[0];
    FieldAfter(f, 1, e[0], e[1]);
    FieldAfter(f, 2, e[0] + e[1], e[2]);
    FieldAfter(f, 3, e[0] + e[1] + e[2], e[3]);
    FieldAfter(f, 4, e[0] + e[1] + e[2] + e[3], e[4]);
    FieldAfter(f, 5, e[0] + e[1] + e[2] + e[3] + e[4], e[5]);
    assert f[6..] == [];
  }

  /** What is written before field i, then the rest: one field further. */
  lemma FieldAfter(f: seq<seq<byte>>, i: nat, before: seq<byte>, e: seq<byte>)
    requires i < |f| && e == Uint64LE(|f[i]|) + f[i]
    ensures before + Transcript(f[i..]) == before + e + Transcript(f[i + 1..])
  {
    assert f[i..][1..] == f[i + 1..];
    assert Transcript(f[i..]) == e + Transcript(f[i + 1..]);
    assert before + (e + Transcript(f[i + 1..])) == before + e + Transcript(f[i + 1..]);
  }

  // ---- the transcript binds its fields ----

  /** Field lengths a JavaScript array can have. */
  predicate Lengths64(fields: seq<seq<byte>>) {
    forall i :: 0 <= i < |fields| ==> Short(fields[i])
  }

  predicate Short(field: seq<byte>) {
    |field| < 0x1_0000_0000_0000_0000
  }

  /** No two lists of fields share a transcript, whatever their number and lengths. */
  lemma {:induction false} TranscriptInjective(fields: seq<seq<byte>>, others: seq<seq<byte>>)
    requires Lengths64(fields) && Lengths64(others)
    requires Transcript(fields) == Transcript(others)
    ensures fields == others
  {
    if fields == [] || others == [] {
      assert |Transcript(fields)| == 0 || |Transcript(others)| == 0;
    } else {
      var f, o := fields[0], others[0];
      FirstField(fields);
      FirstField(others);
      Lengths64Tail(fields);
      Lengths64Tail(others);
      Uint64Injective(|f|, |o|);
      assert f == o;
      TranscriptInjective(fields[1..], others[1..]);
      assert fields == [f] + fields[1..] && others == [o] + others[1..];
    }
  }

  lemma Lengths64Tail(fields: seq<seq<byte>>)
    requires fields != [] && Lengths64(fields)
    ensures |fields[0]| < 0x1_0000_0000_0000_0000 && Lengths64(fields[1..])
  {
  }

  lemma Uint64Denotes(b: seq<byte>, n: nat)
    requires FromLittleEndian(b) == n % 0x1_0000_0000_0000_0000 && n < 0x1_0000_0000_0000_0000
    ensures FromLittleEndian(b) == n
  {
  }

  lemma Uint64Injective(m: nat, n: nat)
    requires m < 0x1_0000_0000_0000_0000 && n < 0x1_0000_0000_0000_0000 && Uint64LE(m) == Uint64LE(n)
    ensures m == n
  {
    Uint64Denotes(Uint64LE(m), m);
    Uint64Denotes(Uint64LE(m), n);
  }

  lemma FirstField(fields: seq<seq<byte>>)
    requires fields != []
    ensures var t, n := Transcript(fields), |fields[0]|;
            |t| >= 8 + n && t[..8] == Uint64LE(n) && t[8..8 + n] == fields[0] && t[8 + n..] == Transcript(fields[1..])
  {
    SplitThree(Uint64LE(|fields[0]|), fields[0], Transcript(fields[1..]));
  }

  lemma SplitThree(a: seq<byte>, b: seq<byte>, c: seq<byte>)
    ensures var t := a + b + c;
            t[..|a|] == a && t[|a|..|a| + |b|] == b && t[|a| + |b|..] == c
  {
  }

  /** Sides that finish with different scalars, identities, messages or shared points hold different transcripts. */
  lemma TranscriptBinds(h: Hashes, password: nat, password': nat, shared: Option<Point>, shared': Option<Point>,
                        a: seq<byte>, b: seq<byte>, a': seq<byte>, b': seq<byte>, idA: seq<byte>, idB: seq<byte>,
                        idA': seq<byte>, idB': seq<byte>)
    requires Short(a) && Short(b) && Short(a') && Short(b')
    requires Short(idA) && Short(idB) && Short(idA') && Short(idB')
    requires Finalize(h, password, shared, a, b, idA, idB).Ok?
      && Finalize(h, password', shared', a', b', idA', idB').Ok?
    requires Finalize(h, password, shared, a, b, idA, idB).value.transcript
          == Finalize(h, password', shared', a', b', idA', idB').value.transcript
    ensures password == password' && shared == shared' && a == a' && b == b' && idA == idA' && idB == idB'
  {
    var fields := [idA, idB, a, b, EncodePoint(shared).value, BigintBytesOf(password, 32).value];
    var others := [idA', idB', a', b', EncodePoint(shared').value, BigintBytesOf(password', 32).value];
    SixLengths(idA, idB, a, b, fields[4], fields[5]);
    SixLengths(idA', idB', a', b', others[4], others[5]);
    TranscriptInjective(fields, others);
    assert forall i :: 0 <= i < 6 ==> fields[i] == others[i];
    assert fields[0] == others[0] && fields[1] == others[1] && fields[2] == others[2];
    assert fields[3] == others[3] && fields[4] == others[4] && fields[5] == others[5];
    EncodeInjective(shared, shared');
  }

  lemma SixLengths(a: seq<byte>, b: seq<byte>, c: seq<byte>, d: seq<byte>, e: seq<byte>, f: seq<byte>)
    requires Short(a) && Short(b) && Short(c) && Short(d) && Short(e) && Short(f)
    ensures Lengths64([a, b, c, d, e, f])
  {
  }

  lemma EncodeInjective(q: Option<Point>, r: Option<Point>)
    requires EncodePoint(q).Ok? && EncodePoint(q) == EncodePoint(r)
    ensures q == r
  {
    var e, f := EncodePoint(q).value, EncodePoint(r).value;
    assert e[1..33] == ToBigEndian(q.value.x, 32) && e[33..] == ToBigEndian(q.value.y, 32);
    assert f[1..33] == ToBigEndian(r.value.x, 32) && f[33..] == ToBigEndian(r.value.y, 32);
  }
}
