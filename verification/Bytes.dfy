/** Fixed-width byte encodings of integers, as the web client and the fusion relay use them. */
module Bytes {

  type byte = x: int | 0 <= x < 256

  datatype Result<+T> = Ok(value: T) | Err

  /** 256 to the power n. */
  function Pow256(n: nat): (r: int)
    ensures r >= 1
  {
    if n == 0 then 1 else 256 * Pow256(n - 1)
  }

  /** The number a byte string denotes, most significant byte first. */
  function FromBigEndian(b: seq<byte>): (v: nat)
    ensures v < Pow256(|b|)
  {
    if |b| == 0 then 0 else FromBigEndian(b[..|b| - 1]) * 256 + b[|b| - 1]
  }

  /** The number a byte string denotes, least significant byte first. */
  function FromLittleEndian(b: seq<byte>): (v: nat)
    ensures v < Pow256(|b|)
  {
    if |b| == 0 then 0 else b[0] + 256 * FromLittleEndian(b[1..])
  }

  lemma {:induction false} BigEndianInjective(a: seq<byte>, b: seq<byte>)
    requires |a| == |b| && FromBigEndian(a) == FromBigEndian(b)
    ensures a == b
  {
    if |a| > 0 {
      BigEndianInjective(a[..|a| - 1], b[..|b| - 1]);
      assert a == a[..|a| - 1] + [a[|a| - 1]] && b == b[..|b| - 1] + [b[|b| - 1]];
    }
  }

  /** Prepending a byte adds it at the top weight. */
  lemma {:induction false} BigEndianPrepend(x: byte, b: seq<byte>)
    ensures FromBigEndian([x] + b) == x * Pow256(|b|) + FromBigEndian(b)
  {
    if |b| == 0 {
      assert [x] + b == [x];
      assert FromBigEndian([x][..0]) == 0;
    } else {
      var s := [x] + b;
      assert s[..|s| - 1] == [x] + b[..|b| - 1];
      BigEndianPrepend(x, b[..|b| - 1]);
      assert FromBigEndian(s) == (x * Pow256(|b| - 1) + FromBigEndian(b[..|b| - 1])) * 256 + b[|b| - 1];
      RegroupBytes(x, Pow256(|b| - 1), FromBigEndian(b[..|b| - 1]), b[|b| - 1]);
    }
  }

  lemma RegroupBytes(x: int, w: int, v: int, last: int)
    ensures (x * w + v) * 256 + last == x * (256 * w) + (v * 256 + last)
  {
  }

  /** The client's bigintFromBytes. */
  method BigintFromBytes(bytes: seq<byte>) returns (value: nat)
    ensures value == FromBigEndian(bytes)
  {
    value := 0;
    for i := 0 to |bytes|
      invariant value == FromBigEndian(bytes[..i])
    {
      assert bytes[..i + 1][..i] == bytes[..i];
      value := value * 256 + bytes[i];
    }
    assert bytes[..|bytes|] == bytes;
  }

  /**
   The client's bigintBytes: the low bytes are written from the right end, with the
   arithmetic shift of a negative number rounding down.  It throws exactly when the
   number is not representable, and otherwise inverts BigintFromBytes.
   */
  method BigintBytes(value: int, length: nat) returns (r: Result<seq<byte>>)
    ensures r.Ok? <==> 0 <= value < Pow256(length)
    ensures r.Ok? ==> |r.value| == length && FromBigEndian(r.value) == value
    ensures r == BigintBytesOf(value, length)
  {
    var output := new byte[length](i => 0);
    var remaining := value;
    var index := length;
    while index > 0
      invariant 0 <= index <= length == output.Length
      invariant value == remaining * Pow256(length - index) + FromBigEndian(output[index..])
    {
      index := index - 1;
      ghost var before := output[index + 1..];
      output[index] := remaining % 256;
      assert output[index..] == [output[index]] + before;
      BigEndianPrepend(output[index], before);
      assert Pow256(length - index) == 256 * Pow256(|before|);
      ShiftOut(remaining, Pow256(|before|));
      remaining := remaining / 256;
    }
    assert output[0..] == output[..];
    MultipleGrows(remaining, Pow256(length));
    if remaining != 0 {
      return Err;
    }
    BigEndianInjective(output[..], ToBigEndian(value, length));
    return Ok(output[..]);
  }

  lemma ShiftOut(v: int, w: int)
    ensures v * w == (v / 256) * (256 * w) + (v % 256) * w
  {
  }

  /** The byte string of the given length that denotes the given number. */
  function ToBigEndian(v: nat, n: nat): (b: seq<byte>)
    requires v < Pow256(n)
    ensures |b| == n && FromBigEndian(b) == v
  {
    if n == 0 then []
    else
      var b := ToBigEndian(v / 256, n - 1) + [v % 256];
      assert b[..n - 1] == ToBigEndian(v / 256, n - 1);
      b
  }

  /** The value bigintBytes computes. */
  function BigintBytesOf(value: int, length: nat): (r: Result<seq<byte>>)
    ensures r.Ok? ==> |r.value| == length && FromBigEndian(r.value) == value
  {
    if 0 <= value < Pow256(length) then Ok(ToBigEndian(value, length)) else Err
  }

  lemma ToBigEndianOfValue(b: seq<byte>)
    ensures ToBigEndian(FromBigEndian(b), |b|) == b
  {
    BigEndianInjective(ToBigEndian(FromBigEndian(b), |b|), b);
  }

  /** The client's uint64LE for lengths below 2^64. */
  function Uint64LE(value: nat): (b: seq<byte>)
    ensures |b| == 8
    ensures FromLittleEndian(b) == value % 0x1_0000_0000_0000_0000
  {
    LittleEndianValue(value, 8);
    assert Pow256(8) == 0x1_0000_0000_0000_0000;
    LittleEndian(value, 8)
  }

  function LittleEndian(value: nat, n: nat): (b: seq<byte>)
    ensures |b| == n
  {
    if n == 0 then [] else [value % 256] + LittleEndian(value / 256, n - 1)
  }

  lemma {:induction false} LittleEndianValue(value: nat, n: nat)
    ensures FromLittleEndian(LittleEndian(value, n)) == value % Pow256(n)
  {
    if n > 0 {
      LittleEndianValue(value / 256, n - 1);
      ModSplit(value, Pow256(n - 1));
      assert LittleEndian(value, n)[1..] == LittleEndian(value / 256, n - 1);
    }
  }

  lemma ModSplit(v: nat, w: int)
    requires w >= 1
    ensures v % (256 * w) == v % 256 + 256 * ((v / 256) % w)
  {
    var q := (v / 256) / w;
    var m := (v / 256) % w;
    assert v / 256 == q * w + m;
    assert v == q * (256 * w) + (256 * m + v % 256);
    ModUnique(v, q, 256 * m + v % 256, 256 * w);
  }

  /** Division with remainder is unique. */
  lemma ModUnique(a: int, q: int, r: int, m: int)
    requires m > 0 && a == q * m + r && 0 <= r < m
    ensures a % m == r && a / m == q
  {
    var d := a / m - q;
    assert d * m == r - a % m;
    MultipleGrows(d, m);
  }

  lemma MultipleGrows(d: int, m: int)
    requires m > 0
    ensures d >= 1 ==> d * m >= m
    ensures d <= -1 ==> d * m <= -m
  {
  }

  /** Byte i of the little-endian string has the weight 256^i. */
  lemma {:induction false} LittleEndianDigit(value: nat, n: nat, i: nat)
    requires i < n
    ensures LittleEndian(value, n)[i] == Digit(value, i)
  {
    if i > 0 {
      var rest := LittleEndian(value / 256, n - 1);
      LittleEndianDigit(value / 256, n - 1, i - 1);
      DigitOfRest(value, i);
      AfterFirst(value % 256, rest, i);
    }
  }

  lemma AfterFirst(first: byte, rest: seq<byte>, i: nat)
    requires 0 < i <= |rest|
    ensures ([first] + rest)[i] == rest[i - 1]
  {
  }

  lemma BeforeLast(front: seq<byte>, last: byte, i: nat)
    requires i < |front|
    ensures (front + [last])[i] == front[i]
  {
  }

  /** The digit of weight 256^i. */
  function Digit(value: nat, i: nat): byte {
    (value / Pow256(i)) % 256
  }

  lemma DigitOfRest(value: nat, i: nat)
    requires i > 0
    ensures Digit(value, i) == Digit(value / 256, i - 1)
  {
    QuotientOfQuotient(value, Pow256(i - 1));
  }

  /** Byte i from the end of the big-endian string has the weight 256^i. */
  lemma {:induction false} BigEndianDigit(value: nat, n: nat, i: nat)
    requires value < Pow256(n) && i < n
    ensures ToBigEndian(value, n)[n - 1 - i] == Digit(value, i)
  {
    if i > 0 {
      var front := ToBigEndian(value / 256, n - 1);
      BigEndianDigit(value / 256, n - 1, i - 1);
      DigitOfRest(value, i);
      BeforeLast(front, value % 256, n - 1 - i);
    }
  }

  lemma QuotientOfQuotient(v: nat, w: int)
    requires w >= 1
    ensures (v / 256) / w == v / (256 * w)
  {
    var q, m := (v / 256) / w, (v / 256) % w;
    assert v / 256 == q * w + m;
    assert v == q * (256 * w) + (256 * m + v % 256);
    ModUnique(v, q, 256 * m + v % 256, 256 * w);
  }
}
