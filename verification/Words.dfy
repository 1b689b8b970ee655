/** JavaScript's 32-bit bit operations on non-negative words. */
module Words {
  import opened Bytes

  const WORD := 0x1_0000_0000

  type Word = x: int | 0 <= x < 0x1_0000_0000

  function Pow2(k: nat): (r: int)
    ensures r >= 1
  {
    if k == 0 then 1 else 2 * Pow2(k - 1)
  }

  function And(x: nat, y: nat): (r: nat)
    ensures r <= x && r <= y
  {
    if x == 0 then 0 else (x % 2) * (y % 2) + 2 * And(x / 2, y / 2)
  }

  function Or(x: nat, y: nat): nat
    decreases x + y
  {
    if x == 0 then y else if y == 0 then x else (if x % 2 == 1 then 1 else y % 2) + 2 * Or(x / 2, y / 2)
  }

  function Xor(x: nat, y: nat): nat
    decreases x + y
  {
    if x == 0 then y else if y == 0 then x else (x + y) % 2 + 2 * Xor(x / 2, y / 2)
  }

  /** Bit k of x. */
  function Bit(x: nat, k: nat): (bit: nat)
    ensures bit < 2
  {
    (x / Pow2(k)) % 2
  }

  lemma BitOfHalf(x: nat, k: nat)
    ensures Bit(x, 0) == x % 2 && Bit(x, k + 1) == Bit(x / 2, k)
  {
    HalfQuotient(x, Pow2(k));
  }

  lemma HalfQuotient(x: nat, w: int)
    requires w >= 1
    ensures x / (2 * w) == (x / 2) / w
  {
    var q := (x / 2) / w;
    var m := (x / 2) % w;
    assert x / 2 == q * w + m;
    assert x == q * (2 * w) + (2 * m + x % 2);
    ModUnique(x, q, 2 * m + x % 2, 2 * w);
  }

  /** The three operations bit by bit. */
  lemma {:induction false} BitLaws(x: nat, y: nat, k: nat)
    ensures Bit(Xor(x, y), k) == (Bit(x, k) + Bit(y, k)) % 2
    ensures Bit(And(x, y), k) == Bit(x, k) * Bit(y, k)
    ensures Bit(Or(x, y), k) == Bit(x, k) + Bit(y, k) - Bit(x, k) * Bit(y, k)
  {
    BitOfZero(k);
    if x != 0 && y != 0 {
      XorHalves(x, y);
      AndHalves(x, y);
      OrHalves(x, y);
      var j := if k == 0 then 0 else k - 1;
      BitOfHalf(x, j);
      BitOfHalf(y, j);
      BitOfHalf(Xor(x, y), j);
      BitOfHalf(And(x, y), j);
      BitOfHalf(Or(x, y), j);
      if k > 0 {
        BitLaws(x / 2, y / 2, k - 1);
      }
    } else {
      AndZero(x);
    }
  }

  lemma BitOfZero(k: nat)
    ensures Bit(0, k) == 0
  {
  }

  lemma AndZero(x: nat)
    ensures And(x, 0) == And(0, x) == 0
  {
  }

  lemma XorHalves(x: nat, y: nat)
    requires x != 0 && y != 0
    ensures Xor(x, y) % 2 == (x % 2 + y % 2) % 2 && Xor(x, y) / 2 == Xor(x / 2, y / 2)
  {
    SumBit(x, y);
    var rest := Xor(x / 2, y / 2);
    LowBit((x + y) % 2, rest, Xor(x, y));
  }

  lemma AndHalves(x: nat, y: nat)
    requires x != 0 && y != 0
    ensures And(x, y) % 2 == (x % 2) * (y % 2) && And(x, y) / 2 == And(x / 2, y / 2)
  {
    BitProduct(x % 2, y % 2);
    var rest := And(x / 2, y / 2);
    LowBit((x % 2) * (y % 2), rest, And(x, y));
  }

  lemma OrHalves(x: nat, y: nat)
    requires x != 0 && y != 0
    ensures Or(x, y) % 2 == x % 2 + y % 2 - (x % 2) * (y % 2) && Or(x, y) / 2 == Or(x / 2, y / 2)
  {
    BitProduct(x % 2, y % 2);
    var rest := Or(x / 2, y / 2);
    LowBit(if x % 2 == 1 then 1 else y % 2, rest, Or(x, y));
  }

  lemma SumBit(x: nat, y: nat)
    ensures (x + y) % 2 == (x % 2 + y % 2) % 2
  {
  }

  lemma BitProduct(a: nat, b: nat)
    requires a < 2 && b < 2
    ensures a * b == (if a == 1 then b else 0) < 2 && a + b - a * b == if a == 1 then 1 else b
  {
  }

  lemma LowBit(bit: nat, rest: nat, v: nat)
    requires bit < 2 && v == bit + 2 * rest
    ensures v % 2 == bit && v / 2 == rest
  {
  }

  lemma {:induction false} BitsBounded(x: nat, y: nat, k: nat)
    requires x < Pow2(k) && y < Pow2(k)
    ensures Or(x, y) < Pow2(k) && Xor(x, y) < Pow2(k)
  {
    if k > 0 {
      BitsBounded(x / 2, y / 2, k - 1);
    }
  }

  function XorWord(x: Word, y: Word): Word {
    WordIsPow2();
    BitsBounded(x, y, 32);
    Xor(x, y)
  }

  lemma WordIsPow2()
    ensures Pow2(32) == WORD
  {
    assert Pow2(8) == 0x100;
    assert Pow2(16) == 0x1_0000;
    assert Pow2(24) == 0x100_0000;
  }

  /** Addition truncated to a word. */
  function AddWord(x: Word, y: Word): Word {
    (x + y) % WORD
  }

  /** (value << count | value >>> (32 - count)) >>> 0. */
  function RotateLeft(value: Word, count: nat): Word
    requires count <= 32
  {
    RotateFits(value, count);
    Or((value * Pow2(count)) % WORD, value / Pow2(32 - count))
  }

  lemma {:induction false} Pow2Add(j: nat, k: nat)
    ensures Pow2(j + k) == Pow2(j) * Pow2(k)
  {
    if j > 0 {
      Pow2Add(j - 1, k);
    }
  }

  /** The two parts of a rotation share no bit, so or-ing them adds them. */
  lemma RotateFits(value: Word, count: nat)
    requires count <= 32
    ensures var high, low := (value * Pow2(count)) % WORD, value / Pow2(32 - count);
            low >= 0 && Or(high, low) == high + low < WORD
  {
    var c, d := Pow2(count), Pow2(32 - count);
    WordIsPow2();
    Pow2Add(count, 32 - count);
    RotateParts(value, c, d);
    OrDisjoint(value % d, value / d, count);
  }

  lemma RotateParts(value: Word, c: int, d: int)
    requires c >= 1 && d >= 1 && c * d == WORD
    ensures 0 <= value / d < c && 0 <= value % d
    ensures (value * c) % WORD == (value % d) * c <= WORD - c
  {
    var low, rest := value / d, value % d;
    assert value == low * d + rest;
    if low >= c {
      MulMonotone(c, low, d);
    }
    assert (low * d + rest) * c == low * (c * d) + rest * c by {
      assert (low * d) * c == low * (c * d);
      assert (low * d + rest) * c == (low * d) * c + rest * c;
    }
    MulMonotone(rest, d - 1, c);
    assert (d - 1) * c == c * d - c;
    assert rest * c >= 0;
    ModUnique(value * c, low, rest * c, WORD);
  }

  lemma MulMonotone(a: int, b: int, c: int)
    requires a <= b && c >= 0
    ensures a * c <= b * c
  {
    assert (b - a) * c >= 0;
  }

  lemma OrDisjoint(high: nat, low: nat, k: nat)
    requires low < Pow2(k)
    ensures Or(high * Pow2(k), low) == high * Pow2(k) + low
  {
    OrShifted(high, low, k, high * Pow2(k));
  }

  lemma {:induction false} OrShifted(high: nat, low: nat, k: nat, shifted: nat)
    requires low < Pow2(k) && shifted == high * Pow2(k)
    ensures Or(shifted, low) == shifted + low
  {
    if k > 0 {
      var half := high * Pow2(k - 1);
      DoubleProduct(high, Pow2(k - 1));
      OrShifted(high, low / 2, k - 1, half);
      OrDouble(half, low);
    }
  }

  lemma OrDouble(x: nat, low: nat)
    requires Or(x, low / 2) == x + low / 2
    ensures Or(2 * x, low) == 2 * x + low
  {
    OrEven(x, low);
  }

  lemma DoubleProduct(a: int, b: int)
    ensures a * (2 * b) == 2 * (a * b)
  {
  }

  lemma OrEven(x: nat, y: nat)
    ensures Or(2 * x, y) == y % 2 + 2 * Or(x, y / 2)
  {
  }

  /** Masking with 2^k - 1 takes the remainder modulo 2^k. */
  lemma {:induction false} MaskIsRemainder(x: nat, k: nat)
    ensures And(x, Pow2(k) - 1) == x % Pow2(k)
  {
    if k == 0 {
      assert And(x, 0) <= 0;
    } else {
      var w := Pow2(k - 1);
      MaskIsRemainder(x / 2, k - 1);
      MaskStep(x, w);
      assert Pow2(k) == 2 * w;
    }
  }

  lemma MaskStep(x: nat, w: int)
    requires w >= 1 && And(x / 2, w - 1) == (x / 2) % w
    ensures And(x, 2 * w - 1) == x % (2 * w)
  {
    AndOdd(x, w);
    HalveRemainder(x, w);
  }

  lemma AndOdd(x: nat, w: int)
    requires w >= 1
    ensures And(x, 2 * w - 1) == x % 2 + 2 * And(x / 2, w - 1)
  {
    assert (2 * w - 1) % 2 == 1 && (2 * w - 1) / 2 == w - 1;
  }

  lemma HalveRemainder(x: nat, w: int)
    requires w >= 1
    ensures x % (2 * w) == x % 2 + 2 * ((x / 2) % w)
  {
    var q, m := (x / 2) / w, (x / 2) % w;
    assert x / 2 == q * w + m;
    assert q * (2 * w) == 2 * (q * w);
    ModUnique(x, q, 2 * m + x % 2, 2 * w);
  }

  lemma {:induction false} AndSelf(x: nat)
    ensures And(x, x) == x
  {
    if x > 0 {
      AndSelf(x / 2);
    }
  }

  /** The test n & (n - 1) recognises the powers of two. */
  lemma {:induction false} PowerOfTwoTest(n: nat) returns (k: nat)
    requires n >= 1
    ensures And(n, n - 1) == 0 <==> n == Pow2(k)
    ensures And(n, n - 1) != 0 ==> forall j :: Pow2(j) != n
  {
    if n == 1 {
      k := 0;
    } else {
      var k' := PowerOfTwoTest(n / 2);
      if n % 2 == 0 {
        assert (n - 1) / 2 == n / 2 - 1 && (n - 1) % 2 == 1;
        k := k' + 1;
        assert And(n, n - 1) == 2 * And(n / 2, n / 2 - 1);
        forall j: nat | And(n, n - 1) != 0
          ensures Pow2(j) != n
        {
          if j > 0 {
            assert Pow2(j - 1) != n / 2;
          }
        }
      } else {
        assert (n - 1) / 2 == n / 2;
        AndSelf(n / 2);
        k := 0;
        forall j: nat
          ensures Pow2(j) != n
        {
          assert j > 0 ==> Pow2(j) == 2 * Pow2(j - 1);
        }
      }
    }
  }
}
