/** The scrypt core against RFC 7914: words, rounds, blocks and turns in the standard's own terms. */
module Rfc7914 {
  import opened Words
  import opened Scrypt

  // ---- section 3: the word operation and the rounds ----

  /** With nothing to combine with, the operation adds modulo 2^32 and then rotates to the left. */
  lemma MixRotatesSum(y: Word, z: Word, count: nat, v: nat)
    requires count <= 32 && v == (y + z) % 0x1_0000_0000
    ensures MixWords(0, y, z, count) == (v * Pow2(count)) % 0x1_0000_0000 + v / Pow2(32 - count)
  {
    RotateFits(v, count);
  }

  /** And it combines bit by bit, modulo two. */
  lemma MixCombinesBits(x: Word, y: Word, z: Word, count: nat, k: nat)
    requires count <= 32
    ensures Bit(MixWords(x, y, z, count), k) == (Bit(x, k) + Bit(MixWords(0, y, z, count), k)) % 2
  {
    BitLaws(x, RotateLeft(AddWord(y, z), count), k);
  }

  /** The word operation where the sum is known and nothing carries into x. */
  lemma MixKnown(x: Word, y: Word, z: Word, count: nat, high: nat, low: nat)
    requires count <= 32 && x < 2 && (x == 0 || (high + low) % 2 == 0)
    requires ((y + z) % WORD) * Pow2(count) % WORD == high && (y + z) % WORD / Pow2(32 - count) == low
    ensures MixWords(x, y, z, count) == x + high + low
  {
    var sum := AddWord(y, z);
    RotateFits(sum, count);
    XorLow(x, RotateLeft(sum, count));
  }

  lemma XorLow(x: nat, v: nat)
    requires x < 2 && (x == 0 || v % 2 == 0)
    ensures Xor(x, v) == x + v
  {
  }

  lemma Powers()
    ensures Pow2(7) == 0x80 && Pow2(9) == 0x200 && Pow2(13) == 0x2000 && Pow2(18) == 0x4_0000
    ensures Pow2(25) == 0x200_0000 && Pow2(23) == 0x80_0000 && Pow2(19) == 0x8_0000 && Pow2(14) == 0x4000
  {
    Pow2Add(7, 7);
    assert Pow2(7) == 0x80;
    Pow2Add(7, 2);
    Pow2Add(7, 6);
    Pow2Add(9, 9);
    Pow2Add(18, 7);
    Pow2Add(14, 9);
    Pow2Add(18, 1);
  }

  // The quarter-round on the four unit vectors, after the Salsa20 specification.

  lemma FirstUnit()
    ensures QuarterRound(MixWords, 1, 0, 0, 0) == (0x08008145, 0x00000080, 0x00010200, 0x20500000)
  {
    Powers();
    MixKnown(0, 1, 0, 7, 0x80, 0);
    MixKnown(0, 0x80, 1, 9, 0x10200, 0);
    MixKnown(0, 0x10200, 0x80, 13, 0x20500000, 0);
    MixKnown(1, 0x20500000, 0x10200, 18, 0x8000000, 0x8144);
  }

  lemma SecondUnit()
    ensures QuarterRound(MixWords, 0, 1, 0, 0) == (0x88000100, 0x00000001, 0x00000200, 0x00402000)
  {
    Powers();
    MixKnown(1, 0, 0, 7, 0, 0);
    MixKnown(0, 1, 0, 9, 0x200, 0);
    MixKnown(0, 0x200, 1, 13, 0x402000, 0);
    MixKnown(0, 0x402000, 0x200, 18, 0x88000000, 0x100);
  }

  lemma ThirdUnit()
    ensures QuarterRound(MixWords, 0, 0, 1, 0) == (0x80040000, 0x00000000, 0x00000001, 0x00002000)
  {
    Powers();
    MixKnown(0, 0, 0, 7, 0, 0);
    MixKnown(1, 0, 0, 9, 0, 0);
    MixKnown(0, 1, 0, 13, 0x2000, 0);
    MixKnown(0, 0x2000, 1, 18, 0x80040000, 0);
  }

  lemma FourthUnit()
    ensures QuarterRound(MixWords, 0, 0, 0, 1) == (0x00048044, 0x00000080, 0x00010000, 0x20100001)
  {
    Powers();
    MixKnown(0, 0, 1, 7, 0x80, 0);
    MixKnown(0, 0x80, 0, 9, 0x10000, 0);
    MixKnown(1, 0x10000, 0x80, 13, 0x20100000, 0);
    MixKnown(0, 0x20100001, 0x10000, 18, 0x40000, 0x8044);
  }

  /** The two rounds on unit rows and columns: each quarter-round at its own places. */
  lemma UnitRounds()
    ensures ColumnRound(MixWords, [1, 1, 1, 1, 0, 0, 0, 0, 0, 0, 0, 0, 0, 0, 0, 0])
         == [0x08008145, 0x20100001, 0x00000001, 0x00000001, 0x00000080, 0x00048044, 0x00002000, 0x00000200,
             0x00010200, 0x00000080, 0x80040000, 0x00402000, 0x20500000, 0x00010000, 0x00000000, 0x88000100]
    ensures RowRound(MixWords, [1, 0, 0, 0, 1, 0, 0, 0, 1, 0, 0, 0, 1, 0, 0, 0])
         == [0x08008145, 0x00000080, 0x00010200, 0x20500000, 0x20100001, 0x00048044, 0x00000080, 0x00010000,
             0x00000001, 0x00002000, 0x80040000, 0x00000000, 0x00000001, 0x00000200, 0x00402000, 0x88000100]
  {
    FirstUnit();
    SecondUnit();
    ThirdUnit();
    FourthUnit();
  }

  /** Salsa20/8: columns and rows four times in turn, then the input added to each word modulo 2^32. */
  lemma EightRounds(mix: Mixer, x: Block, y: Block)
    requires y == RowRound(mix, ColumnRound(mix, RowRound(mix, ColumnRound(mix,
                  RowRound(mix, ColumnRound(mix, RowRound(mix, ColumnRound(mix, x))))))))
    ensures forall i :: 0 <= i < 16 ==> Salsa208(mix, x)[i] == (x[i] as int + y[i] as int) % 0x1_0000_0000
  {
    assert DoubleRounds(mix, x, 1) == RowRound(mix, ColumnRound(mix, x));
    assert DoubleRounds(mix, x, 2) == RowRound(mix, ColumnRound(mix, DoubleRounds(mix, x, 1)));
    assert DoubleRounds(mix, x, 3) == RowRound(mix, ColumnRound(mix, DoubleRounds(mix, x, 2)));
    assert DoubleRounds(mix, x, 4) == RowRound(mix, ColumnRound(mix, DoubleRounds(mix, x, 3)));
  }

  // ---- section 4: the chain of blocks ----

  /** t is the bitwise sum of x and y, word by word. */
  ghost predicate Xored(x: seq<Word>, y: seq<Word>, t: seq<Word>) {
    && |x| == |y| == |t|
    && forall w, k: nat {:trigger Bit(t[w], k)} :: 0 <= w < |t| ==> Bit(t[w], k) == (Bit(x[w], k) + Bit(y[w], k)) % 2
  }

  lemma XorIsXored(x: seq<Word>, y: seq<Word>)
    requires |x| == |y|
    ensures Xored(x, y, XorWords(x, y))
  {
    forall w, k: nat | 0 <= w < |x|
      ensures Bit(XorWords(x, y)[w], k) == (Bit(x[w], k) + Bit(y[w], k)) % 2
    {
      BitLaws(x[w], y[w], k);
    }
  }

  /** A word is its bits. */
  lemma {:induction false} BitsDecide(x: nat, y: nat)
    requires forall k: nat :: Bit(x, k) == Bit(y, k)
    ensures x == y
  {
    BitOfHalf(x, 0);
    BitOfHalf(y, 0);
    assert Bit(x, 0) == Bit(y, 0);
    if x > 0 || y > 0 {
      forall k: nat
        ensures Bit(x / 2, k) == Bit(y / 2, k)
      {
        BitOfHalf(x, k);
        BitOfHalf(y, k);
        assert Bit(x, k + 1) == Bit(y, k + 1);
      }
      BitsDecide(x / 2, y / 2);
    }
  }

  lemma XoredUnique(x: seq<Word>, y: seq<Word>, t: seq<Word>)
    requires Xored(x, y, t)
    ensures t == XorWords(x, y)
  {
    XorIsXored(x, y);
    forall w | 0 <= w < |t|
      ensures t[w] == XorWords(x, y)[w]
    {
      BitsDecide(t[w], XorWords(x, y)[w]);
    }
  }

  /**
   scryptBlockMix: X is first the last block, each Y_i is the hash of the bitwise sum of the
   value before and block i, and the output lists Y_0, Y_2, ... and then Y_1, Y_3, ...
   */
  lemma BlockMixChain(hash: Hash, b: seq<Word>, r: nat, t: seq<Block>, y: seq<Block>)
    requires r >= 1 && |b| == 32 * r && |t| == |y| == 2 * r
    requires forall i :: 0 <= i < 2 * r ==> y[i] == hash(t[i])
    requires Xored(b[32 * r - 16..], b[..16], t[0])
    requires forall i :: 1 <= i < 2 * r ==> Xored(y[i - 1], BlockAt(b, i), t[i])
    ensures forall k :: 0 <= k < r ==> BlockAt(BlockMix(hash, b, r), k) == y[2 * k]
    ensures forall k :: 0 <= k < r ==> BlockAt(BlockMix(hash, b, r), r + k) == y[2 * k + 1]
  {
    forall i | 0 <= i < 2 * r
      ensures MixedBlock(hash, b, r, i) == y[i]
    {
      ChainIsMixed(hash, b, r, t, y, i);
    }
    forall k | 0 <= k < r
      ensures BlockAt(BlockMix(hash, b, r), k) == y[2 * k] && BlockAt(BlockMix(hash, b, r), r + k) == y[2 * k + 1]
    {
      EvenThenOdd(hash, b, r, k);
    }
  }

  lemma EvenThenOdd(hash: Hash, b: seq<Word>, r: nat, k: nat)
    requires |b| == 32 * r && k < r
    ensures BlockAt(BlockMix(hash, b, r), k) == MixedBlock(hash, b, r, 2 * k)
    ensures BlockAt(BlockMix(hash, b, r), r + k) == MixedBlock(hash, b, r, 2 * k + 1)
  {
    MixedPrefixAt(hash, b, r, 2 * r, k);
    MixedPrefixAt(hash, b, r, 2 * r, r + k);
  }

  lemma {:induction false} ChainIsMixed(hash: Hash, b: seq<Word>, r: nat, t: seq<Block>, y: seq<Block>, i: nat)
    requires r >= 1 && |b| == 32 * r && |t| == |y| == 2 * r && i < 2 * r
    requires forall i :: 0 <= i < 2 * r ==> y[i] == hash(t[i])
    requires Xored(b[32 * r - 16..], b[..16], t[0])
    requires forall i :: 1 <= i < 2 * r ==> Xored(y[i - 1], BlockAt(b, i), t[i])
    ensures MixedBlock(hash, b, r, i) == y[i]
  {
    if i == 0 {
      assert BlockAt(b, 2 * r - 1) == b[32 * r - 16..] && BlockAt(b, 0) == b[..16];
      XoredUnique(b[32 * r - 16..], b[..16], t[0]);
      BlocksAsWords(BlockAt(b, 2 * r - 1), BlockAt(b, 0));
    } else {
      ChainIsMixed(hash, b, r, t, y, i - 1);
      XoredUnique(y[i - 1], BlockAt(b, i), t[i]);
      BlocksAsWords(y[i - 1], BlockAt(b, i));
    }
  }

  lemma BlocksAsWords(x: Block, y: Block)
    ensures XorBlocks(x, y) == XorWords(x, y)
  {
  }

  lemma {:induction false} MixedPrefixAt(hash: Hash, b: seq<Word>, r: nat, n: nat, i: nat)
    requires r >= 1 && |b| == 32 * r && i < n <= 2 * r
    ensures BlockAt(MixedPrefix(hash, b, r, n), i) == MixedBlock(hash, b, r, SourceBlock(r, i))
  {
    var front, last := MixedPrefix(hash, b, r, n - 1), MixedBlock(hash, b, r, SourceBlock(r, n - 1));
    if i < n - 1 {
      MixedPrefixAt(hash, b, r, n - 1, i);
      SliceOfFront(front, last, 16 * i, 16 * i + 16);
    } else {
      SliceOfLast(front, last, 16 * i, 16 * i + 16);
    }
  }

  // ---- section 5: the vector and the turns ----

  /**
   scryptROMix for N = 2^k: V_0 is the input and V_{i+1} its layer; X starts as the layer of
   V_{N-1}, and each turn replaces X by the layer of its bitwise sum with the entry V_j, where
   j is the first word of X's last 64-byte block modulo N.
   */
  lemma RoMixTurns(layer: Layer, b: seq<Word>, r: nat, k: nat, v: seq<seq<Word>>, x: seq<seq<Word>>, t: seq<seq<Word>>)
    requires r >= 1 && |b| == 32 * r && Preserves(layer) && k <= 31
    requires |v| == |t| == Pow2(k) && |x| == Pow2(k) + 1
    requires v[0] == b && forall i :: 1 <= i < Pow2(k) ==> v[i] == layer(v[i - 1])
    requires x[0] == layer(v[Pow2(k) - 1])
    requires forall i :: 0 <= i < Pow2(k) ==> TurnOf(layer, r, v, x[i], t[i], x[i + 1])
    ensures RoMix(layer, b, r, Pow2(k)) == x[Pow2(k)]
  {
    VectorIsIterates(layer, b, v, Pow2(k) - 1);
    assert Iterate(layer, b, Pow2(k)) == x[0];
    TurnsAreMixing(layer, b, r, k, v, x, t, Pow2(k));
  }

  /** next is the layer of t, the sum of x and the entry that x selects. */
  ghost predicate TurnOf(layer: Layer, r: nat, v: seq<seq<Word>>, x: seq<Word>, t: seq<Word>, next: seq<Word>) {
    && r >= 1 && |x| == 32 * r && |v| >= 1
    && Xored(x, v[x[32 * r - 16] % |v|], t)
    && next == layer(t)
  }

  lemma {:induction false} VectorIsIterates(layer: Layer, b: seq<Word>, v: seq<seq<Word>>, i: nat)
    requires i < |v| && v[0] == b && forall i :: 1 <= i < |v| ==> v[i] == layer(v[i - 1])
    ensures Iterate(layer, b, i) == v[i]
  {
    if i > 0 {
      VectorIsIterates(layer, b, v, i - 1);
    }
  }

  lemma {:induction false} TurnsAreMixing(layer: Layer, b: seq<Word>, r: nat, k: nat, v: seq<seq<Word>>,
                                          x: seq<seq<Word>>, t: seq<seq<Word>>, turns: nat)
    requires r >= 1 && |b| == 32 * r && Preserves(layer) && k <= 31 && turns <= Pow2(k)
    requires |v| == |t| == Pow2(k) && |x| == Pow2(k) + 1
    requires v[0] == b && forall i :: 1 <= i < Pow2(k) ==> v[i] == layer(v[i - 1])
    requires x[0] == Iterate(layer, b, Pow2(k))
    requires forall i :: 0 <= i < Pow2(k) ==> TurnOf(layer, r, v, x[i], t[i], x[i + 1])
    ensures Mixing(layer, b, r, Pow2(k), turns) == x[turns]
  {
    if turns > 0 {
      TurnsAreMixing(layer, b, r, k, v, x, t, turns - 1);
      var before, sum := x[turns - 1], t[turns - 1];
      assert TurnOf(layer, r, v, before, sum, x[turns]);
      SelectByMask(before, r, k);
      MaskIsRemainder(before[32 * r - 16], k);
      var j := before[32 * r - 16] % Pow2(k);
      VectorIsIterates(layer, b, v, j);
      XoredUnique(before, v[j], sum);
    }
  }
}
