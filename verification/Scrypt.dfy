/** The memory-hard core of scrypt on flat word arrays (RFC 7914, sections 3 to 5). */
module Scrypt {
  import opened Bytes
  import opened Words

  type Block = s: seq<Word> | |s| == 16 witness seq(16, i => 0)

  /**
   One assignment of the Salsa20 core, x ^= rotateLeft((y + z) >>> 0, count).  The layout
   of the rounds does not depend on what it computes, so it is a parameter below.
   */
  type Mixer = (Word, Word, Word, nat) -> Word

  function MixWords(x: Word, y: Word, z: Word, count: nat): Word {
    if count <= 32 then XorWord(x, RotateLeft(AddWord(y, z), count)) else x
  }

  // ---- Salsa20/8, section 3: the structured definition ----

  function QuarterRound(mix: Mixer, y0: Word, y1: Word, y2: Word, y3: Word): (Word, Word, Word, Word) {
    var z1 := mix(y1, y0, y3, 7);
    var z2 := mix(y2, z1, y0, 9);
    var z3 := mix(y3, z2, z1, 13);
    var z0 := mix(y0, z3, z2, 18);
    (z0, z1, z2, z3)
  }

  /** Each column of the 4x4 matrix, rotated to start at its diagonal entry. */
  function ColumnRound(mix: Mixer, x: Block): Block {
    var (a0, a4, a8, a12) := QuarterRound(mix, x[0], x[4], x[8], x[12]);
    var (a5, a9, a13, a1) := QuarterRound(mix, x[5], x[9], x[13], x[1]);
    var (a10, a14, a2, a6) := QuarterRound(mix, x[10], x[14], x[2], x[6]);
    var (a15, a3, a7, a11) := QuarterRound(mix, x[15], x[3], x[7], x[11]);
    [a0, a1, a2, a3, a4, a5, a6, a7, a8, a9, a10, a11, a12, a13, a14, a15]
  }

  function Transpose(x: Block): Block {
    [x[0], x[4], x[8], x[12], x[1], x[5], x[9], x[13], x[2], x[6], x[10], x[14], x[3], x[7], x[11], x[15]]
  }

  /** The same on rows. */
  function RowRound(mix: Mixer, x: Block): Block {
    Transpose(ColumnRound(mix, Transpose(x)))
  }

  function DoubleRounds(mix: Mixer, x: Block, n: nat): Block {
    if n == 0 then x else RowRound(mix, ColumnRound(mix, DoubleRounds(mix, x, n - 1)))
  }

  function AddBlocks(x: Block, y: Block): Block {
    seq(16, i requires 0 <= i < 16 => AddWord(x[i], y[i]))
  }

  const DOUBLE_ROUNDS := 4

  /** Eight rounds, then the feed-forward. */
  function Salsa208(mix: Mixer, x: Block): Block {
    AddBlocks(x, DoubleRounds(mix, x, DOUBLE_ROUNDS))
  }

  /** The words of a block after one quarter-round was written to four of its places. */
  function Put(x: Block, a: nat, b: nat, c: nat, d: nat, z: (Word, Word, Word, Word)): Block
    requires a < 16 && b < 16 && c < 16 && d < 16
  {
    x[a := z.0][b := z.1][c := z.2][d := z.3]
  }

  function QuarterAt(mix: Mixer, x: Block, a: nat, b: nat, c: nat, d: nat): Block
    requires a < 16 && b < 16 && c < 16 && d < 16
  {
    Put(x, a, b, c, d, QuarterRound(mix, x[a], x[b], x[c], x[d]))
  }

  /** Four consecutive in-place assignments of the loop body make one quarter-round. */
  method Quarter(mix: Mixer, x: array<Word>, a: nat, b: nat, c: nat, d: nat)
    requires x.Length == 16 && a < 16 && b < 16 && c < 16 && d < 16
    requires a != b && a != c && a != d && b != c && b != d && c != d
    modifies x
    ensures x[..] == QuarterAt(mix, old(x[..]), a, b, c, d)
  {
    x[b] := mix(x[b], x[a], x[d], 7);
    x[c] := mix(x[c], x[b], x[a], 9);
    x[d] := mix(x[d], x[c], x[b], 13);
    x[a] := mix(x[a], x[d], x[c], 18);
  }

  /** The first half of the loop body: sixteen assignments on columns. */
  method Columns(mix: Mixer, x: array<Word>)
    requires x.Length == 16
    modifies x
    ensures x[..] == ColumnRound(mix, old(x[..]))
  {
    ColumnsAsQuarters(mix, x[..]);
    Quarter(mix, x, 0, 4, 8, 12);
    Quarter(mix, x, 5, 9, 13, 1);
    Quarter(mix, x, 10, 14, 2, 6);
    Quarter(mix, x, 15, 3, 7, 11);
  }

  /** The second half: sixteen assignments on rows. */
  method Rows(mix: Mixer, x: array<Word>)
    requires x.Length == 16
    modifies x
    ensures x[..] == RowRound(mix, old(x[..]))
  {
    RowsAsQuarters(mix, x[..]);
    Quarter(mix, x, 0, 1, 2, 3);
    Quarter(mix, x, 5, 6, 7, 4);
    Quarter(mix, x, 10, 11, 8, 9);
    Quarter(mix, x, 15, 12, 13, 14);
  }

  /** The client's salsa208: thirty-two in-place assignments, four times, then the feed-forward. */
  method Salsa208InPlace(mix: Mixer, block: array<Word>)
    requires block.Length == 16
    modifies block
    ensures block[..] == Salsa208(mix, old(block[..]))
  {
    var x := CopyOf(block, 0, 16);
    ghost var input: Block := block[..];
    assert block[0..16] == input;
    for round := 0 to DOUBLE_ROUNDS
      invariant x[..] == DoubleRounds(mix, input, round) && block[..] == input
    {
      Columns(mix, x);
      Rows(mix, x);
    }
    FeedForward(block, x[..]);
  }

  /** The last loop of salsa208. */
  method FeedForward(block: array<Word>, x: Block)
    requires block.Length == 16
    modifies block
    ensures block[..] == AddBlocks(old(block[..]), x)
  {
    for index := 0 to 16
      invariant forall i :: 0 <= i < index ==> block[i] == AddWord(old(block[i]), x[i])
      invariant forall i :: index <= i < 16 ==> block[i] == old(block[i])
    {
      block[index] := AddWord(block[index], x[index]);
    }
  }

  /** The four in-place quarter-rounds on columns do not disturb each other. */
  lemma ColumnsAsQuarters(mix: Mixer, x: Block)
    ensures QuarterAt(mix, QuarterAt(mix, QuarterAt(mix, QuarterAt(mix, x, 0, 4, 8, 12), 5, 9, 13, 1), 10, 14, 2, 6),
                      15, 3, 7, 11)
         == ColumnRound(mix, x)
  {
  }

  /** Likewise for the quarter-rounds on rows. */
  lemma RowsAsQuarters(mix: Mixer, x: Block)
    ensures QuarterAt(mix, QuarterAt(mix, QuarterAt(mix, QuarterAt(mix, x, 0, 1, 2, 3), 5, 6, 7, 4), 10, 11, 8, 9), 15,
                      12, 13, 14)
         == RowRound(mix, x)
  {
  }

  // ---- scryptBlockMix, section 4 ----

  /** The block function; the two layers above it do not look inside. */
  type Hash = Block -> Block

  ghost predicate Computes(mix: Mixer, hash: Hash) {
    forall x: Block {:trigger Salsa208(mix, x)} :: Salsa208(mix, x) == hash(x)
  }

  function BlockAt(b: seq<Word>, i: nat): Block
    requires 16 * i + 16 <= |b|
  {
    b[16 * i..16 * i + 16]
  }

  function XorBlocks(x: Block, y: Block): Block {
    seq(16, i requires 0 <= i < 16 => XorWord(x[i], y[i]))
  }

  /** The chaining value before block i: the predecessor's output, or the last block. */
  function Chaining(hash: Hash, b: seq<Word>, r: nat, i: nat): Block
    requires r >= 1 && |b| == 32 * r && i <= 2 * r
    decreases i, 1
  {
    if i == 0 then BlockAt(b, 2 * r - 1) else MixedBlock(hash, b, r, i - 1)
  }

  /** Y_i */
  function MixedBlock(hash: Hash, b: seq<Word>, r: nat, i: nat): Block
    requires r >= 1 && |b| == 32 * r && i < 2 * r
    decreases i, 2
  {
    hash(XorBlocks(Chaining(hash, b, r, i), BlockAt(b, i)))
  }

  /** The block that ends at place i: the even blocks Y_0, Y_2, ... in order, then the odd ones. */
  function SourceBlock(r: nat, i: nat): nat {
    if i < r then 2 * i else 2 * (i - r) + 1
  }

  /** The first n blocks of the output. */
  function MixedPrefix(hash: Hash, b: seq<Word>, r: nat, n: nat): (out: seq<Word>)
    requires r >= 1 && |b| == 32 * r && n <= 2 * r
    ensures |out| == 16 * n
  {
    if n == 0 then [] else MixedPrefix(hash, b, r, n - 1) + MixedBlock(hash, b, r, SourceBlock(r, n - 1))
  }

  function BlockMix(hash: Hash, b: seq<Word>, r: nat): (out: seq<Word>)
    requires r >= 1 && |b| == 32 * r
    ensures |out| == 32 * r
  {
    MixedPrefix(hash, b, r, 2 * r)
  }

  /** A flat array with these blocks is the concatenation. */
  lemma {:induction false} PrefixFromBlocks(hash: Hash, b: seq<Word>, r: nat, n: nat, out: seq<Word>)
    requires r >= 1 && |b| == 32 * r && n <= 2 * r && |out| == 16 * n
    requires forall i :: 0 <= i < n ==> BlockAt(out, i) == MixedBlock(hash, b, r, SourceBlock(r, i))
    ensures out == MixedPrefix(hash, b, r, n)
  {
    if n > 0 {
      var shorter := out[..16 * (n - 1)];
      forall i | 0 <= i < n - 1
        ensures BlockAt(shorter, i) == MixedBlock(hash, b, r, SourceBlock(r, i))
      {
        assert BlockAt(shorter, i) == BlockAt(out, i);
      }
      PrefixFromBlocks(hash, b, r, n - 1, shorter);
      assert out == shorter + BlockAt(out, n - 1);
    }
  }

  /** dst.set(src, offset) on typed arrays. */
  method SetAt(dst: array<Word>, src: seq<Word>, offset: nat)
    requires offset + |src| <= dst.Length
    modifies dst
    ensures forall k :: 0 <= k < dst.Length ==>
      dst[k] == if offset <= k < offset + |src| then src[k - offset] else old(dst[k])
  {
    for i := 0 to |src|
      invariant forall k :: 0 <= k < dst.Length ==>
        dst[k] == if offset <= k < offset + i then src[k - offset] else old(dst[k])
    {
      dst[offset + i] := src[i];
    }
  }

  /** The same for one 16-word block: it replaces that block and no other. */
  method SetBlock(dst: array<Word>, src: Block, at: nat)
    requires 16 * at + 16 <= dst.Length
    modifies dst
    ensures BlockAt(dst[..], at) == src
    ensures forall j :: 0 <= j && j != at && 16 * j + 16 <= dst.Length ==>
      BlockAt(dst[..], j) == BlockAt(old(dst[..]), j)
  {
    SetAt(dst, src, 16 * at);
  }

  /** new Uint32Array(src.slice(from, from + count)) */
  method CopyOf(src: array<Word>, from: nat, count: nat) returns (copy: array<Word>)
    requires from + count <= src.Length
    ensures fresh(copy) && copy[..] == src[from..from + count]
  {
    copy := new Word[count](i requires 0 <= i < count reads src => src[from + i]);
  }

  method Zeros(count: nat) returns (a: array<Word>)
    ensures fresh(a) && a.Length == count
  {
    a := new Word[count](i => 0);
  }

  /** x[word] ^= src[word] for the words of x. */
  method XorInto(x: array<Word>, src: seq<Word>)
    requires |src| == x.Length
    modifies x
    ensures x[..] == XorWords(old(x[..]), src)
    ensures x.Length == 16 ==> x[..] == XorBlocks(old(x[..]), src)
  {
    for word := 0 to x.Length
      invariant forall k :: 0 <= k < word ==> x[k] == XorWord(old(x[k]), src[k])
      invariant forall k :: word <= k < x.Length ==> x[k] == old(x[k])
    {
      x[word] := XorWord(x[word], src[word]);
    }
  }

  function XorWords(x: seq<Word>, y: seq<Word>): seq<Word>
    requires |x| == |y|
  {
    seq(|x|, i requires 0 <= i < |x| => XorWord(x[i], y[i]))
  }

  /** The first n blocks of y are those of the chain. */
  ghost predicate Chained(hash: Hash, b: seq<Word>, r: nat, n: nat, y: seq<Word>) {
    && r >= 1 && |b| == |y| == 32 * r && n <= 2 * r
    && forall j :: 0 <= j < n ==> BlockAt(y, j) == MixedBlock(hash, b, r, j)
  }

  lemma ChainedStep(hash: Hash, b: seq<Word>, r: nat, n: nat, y: seq<Word>, z: seq<Word>)
    requires Chained(hash, b, r, n, y) && n < 2 * r && |z| == |y| && BlockAt(z, n) == MixedBlock(hash, b, r, n)
    requires forall j :: 0 <= j < n ==> BlockAt(z, j) == BlockAt(y, j)
    ensures Chained(hash, b, r, n + 1, z)
  {
  }

  /** One turn of the chain: x ^= block i of the input, salsa208(x), y.set(x, offset). */
  method ChainTurn(mix: Mixer, ghost hash: Hash, x: array<Word>, input: array<Word>, y: array<Word>, ghost b: seq<Word>,
                   r: nat, i: nat)
    requires x.Length == 16 && r >= 1 && input.Length == y.Length == 32 * r && i < 2 * r && Computes(mix, hash)
    requires x != input && x != y && y != input && input[..] == b
    requires x[..] == Chaining(hash, b, r, i) && Chained(hash, b, r, i, y[..])
    modifies x, y
    ensures x[..] == Chaining(hash, b, r, i + 1) && Chained(hash, b, r, i + 1, y[..])
  {
    ghost var before := y[..];
    XorInto(x, BlockAt(input[..], i));
    Salsa208InPlace(mix, x);
    SetBlock(y, x[..], i);
    ChainedStep(hash, b, r, i, before, y[..]);
  }

  /** The first loop of blockMix. */
  method ChainInto(mix: Mixer, ghost hash: Hash, input: array<Word>, r: nat) returns (y: array<Word>)
    requires r >= 1 && input.Length == 32 * r && Computes(mix, hash)
    ensures fresh(y) && y.Length == 32 * r && Chained(hash, input[..], r, 2 * r, y[..])
  {
    ghost var b := input[..];
    var x := CopyOf(input, (2 * r - 1) * 16, 16);
    y := Zeros(input.Length);
    for block := 0 to 2 * r
      invariant x[..] == Chaining(hash, b, r, block) && Chained(hash, b, r, block, y[..])
    {
      ChainTurn(mix, hash, x, input, y, b, r, block);
    }
  }

  /** output.set(y.subarray(...), ...), one block long. */
  method CopyBlock(y: array<Word>, output: array<Word>, from: nat, to: nat)
    requires y != output && 16 * from + 16 <= y.Length && 16 * to + 16 <= output.Length
    modifies output
    ensures BlockAt(output[..], to) == BlockAt(y[..], from)
    ensures forall j :: 0 <= j && j != to && 16 * j + 16 <= output.Length ==>
      BlockAt(output[..], j) == BlockAt(old(output[..]), j)
  {
    assert y[16 * from..16 * from + 16] == BlockAt(y[..], from);
    SetBlock(output, y[16 * from..16 * from + 16], to);
  }

  /** The two copying loops of blockMix. */
  method Shuffle(y: array<Word>, r: nat) returns (output: array<Word>)
    requires r >= 1 && y.Length == 32 * r
    ensures fresh(output) && output.Length == 32 * r
    ensures forall i :: 0 <= i < 2 * r ==> BlockAt(output[..], i) == BlockAt(y[..], SourceBlock(r, i))
  {
    output := Zeros(y.Length);
    for block := 0 to r
      invariant forall i :: 0 <= i < block ==> BlockAt(output[..], i) == BlockAt(y[..], SourceBlock(r, i))
    {
      CopyBlock(y, output, 2 * block, block);
    }
    for block := 0 to r
      invariant forall i :: 0 <= i < r + block ==> BlockAt(output[..], i) == BlockAt(y[..], SourceBlock(r, i))
    {
      CopyBlock(y, output, 2 * block + 1, block + r);
    }
  }

  /** The client's blockMix. */
  method BlockMixInto(mix: Mixer, ghost hash: Hash, input: array<Word>, r: nat) returns (output: array<Word>)
    requires r >= 1 && input.Length == 32 * r && Computes(mix, hash)
    ensures fresh(output) && output[..] == BlockMix(hash, input[..], r)
  {
    var y := ChainInto(mix, hash, input, r);
    output := Shuffle(y, r);
    PrefixFromBlocks(hash, input[..], r, 2 * r, output[..]);
  }

  // ---- scryptROMix, section 5 ----

  /** BlockMix at a fixed r; ROMix does not look inside. */
  type Layer = seq<Word> -> seq<Word>

  ghost predicate Preserves(layer: Layer) {
    forall x {:trigger layer(x)} :: |layer(x)| == |x|
  }

  ghost predicate Applies(hash: Hash, r: nat, layer: Layer)
    requires r >= 1
  {
    forall x: seq<Word> {:trigger BlockMix(hash, x, r)} :: |x| == 32 * r ==> BlockMix(hash, x, r) == layer(x)
  }

  /** X after i applications of BlockMix: the vector entry V_i. */
  function Iterate(layer: Layer, b: seq<Word>, i: nat): seq<Word> {
    if i == 0 then b else layer(Iterate(layer, b, i - 1))
  }

  lemma {:induction false} IterateLength(layer: Layer, b: seq<Word>, i: nat)
    requires Preserves(layer)
    ensures |Iterate(layer, b, i)| == |b|
  {
    if i > 0 {
      IterateLength(layer, b, i - 1);
    }
  }

  /** The little-endian number of a word sequence. */
  function WordsLE(s: seq<Word>): nat {
    if s == [] then 0 else s[0] + WORD * WordsLE(s[1..])
  }

  /** The last 64-byte block read as one little-endian integer. */
  function Integerify(x: seq<Word>, r: nat): nat
    requires r >= 1 && |x| == 32 * r
  {
    WordsLE(BlockAt(x, 2 * r - 1))
  }

  /** One turn of the second loop: T = X xor V_j with j = Integerify(X) mod N, then BlockMix. */
  function Turn(layer: Layer, b: seq<Word>, r: nat, n: nat, x: seq<Word>): seq<Word>
    requires r >= 1 && n >= 1
  {
    if |x| != 32 * r then x
    else
      var v := Iterate(layer, b, Integerify(x, r) % n);
      if |v| == |x| then layer(XorWords(x, v)) else x
  }

  /** X after k turns. */
  function Mixing(layer: Layer, b: seq<Word>, r: nat, n: nat, k: nat): seq<Word>
    requires r >= 1 && n >= 1
  {
    if k == 0 then Iterate(layer, b, n) else Turn(layer, b, r, n, Mixing(layer, b, r, n, k - 1))
  }

  /** Lengths always agree, so every turn is the step section 5 prescribes. */
  lemma {:induction false} TurnIsStep(layer: Layer, b: seq<Word>, r: nat, n: nat, k: nat)
    requires r >= 1 && n >= 1 && |b| == 32 * r && Preserves(layer)
    ensures |Mixing(layer, b, r, n, k)| == 32 * r
    ensures var x := Mixing(layer, b, r, n, k);
            var v := Iterate(layer, b, Integerify(x, r) % n);
            |v| == |x| && Mixing(layer, b, r, n, k + 1) == layer(XorWords(x, v))
  {
    IterateLength(layer, b, n);
    if k > 0 {
      TurnIsStep(layer, b, r, n, k - 1);
    }
    IterateLength(layer, b, Integerify(Mixing(layer, b, r, n, k), r) % n);
  }

  function RoMix(layer: Layer, b: seq<Word>, r: nat, n: nat): seq<Word>
    requires r >= 1 && n >= 1
  {
    Mixing(layer, b, r, n, n)
  }

  /** Masking the first word of the last block selects the same entry as Integerify mod N. */
  lemma SelectByMask(x: seq<Word>, r: nat, k: nat)
    requires r >= 1 && |x| == 32 * r && k <= 32
    ensures And(x[(2 * r - 1) * 16], Pow2(k) - 1) == Integerify(x, r) % Pow2(k)
  {
    assert BlockAt(x, 2 * r - 1)[0] == x[(2 * r - 1) * 16];
    MaskSelects(BlockAt(x, 2 * r - 1), k);
  }

  lemma MaskSelects(s: seq<Word>, k: nat)
    requires s != [] && k <= 32
    ensures And(s[0], Pow2(k) - 1) == WordsLE(s) % Pow2(k)
  {
    MaskIsRemainder(s[0], k);
    WordIsPow2();
    Pow2Add(k, 32 - k);
    LowPart(s[0], WordsLE(s[1..]), Pow2(k), Pow2(32 - k));
  }

  lemma LowPart(low: Word, rest: nat, w: int, h: int)
    requires w >= 1 && w * h == WORD
    ensures (low + WORD * rest) % w == low % w
  {
    var m := h * rest;
    assert WORD * rest == m * w by {
      assert (w * h) * rest == w * (h * rest);
    }
    assert (low / w + m) * w == (low / w) * w + m * w;
    ModUnique(low + m * w, low / w + m, low % w, w);
  }

  /** The entries V_0, ..., V_{n-1} laid end to end, as the client stores them. */
  function Stored(layer: Layer, b: seq<Word>, n: nat): seq<Word> {
    if n == 0 then [] else Stored(layer, b, n - 1) + Iterate(layer, b, n - 1)
  }

  lemma {:induction false} StoredEntry(layer: Layer, b: seq<Word>, n: nat, i: nat)
    requires Preserves(layer) && i < n
    ensures |Stored(layer, b, n)| == n * |b|
    ensures 0 <= i * |b| && i * |b| + |b| <= n * |b|
    ensures Stored(layer, b, n)[i * |b|..i * |b| + |b|] == Iterate(layer, b, i)
  {
    StoredLength(layer, b, n);
    StoredLength(layer, b, n - 1);
    RoomForOne(i, n, |b|);
    var front, last := Stored(layer, b, n - 1), Iterate(layer, b, n - 1);
    if i < n - 1 {
      StoredEntry(layer, b, n - 1, i);
      SliceOfFront(front, last, i * |b|, i * |b| + |b|);
    } else {
      SliceOfLast(front, last, i * |b|, i * |b| + |b|);
    }
  }

  lemma {:induction false} StoredLength(layer: Layer, b: seq<Word>, n: nat)
    requires Preserves(layer)
    ensures |Stored(layer, b, n)| == n * |b| && (n > 0 ==> |Iterate(layer, b, n - 1)| == |b|)
  {
    if n > 0 {
      StoredLength(layer, b, n - 1);
      IterateLength(layer, b, n - 1);
      RoomForOne(n - 1, n, |b|);
    }
  }

  lemma SliceOfFront(front: seq<Word>, last: seq<Word>, lo: nat, hi: nat)
    requires lo <= hi <= |front|
    ensures (front + last)[lo..hi] == front[lo..hi]
  {
  }

  lemma SliceOfLast(front: seq<Word>, last: seq<Word>, lo: nat, hi: nat)
    requires lo == |front| && hi == |front| + |last|
    ensures (front + last)[lo..hi] == last
  {
  }

  lemma RoomForOne(index: nat, n: nat, w: nat)
    requires index < n
    ensures 0 <= index * w && index * w + w == (index + 1) * w <= n * w
  {
  }

  /** One turn of the first loop: memory.set(x, offset), then x = blockMix(x). */
  method StoreAndMix(mix: Mixer, ghost hash: Hash, ghost layer: Layer, x: array<Word>, memory: array<Word>, offset: nat,
                     r: nat)
    returns (next: array<Word>)
    requires r >= 1 && x.Length == 32 * r && offset + 32 * r <= memory.Length && x != memory
    requires Computes(mix, hash) && Applies(hash, r, layer)
    modifies memory
    ensures fresh(next) && next.Length == x.Length && next[..] == layer(old(x[..]))
    ensures memory[..offset + 32 * r] == old(memory[..offset]) + old(x[..])
  {
    SetAt(memory, x[..], offset);
    next := BlockMixInto(mix, hash, x, r);
  }

  /** The first loop of scrypt fills the memory with the entries and leaves X = V_n. */
  method FillMemory(mix: Mixer, ghost hash: Hash, ghost layer: Layer, initial: array<Word>, r: nat, n: nat)
    returns (x: array<Word>, memory: array<Word>)
    requires r >= 1 && n >= 1 && initial.Length == 32 * r
    requires Computes(mix, hash) && Applies(hash, r, layer) && Preserves(layer)
    ensures fresh(x) && fresh(memory) && x != memory && x.Length == 32 * r
    ensures x[..] == Iterate(layer, initial[..], n)
    ensures memory[..] == Stored(layer, initial[..], n)
  {
    ghost var b := initial[..];
    var blockWords := 32 * r;
    RoomForOne(0, n, blockWords);
    memory := Zeros(n * blockWords);
    x := CopyOf(initial, 0, blockWords);
    assert initial[0..blockWords] == b;
    var filled := 0;
    for index := 0 to n
      invariant filled == index * blockWords <= memory.Length == n * blockWords
      invariant fresh(x) && fresh(memory) && x != memory && x.Length == blockWords
      invariant x[..] == Iterate(layer, b, index)
      invariant memory[..filled] == Stored(layer, b, index)
    {
      RoomForOne(index, n, blockWords);
      x := StoreAndMix(mix, hash, layer, x, memory, filled, r);
      filled := filled + blockWords;
    }
    assert memory[..filled] == memory[..];
  }

  lemma TurnXors(layer: Layer, b: seq<Word>, r: nat, n: nat, x: seq<Word>, entry: seq<Word>)
    requires r >= 1 && n >= 1 && |x| == |entry| == 32 * r && entry == Iterate(layer, b, Integerify(x, r) % n)
    ensures Turn(layer, b, r, n, x) == layer(XorWords(x, entry))
  {
  }

  /** One turn of the second loop: x ^= the entry x selects, then x = blockMix(x). */
  method MixSelected(mix: Mixer, ghost hash: Hash, ghost layer: Layer, ghost b: seq<Word>, x: array<Word>,
                     memory: array<Word>, r: nat, n: nat, ghost k: nat) returns (next: array<Word>)
    requires r >= 1 && |b| == x.Length == 32 * r && n == Pow2(k) && k <= 31
    requires Computes(mix, hash) && Applies(hash, r, layer) && Preserves(layer)
    requires x != memory && memory[..] == Stored(layer, b, n)
    modifies x
    ensures fresh(next) && next.Length == x.Length && next[..] == Turn(layer, b, r, n, old(x[..]))
  {
    ghost var was := x[..];
    SelectByMask(was, r, k);
    var selected := And(x[(2 * r - 1) * 16], n - 1);
    StoredEntry(layer, b, n, selected);
    IterateLength(layer, b, selected);
    var offset := selected * (32 * r);
    assert memory[offset..offset + 32 * r] == memory[..][offset..offset + 32 * r];
    ghost var entry := memory[offset..offset + 32 * r];
    XorInto(x, memory[offset..offset + 32 * r]);
    TurnXors(layer, b, r, n, was, entry);
    next := BlockMixInto(mix, hash, x, r);
  }

  /** The second loop: n turns from X = V_n. */
  method MixAll(mix: Mixer, ghost hash: Hash, ghost layer: Layer, ghost b: seq<Word>, start: array<Word>,
                memory: array<Word>, r: nat, n: nat, ghost k: nat) returns (x: array<Word>)
    requires r >= 1 && |b| == start.Length == 32 * r && n == Pow2(k) && k <= 31 && start != memory
    requires Computes(mix, hash) && Applies(hash, r, layer) && Preserves(layer)
    requires start[..] == Iterate(layer, b, n) && memory[..] == Stored(layer, b, n)
    modifies start
    ensures (x == start || fresh(x)) && x[..] == RoMix(layer, b, r, n)
  {
    x := start;
    for index := 0 to n
      invariant (x == start || fresh(x)) && x != memory && x.Length == 32 * r
      invariant x[..] == Mixing(layer, b, r, n, index)
      invariant memory[..] == Stored(layer, b, n)
    {
      x := MixSelected(mix, hash, layer, b, x, memory, r, n, k);
    }
  }

  /** Both loops of the client's scrypt compute scryptROMix, for every power of two a word can hold. */
  method RoMixInPlace(mix: Mixer, ghost hash: Hash, ghost layer: Layer, initial: array<Word>, r: nat, n: nat,
                      ghost k: nat)
    returns (x: array<Word>)
    requires r >= 1 && initial.Length == 32 * r && n == Pow2(k) && k <= 31
    requires Computes(mix, hash) && Applies(hash, r, layer) && Preserves(layer)
    ensures fresh(x) && x[..] == RoMix(layer, initial[..], r, n)
  {
    var filled, memory := FillMemory(mix, hash, layer, initial, r, n);
    x := MixAll(mix, hash, layer, initial[..], filled, memory, r, n, k);
  }

  lemma ExponentBound(k: nat)
    ensures k >= 32 ==> Pow2(k) >= WORD
  {
    WordIsPow2();
    if k >= 32 {
      Pow2Add(32, k - 32);
      MulMonotone(1, Pow2(k - 32), Pow2(32));
    }
  }

  /** Salsa20/8 on blocks. */
  function SalsaHash(): Hash {
    (x: Block) => Salsa208(MixWords, x)
  }

  /** scryptBlockMix with Salsa20/8 at block size r. */
  function SalsaLayer(r: nat): (layer: Layer)
    requires r >= 1
    ensures Preserves(layer)
  {
    (x: seq<Word>) => if |x| == 32 * r then BlockMix(SalsaHash(), x, r) else x
  }

  /** The parameter check and the core: anything but a power of two above one, with p = 1, is refused. */
  method Scrypt(initial: array<Word>, n: int, r: nat, p: int) returns (x: Result<seq<Word>>)
    requires r >= 1 && initial.Length == 32 * r && n <= 0x8000_0000
    ensures x.Ok? <==> p == 1 && n > 1 && exists k: nat :: n == Pow2(k)
    ensures x.Ok? ==> x.value == RoMix(SalsaLayer(r), initial[..], r, n)
  {
    if n >= 1 {
      ghost var k := PowerOfTwoTest(n);
      if And(n, n - 1) == 0 && n > 1 && p == 1 {
        ExponentBound(k);
        var words := RoMixInPlace(MixWords, SalsaHash(), SalsaLayer(r), initial, r, n, k);
        return Ok(words[..]);
      }
    }
    return Err;
  }
}
