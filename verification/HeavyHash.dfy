/** Matrix generation and the integer matrix-vector hash, after `GenerateMatrix` and `bHeavyHash`
    in src/pow/heavyhash.go.  The final BLAKE call is foreign code; the bytes fed to it are
    returned instead. */
module HeavyHash {
  import opened Arithmetic
  import opened Basics
  import opened Xoshiro
  import GaussianRank
  import Kernels

  type Nibble = n: int | 0 <= n < 16

  // ---------- Nibbles of a word ----------

  /** (w >> 4k) & 0x0F. */
  function NibbleOf(w: Word, k: nat): (n: Nibble)
    requires k < 16
  {
    ValueBound(w[4 * k..4 * k + 4]);
    assert Pow(2, 4) == 16;
    Value(w[4 * k..4 * k + 4])
  }

  /** The sixteen nibbles reassemble to the word, bit by bit. */
  lemma NibblesReassemble(w: Word, i: nat)
    requires i < 64
    ensures w[i] == Bits(NibbleOf(w, i / 4), 4)[i % 4]
  {
    BitsOfValue(w[4 * (i / 4)..4 * (i / 4) + 4]);
    assert w[4 * (i / 4)..4 * (i / 4) + 4][i % 4] == w[i];
  }

  /** The number with the given nibbles, the least significant first. */
  function FromNibbles(nibbles: seq<nat>): nat {
    if nibbles == [] then 0 else nibbles[0] + 16 * FromNibbles(nibbles[1..])
  }

  lemma {:induction false} FirstNibble(bits: seq<bool>)
    requires |bits| >= 4
    ensures Value(bits) == Value(bits[..4]) + 16 * Value(bits[4..])
  {
    assert bits == bits[..4] + bits[4..];
    ValueConcat(bits[..4], bits[4..]);
    assert Pow(2, 4) == 16;
  }

  lemma {:induction false} NibblesOfTail(w: Word, nibbles: seq<nat>, k: nat)
    requires k <= 16 && |nibbles| == 16 - k && forall i :: 0 <= i < |nibbles| ==> nibbles[i] == NibbleOf(w, k + i)
    ensures FromNibbles(nibbles) == Value(w[4 * k..])
    decreases 16 - k
  {
    if k == 16 {
      assert w[64..] == [];
    } else {
      NibblesOfTail(w, nibbles[1..], k + 1);
      FirstNibble(w[4 * k..]);
      assert w[4 * k..][..4] == w[4 * k..4 * k + 4] && w[4 * k..][4..] == w[4 * (k + 1)..];
    }
  }

  /** As a number: the sixteen nibbles, the low one first, are the word's hexadecimal digits. */
  lemma NibblesSpellWord(w: Word, nibbles: seq<nat>)
    requires |nibbles| == 16 && forall i :: 0 <= i < 16 ==> nibbles[i] == NibbleOf(w, i)
    ensures FromNibbles(nibbles) == Value(w)
  {
    NibblesOfTail(w, nibbles, 0);
    assert w[0..] == w;
  }

  /** Different words give different nibbles somewhere. */
  lemma NibblesDetermineWord(v: Word, w: Word)
    requires forall k :: 0 <= k < 16 ==> NibbleOf(v, k) == NibbleOf(w, k)
    ensures v == w
  {
    forall i | 0 <= i < 64
      ensures v[i] == w[i]
    {
      NibblesReassemble(v, i);
      NibblesReassemble(w, i);
      assert NibbleOf(v, i / 4) == NibbleOf(w, i / 4);
    }
  }

  // ---------- GenerateMatrix ----------

  /** Entry (i, j) of the matrix filled from a stream of words: nibble j % 16 of word 4i + j / 16. */
  function Entry(words: nat -> Word, i: nat, j: nat): Nibble
    requires i < 64 && j < 64
  {
    NibbleOf(words(4 * i + j / 16), j % 16)
  }

  function MatrixOf(words: nat -> Word): (m: seq<seq<nat>>)
    ensures |m| == 64 && forall i :: 0 <= i < 64 ==> |m[i]| == 64
    ensures forall i, j :: 0 <= i < 64 && 0 <= j < 64 ==> m[i][j] == Entry(words, i, j)
  {
    seq(64, i requires 0 <= i < 64 => seq(64, j requires 0 <= j < 64 => Entry(words, i, j)))
  }

  ghost predicate Invertible(m: seq<seq<nat>>)
    requires forall k :: 0 <= k < |m| ==> |m[k]| == |m|
  {
    Kernels.TrivialKernel(GaussianRank.AsReals(m))
  }

  /** The words drawn from a seed, from number `from` on. */
  function Draws(seed: State, from: nat): nat -> Word {
    (n: nat) => Output(Steps(seed, from + n))
  }

  /** The matrix of round r of the endless loop: each round draws 256 words. */
  function Round(seed: State, r: nat): (m: seq<seq<nat>>)
    ensures |m| == 64 && forall i :: 0 <= i < 64 ==> |m[i]| == 64
    ensures forall i, j :: 0 <= i < 64 && 0 <= j < 64 ==> m[i][j] == Entry(Draws(seed, 256 * r), i, j)
  {
    MatrixOf(Draws(seed, 256 * r))
  }

  ghost predicate NibbleMatrix(mat: seq<seq<nat>>) {
    && |mat| == 64 && (forall i :: 0 <= i < 64 ==> |mat[i]| == 64)
    && (forall i, j :: 0 <= i < 64 && 0 <= j < 64 ==> mat[i][j] < 16)
  }

  lemma RoundHasNibbles(seed: State, r: nat)
    ensures NibbleMatrix(Round(seed, r))
  {
    hide Entry, Draws;
  }

  lemma EntryOfWord(words: nat -> Word, n: nat, k: nat)
    requires n < 256 && k < 16
    ensures Entry(words, n / 4, n % 4 * 16 + k) == NibbleOf(words(n), k)
  {
    hide NibbleOf;
    assert 4 * (n / 4) + n % 4 == n && (n % 4 * 16 + k) / 16 == n % 4 && (n % 4 * 16 + k) % 16 == k;
  }

  lemma MatrixDeterminesWord(v: nat -> Word, w: nat -> Word, n: nat)
    requires n < 256 && forall i, j :: 0 <= i < 64 && 0 <= j < 64 ==> Entry(v, i, j) == Entry(w, i, j)
    ensures v(n) == w(n)
  {
    forall k | 0 <= k < 16
      ensures NibbleOf(v(n), k) == NibbleOf(w(n), k)
    {
      EntryOfWord(v, n, k);
      EntryOfWord(w, n, k);
    }
    NibblesDetermineWord(v(n), w(n));
  }

  /** The nibbles reassemble: two rounds, of whatever seeds, give the same matrix exactly when the
      generator gave the same 256 words. */
  lemma RoundsDetermineDraws(seed: State, r: nat, seed': State, r': nat)
    ensures Round(seed, r) == Round(seed', r')
       <==> forall n :: 0 <= n < 256 ==> Draws(seed, 256 * r)(n) == Draws(seed', 256 * r')(n)
  {
    hide Draws, NibbleOf;
    var v, w := Draws(seed, 256 * r), Draws(seed', 256 * r');
    var m, m' := Round(seed, r), Round(seed', r');
    if m == m' {
      forall n | 0 <= n < 256
        ensures v(n) == w(n)
      {
        forall i, j | 0 <= i < 64 && 0 <= j < 64
          ensures Entry(v, i, j) == Entry(w, i, j)
        {
          assert m[i][j] == m'[i][j];
        }
        MatrixDeterminesWord(v, w, n);
      }
    }
    if forall n :: 0 <= n < 256 ==> v(n) == w(n) {
      forall i | 0 <= i < 64
        ensures m[i] == m'[i]
      {
        forall j | 0 <= j < 64
          ensures m[i][j] == m'[i][j]
        {
          assert v(4 * i + j / 16) == w(4 * i + j / 16);
        }
      }
    }
  }

  /** The matrix is the stream: sixteen entries from column 16b of row i on are the digits, the low
      one first, of draw 4i + b of the round. */
  lemma RoundSpellsDraws(seed: State, r: nat, i: nat, b: nat)
    requires i < 64 && b < 4
    ensures FromNibbles(Round(seed, r)[i][16 * b..16 * b + 16]) == Value(Draws(seed, 256 * r)(4 * i + b))
  {
    hide Draws, NibbleOf, Value;
    var words, entries := Draws(seed, 256 * r), Round(seed, r)[i][16 * b..16 * b + 16];
    forall k | 0 <= k < 16
      ensures entries[k] == NibbleOf(words(4 * i + b), k)
    {
      assert entries[k] == Round(seed, r)[i][16 * b + k];
      EntryOfWord(words, 4 * i + b, k);
      assert (4 * i + b) / 4 == i && (4 * i + b) % 4 == b;
    }
    NibblesSpellWord(words(4 * i + b), entries);
  }

  method NextWord(generator: Generator, ghost seed: State, ghost from: nat, ghost n: nat) returns (val: Word)
    requires generator.View() == Steps(seed, from + n)
    modifies generator
    ensures generator.View() == Steps(seed, from + n + 1) && val == Draws(seed, from)(n)
  {
    hide Step, Output, Value, Pow, Updates;
    val := generator.Uint64();
  }

  /** The sixteen assignments for one word. */
  method FillBlock(mat: array2<nat>, i: nat, j: nat, val: Word)
    requires mat.Length0 == mat.Length1 == 64 && i < 64 && j <= 48
    modifies mat
    ensures forall r, q :: 0 <= r < 64 && 0 <= q < 64 && !(r == i && j <= q < j + 16) ==> mat[r, q] == old(mat[r, q])
    ensures forall q :: j <= q < j + 16 ==> mat[i, q] == NibbleOf(val, q - j)
  {
    forall q | j <= q < j + 16 {
      mat[i, q] := NibbleOf(val, q - j);
    }
  }

  method FillRow(generator: Generator, mat: array2<nat>, i: nat, ghost seed: State, ghost from: nat)
    requires mat.Length0 == mat.Length1 == 64 && i < 64
    requires generator.View() == Steps(seed, from + 4 * i)
    modifies generator, mat
    ensures generator.View() == Steps(seed, from + 4 * i + 4)
    ensures forall r, q :: 0 <= r < 64 && 0 <= q < 64 && r != i ==> mat[r, q] == old(mat[r, q])
    ensures forall q :: 0 <= q < 64 ==> mat[i, q] == Entry(Draws(seed, from), i, q)
  {
    hide Steps;
    hide NibbleOf;
    ghost var words := Draws(seed, from);
    var j := 0;
    while j < 64
      invariant j % 16 == 0 && 0 <= j <= 64
      invariant generator.View() == Steps(seed, from + (4 * i + j / 16))
      invariant forall r, q :: 0 <= r < 64 && 0 <= q < 64 && r != i ==> mat[r, q] == old(mat[r, q])
      invariant forall q :: 0 <= q < j ==> mat[i, q] == Entry(words, i, q)
    {
      var val := NextWord(generator, seed, from, 4 * i + j / 16);
      FillBlock(mat, i, j, val);
      forall q | j <= q < j + 16
        ensures mat[i, q] == Entry(words, i, q)
      {
        assert q / 16 == j / 16 && q % 16 == q - j;
      }
      j := j + 16;
    }
  }

  method FillMatrix(generator: Generator, mat: array2<nat>, ghost seed: State, ghost from: nat)
    requires mat.Length0 == mat.Length1 == 64
    requires generator.View() == Steps(seed, from)
    modifies generator, mat
    ensures generator.View() == Steps(seed, from + 256)
    ensures forall i, j :: 0 <= i < 64 && 0 <= j < 64 ==> mat[i, j] == Entry(Draws(seed, from), i, j)
  {
    ghost var words := Draws(seed, from);
    for i := 0 to 64
      invariant generator.View() == Steps(seed, from + 4 * i)
      invariant forall r, q :: 0 <= r < i && 0 <= q < 64 ==> mat[r, q] == Entry(words, r, q)
    {
      FillRow(generator, mat, i, seed, from);
    }
  }

  method Rows(mat: array2<nat>) returns (rows: seq<seq<nat>>)
    requires mat.Length0 == mat.Length1
    ensures |rows| == mat.Length0 && forall i :: 0 <= i < |rows| ==> |rows[i]| == mat.Length0
    ensures forall i, j :: 0 <= i < |rows| && 0 <= j < |rows| ==> rows[i][j] == mat[i, j]
  {
    rows := seq(mat.Length0, i requires 0 <= i < mat.Length0 reads mat =>
              seq(mat.Length1, j requires 0 <= j < mat.Length1 reads mat => mat[i, j]));
  }

  method HasFullRank(rows: seq<seq<nat>>) returns (full: bool)
    requires |rows| == 64 && forall k :: 0 <= k < 64 ==> |rows[k]| == 64
    ensures full <==> Invertible(rows)
  {
    var rank := GaussianRank.ComputeRank(rows);
    full := rank == 64;
  }

  /** One pass of the endless loop, up to the test of the rank. */
  method FillRound(generator: Generator, cells: array2<nat>, ghost seed: State, ghost r: nat) returns (rows: seq<seq<nat>>)
    requires cells.Length0 == cells.Length1 == 64 && generator.View() == Steps(seed, 256 * r)
    modifies generator, cells
    ensures generator.View() == Steps(seed, 256 * (r + 1)) && rows == Round(seed, r) && NibbleMatrix(rows)
  {
    hide *;
    FillMatrix(generator, cells, seed, 256 * r);
    rows := Rows(cells);
    assert rows == Round(seed, r) by {
      assert forall i :: 0 <= i < 64 ==> rows[i] == Round(seed, r)[i];
    }
    RoundHasNibbles(seed, r);
  }

  /** The endless loop.  It returns exactly when some round gives an invertible matrix, here round
      `enough`, and then with the first such matrix of the stream. */
  method GenerateMatrix(hash: seq<Byte>, ghost enough: nat) returns (mat: seq<seq<nat>>, ghost last: nat)
    requires |hash| == 32 && Invertible(Round(Seed(hash), enough))
    ensures NibbleMatrix(mat) && Invertible(mat)
    ensures last <= enough && mat == Round(Seed(hash), last)
    ensures forall r :: 0 <= r < last ==> !Invertible(Round(Seed(hash), r))
  {
    hide *;
    var generator := new Generator(hash);
    ghost var seed := Seed(hash);
    var cells := new nat[64, 64];
    last := 0;
    NoSteps(seed);
    while true
      invariant last <= enough && generator.View() == Steps(seed, 256 * last)
      invariant forall r :: 0 <= r < last ==> !Invertible(Round(Seed(hash), r))
      decreases enough - last
    {
      mat := FillRound(generator, cells, seed, last);
      var full := HasFullRank(mat);
      if full {
        return;
      }
      last := last + 1;
    }
  }

  /** The same loop given up after `rounds` rounds: no answer means that none of them gave an
      invertible matrix. */
  method GenerateWithin(hash: seq<Byte>, rounds: nat) returns (mat: Option<seq<seq<nat>>>, last: nat)
    requires |hash| == 32
    ensures mat.Some? ==> last < rounds && mat.value == Round(Seed(hash), last) && Invertible(mat.value) && NibbleMatrix(mat.value)
    ensures mat.None? ==> last == rounds
    ensures forall r :: 0 <= r < last ==> !Invertible(Round(Seed(hash), r))
  {
    hide *;
    var generator := new Generator(hash);
    ghost var seed := Seed(hash);
    var cells := new nat[64, 64];
    last := 0;
    NoSteps(seed);
    while last < rounds
      invariant 0 <= last <= rounds
      invariant generator.View() == Steps(seed, 256 * last)
      invariant forall r :: 0 <= r < last ==> !Invertible(Round(Seed(hash), r))
    {
      var rows := FillRound(generator, cells, seed, last);
      var full := HasFullRank(rows);
      if full {
        return Some(rows), last;
      }
      last := last + 1;
    }
    mat := None;
  }

  lemma OutputOfZero()
    ensures Output(ZERO) == NO_BITS
  {
    assert Value(NO_BITS) == 0 by { ValueOfNoBits(64); }
    assert Bits(0, 64) == NO_BITS by { BitsOfValue(NO_BITS); }
    assert Rotl(NO_BITS, 23) == NO_BITS;
  }

  lemma {:induction false} ValueOfNoBits(k: nat)
    ensures Value(seq(k, i => false)) == 0
  {
    if k == 0 {
    } else {
      assert seq(k, i => false)[1..] == seq(k - 1, i => false);
      ValueOfNoBits(k - 1);
    }
  }

  /** From the all-zero hash the loop never ends: every round gives the zero matrix. */
  lemma ZeroSeedNeverInvertible(r: nat)
    ensures !Invertible(Round(ZERO, r))
  {
    var m := GaussianRank.AsReals(Round(ZERO, r));
    forall i, j | 0 <= i < 64 && 0 <= j < 64
      ensures m[i][j] == 0.0
    {
      ZeroEntry(r, i, j);
    }
    var ones := seq(64, p => 1.0);
    forall k | 0 <= k < 64
      ensures Kernels.Dot(m[k], ones, 64) == 0.0
    {
      Kernels.DotOfZeroTerms(m[k], ones, 64);
    }
    assert Kernels.InKernel(m, ones);
    assert ones[0] == 1.0;
  }

  lemma ZeroDraws(from: nat, n: nat)
    ensures Draws(ZERO, from)(n) == NO_BITS
  {
    hide Steps;
    hide Output;
    ZeroStaysZero(from + n);
    OutputOfZero();
  }

  lemma ZeroNibble(k: nat)
    requires k < 16
    ensures NibbleOf(NO_BITS, k) == 0
  {
    ValueOfNoBits(4);
    assert NO_BITS[4 * k..4 * k + 4] == seq(4, p => false);
  }

  lemma ZeroEntry(r: nat, i: nat, j: nat)
    requires i < 64 && j < 64
    ensures Entry(Draws(ZERO, 256 * r), i, j) == 0
  {
    hide Draws;
    hide NibbleOf;
    ZeroDraws(256 * r, 4 * i + j / 16);
    ZeroNibble(j % 16);
  }

  // ---------- bHeavyHash ----------

  /** Truncation to uint16. */
  function U16(x: nat): nat { x % 0x1_0000 }

  lemma ByteBound(bits: seq<bool>)
    requires |bits| == 8
    ensures Value(bits) < 256
  {
    ValueBound(bits);
    assert Pow(2, 8) == 16 * Pow(2, 4) && Pow(2, 4) == 16;
  }

  function XorByte(a: Byte, b: Byte): (r: Byte) {
    var bits := seq(8, i requires 0 <= i < 8 => Bits(a, 8)[i] != Bits(b, 8)[i]);
    ByteBound(bits);
    Value(bits)
  }

  function OrByte(a: Byte, b: Byte): (r: Byte) {
    var bits := seq(8, i requires 0 <= i < 8 => Bits(a, 8)[i] || Bits(b, 8)[i]);
    ByteBound(bits);
    Value(bits)
  }

  /** Bit by bit. */
  lemma XorByteBits(a: Byte, b: Byte, i: nat)
    requires i < 8
    ensures Bits(XorByte(a, b), 8)[i] == (Bits(a, 8)[i] != Bits(b, 8)[i])
  {
    BitsOfValue(seq(8, i requires 0 <= i < 8 => Bits(a, 8)[i] != Bits(b, 8)[i]));
  }

  lemma XorByteUndone(a: Byte, b: Byte)
    ensures XorByte(XorByte(a, b), a) == b
  {
    var bits := seq(8, i requires 0 <= i < 8 => Bits(a, 8)[i] != Bits(b, 8)[i]);
    BitsOfValue(bits);
    assert seq(8, i requires 0 <= i < 8 => bits[i] != Bits(a, 8)[i]) == Bits(b, 8);
    ByteFromBits(b);
  }

  lemma NibbleFromBits(n: Nibble)
    ensures Value(Bits(n, 4)) == n
  {
    ValueOfBits(n, 4);
    assert Pow(2, 4) == 16;
  }

  lemma BitsOfPair(a: seq<bool>, b: seq<bool>, n: nat)
    requires |a| == |b| == 4 && Value(a) + 16 * Value(b) == n
    ensures Bits(n, 8) == a + b && Value(a + b) == n
  {
    ValueConcat(a, b);
    BitsOfValue(a + b);
    assert Pow(2, 4) == 16;
    hide Value, Bits;
  }

  lemma OrOfHalves(h: seq<bool>, l: seq<bool>, none: seq<bool>, a: seq<bool>, b: seq<bool>)
    requires |h| == |l| == |none| == 4 && (forall i :: 0 <= i < 4 ==> !none[i]) && a == none + h && b == l + none
    ensures seq(8, i requires 0 <= i < 8 => a[i] || b[i]) == l + h
  {
  }

  /** The two shifted halves do not overlap: the OR is the pair of nibbles. */
  lemma NibblesPack(hi: Nibble, lo: Nibble)
    ensures OrByte(16 * hi, lo) == 16 * hi + lo
  {
    var h, l, none := Bits(hi, 4), Bits(lo, 4), seq(4, i => false);
    NibbleFromBits(hi);
    NibbleFromBits(lo);
    ValueOfNoBits(4);
    hide Value, Bits;
    BitsOfPair(none, h, 16 * hi);
    BitsOfPair(l, none, lo);
    BitsOfPair(l, h, 16 * hi + lo);
    OrOfHalves(h, l, none, Bits(16 * hi, 8), Bits(lo, 8));
    OrIsValue(16 * hi, lo, l + h);
  }

  lemma OrIsValue(a: Byte, b: Byte, bits: seq<bool>)
    requires seq(8, i requires 0 <= i < 8 => Bits(a, 8)[i] || Bits(b, 8)[i]) == bits
    ensures OrByte(a, b) == Value(bits)
  {
    hide Value, Bits;
    assert seq(8, i requires 0 <= i < 8 => Bits(a, 8)[i] || Bits(b, 8)[i]) == bits;
  }

  /** The hash as a vector of nibbles, high half first. */
  function HashVector(hash: seq<Byte>): (v: seq<nat>)
    requires |hash| == 32
    ensures |v| == 64 && forall k :: 0 <= k < 64 ==> v[k] == HashNibble(hash, k) < 16
  {
    seq(64, k requires 0 <= k < 64 => HashNibble(hash, k))
  }

  function HashNibble(hash: seq<Byte>, k: nat): (n: nat)
    requires k < 2 * |hash|
    ensures n < 16
  {
    if k % 2 == 0 then hash[k / 2] / 16 else hash[k / 2] % 16
  }

  /** The inner product over the integers, without any truncation. */
  function ExactSum(row: seq<nat>, v: seq<nat>, n: nat): nat
    requires n <= |row| && n <= |v|
  {
    if n == 0 then 0 else ExactSum(row, v, n - 1) + row[n - 1] * v[n - 1]
  }

  lemma ProductBound(a: nat, b: nat)
    requires a < 16 && b < 16
    ensures a * b <= 225
  {
    assert a * b <= 15 * b;
  }

  lemma {:induction false} SumBound(row: seq<nat>, v: seq<nat>, n: nat)
    requires n <= |row| && n <= |v|
    requires forall i :: 0 <= i < n ==> row[i] < 16 && v[i] < 16
    ensures ExactSum(row, v, n) <= 225 * n
  {
    if n == 0 {
    } else {
      SumBound(row, v, n - 1);
      ProductBound(row[n - 1], v[n - 1]);
    }
  }

  /** The four high bits of the untruncated sum. */
  function Mixed(mat: seq<seq<nat>>, hash: seq<Byte>, i: nat): nat
    requires |mat| == 64 && (forall k :: 0 <= k < 64 ==> |mat[k]| == 64) && |hash| == 32 && i < 64
  {
    ExactSum(mat[i], HashVector(hash), 64) / 1024
  }

  // ---------- The products as real inner products ----------

  /** v holds the halves of the hash bytes, the high half first. */
  ghost predicate Halves(v: seq<nat>, hash: seq<Byte>) {
    && |hash| == 32 && |v| == 64 && (forall k :: 0 <= k < 64 ==> v[k] < 16)
    && (forall k :: 0 <= k < 32 ==> 16 * v[2 * k] + v[2 * k + 1] == hash[k])
  }

  ghost function Reals(v: seq<nat>): (x: Kernels.Vector)
    ensures |x| == |v| && forall k :: 0 <= k < |v| ==> x[k] == v[k] as real
  {
    seq(|v|, k requires 0 <= k < |v| => v[k] as real)
  }

  lemma HalvesAreHashVector(v: seq<nat>, hash: seq<Byte>)
    requires Halves(v, hash)
    ensures v == HashVector(hash)
  {
    forall k | 0 <= k < 64
      ensures v[k] == HashNibble(hash, k)
    {
      assert 16 * v[2 * (k / 2)] + v[2 * (k / 2) + 1] == hash[k / 2];
    }
  }

  lemma ProductAsReal(a: nat, b: nat)
    ensures Kernels.Mul(a as real, b as real) == (a * b) as real
  {
  }

  lemma {:induction false} SumIsDot(row: seq<nat>, v: seq<nat>, x: Kernels.Vector, y: Kernels.Vector, n: nat)
    requires n <= |row| == |x| && n <= |v| == |y|
    requires (forall k :: 0 <= k < n ==> x[k] == row[k] as real) && (forall k :: 0 <= k < n ==> y[k] == v[k] as real)
    ensures Kernels.Dot(x, y, n) == ExactSum(row, v, n) as real
  {
    hide Kernels.Mul;
    if n == 0 {
    } else {
      SumIsDot(row, v, x, y, n - 1);
      ProductAsReal(row[n - 1], v[n - 1]);
    }
  }

  /** The number p is the inner product of row i with the halves of the hash, in units of 1024. */
  ghost predicate IsProduct(mat: seq<seq<nat>>, hash: seq<Byte>, i: nat, p: nat)
    requires NibbleMatrix(mat) && i < 64
  {
    forall v :: Halves(v, hash) ==>
      1024.0 * p as real <= Kernels.Dot(GaussianRank.AsReals(mat)[i], Reals(v), 64) < 1024.0 * (p as real + 1.0)
  }

  lemma MixedIsProduct(mat: seq<seq<nat>>, hash: seq<Byte>, i: nat)
    requires NibbleMatrix(mat) && |hash| == 32 && i < 64
    ensures IsProduct(mat, hash, i, Mixed(mat, hash, i))
  {
    forall v | Halves(v, hash)
      ensures var dot := Kernels.Dot(GaussianRank.AsReals(mat)[i], Reals(v), 64);
              var p := Mixed(mat, hash, i);
              1024.0 * p as real <= dot < 1024.0 * (p as real + 1.0)
    {
      HalvesAreHashVector(v, hash);
      SumIsDot(mat[i], v, GaussianRank.AsReals(mat)[i], Reals(v), 64);
      hide ExactSum, Kernels.Dot;
    }
  }

  /** The accumulation in uint16, as written. */
  method TruncatedSum(row: seq<nat>, vector: array<nat>) returns (sum: nat)
    requires |row| == vector.Length == 64
    requires forall i :: 0 <= i < 64 ==> row[i] < 16 && vector[i] < 16
    ensures sum == ExactSum(row, vector[..], 64) <= 14400
  {
    sum := 0;
    ghost var v := vector[..];
    for j := 0 to 64
      invariant sum == ExactSum(row, v, j) <= 225 * j
    {
      ProductBound(row[j], v[j]);
      sum := U16(sum + U16(row[j] * vector[j]));
    }
  }

  method SplitHash(hash: seq<Byte>) returns (vector: array<nat>)
    requires |hash| == 32
    ensures fresh(vector) && vector[..] == HashVector(hash)
  {
    hide HashVector;
    vector := new nat[64](_ => 0);
    for i := 0 to 32
      invariant forall k :: 0 <= k < 2 * i ==> vector[k] == HashNibble(hash, k)
    {
      assert HashNibble(hash, 2 * i) == hash[i] / 16 && HashNibble(hash, 2 * i + 1) == hash[i] % 16;
      vector[2 * i] := hash[i] / 16;
      vector[2 * i + 1] := hash[i] % 16;
    }
  }

  method Multiply(mat: seq<seq<nat>>, hash: seq<Byte>) returns (product: array<nat>)
    requires NibbleMatrix(mat) && |hash| == 32
    ensures fresh(product) && product.Length == 64
    ensures forall i :: 0 <= i < 64 ==> product[i] == Mixed(mat, hash, i) < 16 && IsProduct(mat, hash, i, product[i])
  {
    hide HashVector, IsProduct;
    hide ExactSum;
    var vector := SplitHash(hash);
    assert forall k :: 0 <= k < 64 ==> vector[..][k] == vector[k];
    product := new nat[64](_ => 0);
    for i := 0 to 64
      invariant vector[..] == HashVector(hash)
      invariant forall k :: 0 <= k < i ==> product[k] == Mixed(mat, hash, k) < 16 && IsProduct(mat, hash, k, product[k])
    {
      var sum := TruncatedSum(mat[i], vector);
      product[i] := sum / 1024;
      MixedIsProduct(mat, hash, i);
    }
  }

  /** One byte of the result: the hash byte masked with two packed products. */
  method MaskByte(h: Byte, hi: nat, lo: nat) returns (r: Byte)
    requires hi < 16 && lo < 16
    ensures XorByte(r, h) == 16 * hi + lo
  {
    hide XorByte;
    hide OrByte;
    var high: Byte := U16(hi * 16) % 256;
    var low: Byte := lo % 256;
    NibblesPack(hi, lo);
    r := XorByte(h, OrByte(high, low));
    XorByteUndone(h, OrByte(high, low));
  }

  /** The two halves of the mask on byte i. */
  ghost predicate Masked(mat: seq<seq<nat>>, hash: seq<Byte>, i: nat, mask: Byte)
    requires NibbleMatrix(mat) && i < 32
  {
    IsProduct(mat, hash, 2 * i, mask / 16) && IsProduct(mat, hash, 2 * i + 1, mask % 16)
  }

  /** For every hash: no uint16 sum wraps (64 * 225 = 14400), each shifted sum fits four bits,
      and the two halves of the mask on byte i are the inner products of rows 2i and 2i + 1 with the
      halves of the hash, in units of 1024. */
  method BHeavyHash(mat: seq<seq<nat>>, hash: seq<Byte>) returns (res: seq<Byte>)
    requires NibbleMatrix(mat) && |hash| == 32
    ensures |res| == 32
    ensures forall i :: 0 <= i < 64 ==> Mixed(mat, hash, i) < 16
    ensures forall i :: 0 <= i < 32 ==> Masked(mat, hash, i, XorByte(res[i], hash[i]))
    ensures forall i :: 0 <= i < 32 ==>
              XorByte(res[i], hash[i]) == 16 * Mixed(mat, hash, 2 * i) + Mixed(mat, hash, 2 * i + 1)
  {
    hide Mixed, XorByte, IsProduct;
    var products := Multiply(mat, hash);
    var product := products[..];
    res := [];
    for i := 0 to 32
      invariant |res| == i
      invariant forall k :: 0 <= k < i ==> Masked(mat, hash, k, XorByte(res[k], hash[k]))
      invariant forall k :: 0 <= k < i ==>
                  XorByte(res[k], hash[k]) == 16 * Mixed(mat, hash, 2 * k) + Mixed(mat, hash, 2 * k + 1)
    {
      var r := MaskByte(hash[i], product[2 * i], product[2 * i + 1]);
      res := res + [r];
    }
  }

  /** The proof of work on a generated matrix, for every header hash and every hash: if one of the
      first `rounds` rounds is invertible, the first such matrix is used, no sum wraps, and the
      bytes handed on are the hash masked with its exact products; otherwise none of them is. */
  method HeavyHashOf(prevHeader: seq<Byte>, powHash: seq<Byte>, rounds: nat) returns (res: Option<seq<Byte>>, last: nat)
    requires |prevHeader| == 32 && |powHash| == 32
    ensures forall r :: 0 <= r < last ==> !Invertible(Round(Seed(prevHeader), r))
    ensures res.None? ==> last == rounds
    ensures res.Some? ==> |res.value| == 32 && last < rounds && Invertible(Round(Seed(prevHeader), last))
    ensures res.Some? ==>
              var mat := Round(Seed(prevHeader), last);
              && (forall i :: 0 <= i < 64 ==> ExactSum(mat[i], HashVector(powHash), 64) <= 14400 && Mixed(mat, powHash, i) < 16)
              && NibbleMatrix(mat)
              && (forall i :: 0 <= i < 32 ==> Masked(mat, powHash, i, XorByte(res.value[i], powHash[i])))
  {
    hide *;
    var generated;
    generated, last := GenerateWithin(prevHeader, rounds);
    if generated.None? {
      return None, last;
    }
    var mat := generated.value;
    var masked := BHeavyHash(mat, powHash);
    forall i | 0 <= i < 64
      ensures ExactSum(mat[i], HashVector(powHash), 64) <= 14400
    {
      RowSumBound(mat, powHash, i);
    }
    res := Some(masked);
  }

  lemma RowSumBound(mat: seq<seq<nat>>, hash: seq<Byte>, i: nat)
    requires NibbleMatrix(mat) && |hash| == 32 && i < 64
    ensures ExactSum(mat[i], HashVector(hash), 64) <= 14400
  {
    SumBound(mat[i], HashVector(hash), 64);
  }
}
