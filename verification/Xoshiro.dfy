/** The generator behind the matrices, after src/pow/xoshiro.go.  A uint64 is its 64 bits, the
    least significant first. */
module Xoshiro {
  import opened Arithmetic
  import opened Basics
  import opened Encoding

  type Word = w: seq<bool> | |w| == 64 witness seq(64, i => false)

  // ---------- Words ----------

  function Xor(a: Word, b: Word): (r: Word)
    ensures forall i :: 0 <= i < 64 ==> r[i] == (a[i] != b[i])
  {
    seq(64, i requires 0 <= i < 64 => a[i] != b[i])
  }

  function Shl(a: Word, k: nat): (r: Word)
    ensures forall i :: 0 <= i < 64 ==> r[i] == (i >= k && a[i - k])
  {
    seq(64, i requires 0 <= i < 64 => i >= k && a[i - k])
  }

  function Rotl(a: Word, k: nat): (r: Word)
    requires k <= 64
    ensures forall i :: 0 <= i < 64 ==> r[i] == if i >= k then a[i - k] else a[i + 64 - k]
  {
    seq(64, i requires 0 <= i < 64 => if i >= k then a[i - k] else a[i + 64 - k])
  }

  /** The number that a list of bits denotes. */
  function Value(bits: seq<bool>): nat {
    if bits == [] then 0 else (if bits[0] then 1 else 0) + 2 * Value(bits[1..])
  }

  /** The low k bits of a number. */
  function Bits(n: nat, k: nat): (bits: seq<bool>)
    ensures |bits| == k
  {
    if k == 0 then [] else [n % 2 == 1] + Bits(n / 2, k - 1)
  }

  /** Addition of uint64, which drops the carry out of the top bit. */
  function Add(a: Word, b: Word): Word {
    Bits(Value(a) + Value(b), 64)
  }

  lemma {:induction false} ValueBound(bits: seq<bool>)
    ensures Value(bits) < Pow(2, |bits|)
  {
    if bits == [] {
    } else {
      ValueBound(bits[1..]);
    }
  }

  lemma {:induction false} BitsOfValue(bits: seq<bool>)
    ensures Bits(Value(bits), |bits|) == bits
  {
    if bits == [] {
    } else {
      BitsOfValue(bits[1..]);
    }
  }

  lemma {:induction false} ValueConcat(a: seq<bool>, b: seq<bool>)
    ensures Value(a + b) == Value(a) + Pow(2, |a|) * Value(b)
  {
    if a == [] {
      assert a + b == b;
    } else {
      assert (a + b)[1..] == a[1..] + b;
      ValueConcat(a[1..], b);
      var p, v := Pow(2, |a| - 1), Value(b);
      assert Pow(2, |a|) == 2 * p && Value(a + b) - Value(a) == 2 * (Value(a[1..] + b) - Value(a[1..]));
      hide Pow, Value;
      Regroup(2, p, v);
    }
  }

  lemma {:induction false} ValueOfBits(n: nat, k: nat)
    ensures Value(Bits(n, k)) == n % Pow(2, k)
    decreases k
  {
    if k == 0 {
    } else {
      ValueOfBits(n / 2, k - 1);
      assert Bits(n, k)[1..] == Bits(n / 2, k - 1);
      ModuloStep(n, 2, Pow(2, k - 1));
    }
  }

  /** Addition modulo 2^64. */
  lemma AddValue(a: Word, b: Word)
    ensures Value(Add(a, b)) == (Value(a) + Value(b)) % Pow(2, 64)
  {
    ValueOfBits(Value(a) + Value(b), 64);
  }

  lemma SplitProduct(n: nat, low: nat, high: nat, k: nat, m: nat)
    requires k > 0 && m > 0 && low < m && n == low + m * high
    ensures k * m > 0 && n / m == high && (n * k) % (k * m) == k * low
  {
    MultipleIsFar(k, m);
    QuotientIsUnique(n, m, high, low);
    Distribute(k, low, m * high);
    Regroup(k, m, high);
    ProductMonotone(low + 1, m, k);
    Distribute(k, low, 1);
    QuotientIsUnique(n * k, k * m, high, k * low);
  }

  /** Rotation as arithmetic: the top k bits come out below the rest. */
  lemma RotlValue(a: Word, k: nat)
    requires k <= 64
    ensures Value(Rotl(a, k)) == (Value(a) * Pow(2, k)) % Pow(2, 64) + Value(a) / Pow(2, 64 - k)
  {
    var low, high := a[..64 - k], a[64 - k..];
    assert a == low + high && Rotl(a, k) == high + low;
    ValueConcat(low, high);
    ValueConcat(high, low);
    ValueBound(low);
    PowAdd(2, k, 64 - k);
    hide Value, Pow, Rotl;
    SplitProduct(Value(a), Value(low), Value(high), Pow(2, k), Pow(2, 64 - k));
  }

  // ---------- The state update and its inverse ----------

  datatype State = State(s0: Word, s1: Word, s2: Word, s3: Word)

  function Output(s: State): Word {
    Add(Rotl(Add(s.s0, s.s3), 23), s.s0)
  }

  function Step(s: State): State {
    var x2, x3 := Xor(s.s2, s.s0), Xor(s.s3, s.s1);
    State(Xor(s.s0, x3), Xor(s.s1, x2), Xor(x2, Shl(s.s1, 17)), Rotl(x3, 45))
  }

  /** rotl(a + b, 23) + a in uint64, as arithmetic. */
  function OutputNumber(a: nat, b: nat): nat {
    var x := (a + b) % 0x1_0000_0000_0000_0000;
    ((x * 0x80_0000) % 0x1_0000_0000_0000_0000 + x / 0x200_0000_0000 + a) % 0x1_0000_0000_0000_0000
  }

  lemma PowersOfTwo()
    ensures Pow(2, 64) == 0x1_0000_0000_0000_0000 && Pow(2, 23) == 0x80_0000 && Pow(2, 41) == 0x200_0000_0000
  {
    assert Pow(2, 4) == 16 && Pow(2, 1) == 2;
    hide Pow;
    PowAdd(2, 4, 4);
    PowAdd(2, 8, 8);
    PowAdd(2, 16, 16);
    PowAdd(2, 32, 32);
    PowAdd(2, 32, 8);
    PowAdd(2, 40, 1);
    PowAdd(2, 16, 4);
    PowAdd(2, 1, 1);
    PowAdd(2, 2, 1);
    PowAdd(2, 20, 3);
  }

  /** The output as a number. */
  lemma OutputValue(s: State)
    ensures Value(Output(s)) == OutputNumber(Value(s.s0), Value(s.s3))
  {
    hide Add, Rotl, Value, Pow;
    PowersOfTwo();
    AddValue(s.s0, s.s3);
    RotlValue(Add(s.s0, s.s3), 23);
    AddValue(Rotl(Add(s.s0, s.s3), 23), s.s0);
  }

  /** The update bit by bit. */
  ghost predicate Updates(s: State, s': State) {
    && (forall i :: 0 <= i < 64 ==> s'.s0[i] == ((s.s0[i] != s.s1[i]) != s.s3[i]))
    && (forall i :: 0 <= i < 64 ==> s'.s1[i] == ((s.s0[i] != s.s1[i]) != s.s2[i]))
    && (forall i :: 0 <= i < 64 ==> s'.s2[i] == ((s.s0[i] != s.s2[i]) != (i >= 17 && s.s1[i - 17])))
    && (forall i :: 0 <= i < 64 ==> s'.s3[(i + 45) % 64] == (s.s1[i] != s.s3[i]))
  }

  lemma RotlAt(a: Word, k: nat, i: nat)
    requires k < 64 && i < 64
    ensures Rotl(a, k)[(i + k) % 64] == a[i]
  {
  }

  lemma XorAt(a: Word, b: Word, i: nat)
    requires i < 64
    ensures Xor(a, b)[i] == (a[i] != b[i])
  {
  }

  lemma XorOfThree(a: Word, b: Word, c: Word, i: nat)
    requires i < 64
    ensures Xor(a, Xor(b, c))[i] == (a[i] != (b[i] != c[i]))
    ensures Xor(Xor(a, b), c)[i] == ((a[i] != b[i]) != c[i])
  {
    XorAt(b, c, i);
    XorAt(a, Xor(b, c), i);
    XorAt(a, b, i);
    XorAt(Xor(a, b), c, i);
  }

  lemma UpdatesFirst(s: State, i: nat)
    requires i < 64
    ensures Step(s).s0[i] == ((s.s0[i] != s.s1[i]) != s.s3[i])
  {
    XorOfThree(s.s0, s.s3, s.s1, i);
  }

  lemma UpdatesSecond(s: State, i: nat)
    requires i < 64
    ensures Step(s).s1[i] == ((s.s0[i] != s.s1[i]) != s.s2[i])
  {
    XorOfThree(s.s1, s.s2, s.s0, i);
  }

  lemma UpdatesThird(s: State, i: nat)
    requires i < 64
    ensures Step(s).s2[i] == ((s.s0[i] != s.s2[i]) != (i >= 17 && s.s1[i - 17]))
  {
    XorOfThree(s.s2, s.s0, Shl(s.s1, 17), i);
    assert Shl(s.s1, 17)[i] == (i >= 17 && s.s1[i - 17]);
  }

  lemma UpdatesFourth(s: State, i: nat)
    requires i < 64
    ensures Step(s).s3[(i + 45) % 64] == (s.s1[i] != s.s3[i])
  {
    XorAt(s.s3, s.s1, i);
    RotlAt(Xor(s.s3, s.s1), 45, i);
  }

  lemma StepUpdates(s: State)
    ensures Updates(s, Step(s))
  {
    hide Step;
    var s' := Step(s);
    forall i | 0 <= i < 64
      ensures s'.s0[i] == ((s.s0[i] != s.s1[i]) != s.s3[i])
    {
      UpdatesFirst(s, i);
    }
    forall i | 0 <= i < 64
      ensures s'.s1[i] == ((s.s0[i] != s.s1[i]) != s.s2[i])
    {
      UpdatesSecond(s, i);
    }
    forall i | 0 <= i < 64
      ensures s'.s2[i] == ((s.s0[i] != s.s2[i]) != (i >= 17 && s.s1[i - 17]))
    {
      UpdatesThird(s, i);
    }
    forall i | 0 <= i < 64
      ensures s'.s3[(i + 45) % 64] == (s.s1[i] != s.s3[i])
    {
      UpdatesFourth(s, i);
    }
  }

  /** Undoes the map from x to x ^ (x << 17). */
  function Unshift(y: Word): Word {
    Xor(Xor(y, Shl(y, 17)), Xor(Shl(y, 34), Shl(y, 51)))
  }

  /** The explicit inverse of the update. */
  function StepBack(s: State): State {
    var x3, x2 := Rotl(s.s3, 19), Unshift(Xor(s.s2, Shl(s.s1, 17)));
    var y0, y1 := Xor(s.s0, x3), Xor(s.s1, x2);
    State(y0, y1, Xor(x2, y0), Xor(x3, y1))
  }

  lemma XorCancels(a: Word, b: Word)
    ensures Xor(Xor(a, b), b) == a && Xor(b, Xor(a, b)) == a
  {
  }

  lemma RotationInverts(x: Word)
    ensures Rotl(Rotl(x, 45), 19) == x && Rotl(Rotl(x, 19), 45) == x
  {
  }

  /** Bit i, or no bit below the word. */
  function At(w: Word, i: int): bool
    requires i < 64
  {
    i >= 0 && w[i]
  }

  lemma UnshiftAt(y: Word, i: nat)
    requires i < 64
    ensures Unshift(y)[i] == ((At(y, i) != At(y, i - 17)) != (At(y, i - 34) != At(y, i - 51)))
  {
    assert Xor(y, Shl(y, 17))[i] == (y[i] != Shl(y, 17)[i]);
    assert Xor(Shl(y, 34), Shl(y, 51))[i] == (Shl(y, 34)[i] != Shl(y, 51)[i]);
  }

  lemma ShiftedAt(x: Word, i: int)
    requires i < 64
    ensures At(Xor(x, Shl(x, 17)), i) == (At(x, i) != At(x, i - 17))
  {
  }

  lemma UnshiftInverts(x: Word)
    ensures Unshift(Xor(x, Shl(x, 17))) == x
  {
    var y := Xor(x, Shl(x, 17));
    forall i | 0 <= i < 64
      ensures Unshift(y)[i] == x[i]
    {
      UnshiftAt(y, i);
      ShiftedAt(x, i);
      ShiftedAt(x, i - 17);
      ShiftedAt(x, i - 34);
      ShiftedAt(x, i - 51);
    }
  }

  lemma UnshiftIsInverted(y: Word)
    ensures Xor(Unshift(y), Shl(Unshift(y), 17)) == y
  {
    var x := Unshift(y);
    forall i | 0 <= i < 64
      ensures Xor(x, Shl(x, 17))[i] == y[i]
    {
      ShiftedAt(x, i);
      UnshiftAt(y, i);
      if i >= 17 {
        UnshiftAt(y, i - 17);
      }
    }
  }

  lemma ShiftOfXor(a: Word, b: Word)
    ensures Shl(Xor(a, b), 17) == Xor(Shl(a, 17), Shl(b, 17))
  {
  }

  /** (x ^ t) ^ (t ^ u) and its like: the shared word drops out. */
  lemma SharedWordDropsOut(x: Word, t: Word, u: Word)
    ensures Xor(Xor(x, t), Xor(t, u)) == Xor(x, u)
  {
  }

  lemma StepBackUndoesStep(s: State)
    ensures StepBack(Step(s)) == s
  {
    var x2, x3 := Xor(s.s2, s.s0), Xor(s.s3, s.s1);
    RotationInverts(x3);
    ShiftOfXor(s.s1, x2);
    SharedWordDropsOut(x2, Shl(s.s1, 17), Shl(x2, 17));
    UnshiftInverts(x2);
    XorCancels(s.s0, x3);
    XorCancels(s.s1, x2);
    XorCancels(s.s2, s.s0);
    XorCancels(s.s3, s.s1);
  }

  lemma StepUndoesStepBack(s: State)
    ensures Step(StepBack(s)) == s
  {
    var w := Xor(s.s2, Shl(s.s1, 17));
    var x3, x2 := Rotl(s.s3, 19), Unshift(w);
    var y0, y1 := Xor(s.s0, x3), Xor(s.s1, x2);
    XorCancels(x2, y0);
    XorCancels(x3, y1);
    XorCancels(s.s0, x3);
    XorCancels(s.s1, x2);
    ShiftOfXor(s.s1, x2);
    UnshiftIsInverted(w);
    assert Xor(x2, Xor(Shl(s.s1, 17), Shl(x2, 17))) == Xor(Xor(x2, Shl(x2, 17)), Shl(s.s1, 17));
    XorCancels(s.s2, Shl(s.s1, 17));
    RotationInverts(s.s3);
  }

  // ---------- Any number of steps ----------

  function Iterate<S>(f: S -> S, s: S, n: nat): S {
    if n == 0 then s else f(Iterate(f, s, n - 1))
  }

  lemma {:induction false} IterateFromStart<S>(f: S -> S, s: S, n: nat)
    requires n > 0
    ensures Iterate(f, s, n) == Iterate(f, f(s), n - 1)
  {
    if n == 1 {
    } else {
      IterateFromStart(f, s, n - 1);
    }
  }

  lemma {:induction false} IterateBack<S(!new)>(f: S -> S, g: S -> S, s: S, n: nat)
    requires forall x :: g(f(x)) == x
    ensures Iterate(g, Iterate(f, s, n), n) == s
  {
    if n == 0 {
    } else {
      IterateFromStart(g, Iterate(f, s, n), n);
      IterateBack(f, g, s, n - 1);
    }
  }

  lemma {:induction false} IterateFixed<S>(f: S -> S, s: S, n: nat)
    requires f(s) == s
    ensures Iterate(f, s, n) == s
  {
    if n == 0 {
    } else {
      IterateFixed(f, s, n - 1);
    }
  }

  function Steps(s: State, n: nat): State { Iterate(Step, s, n) }

  function StepsBack(s: State, n: nat): State { Iterate(StepBack, s, n) }

  /** Any number of steps is a bijection on states, with its inverse. */
  lemma StepsBijective(s: State, n: nat)
    ensures StepsBack(Steps(s, n), n) == s
    ensures Steps(StepsBack(s, n), n) == s
  {
    forall x: State
      ensures StepBack(Step(x)) == x && Step(StepBack(x)) == x
    {
      StepBackUndoesStep(x);
      StepUndoesStepBack(x);
    }
    IterateBack(Step, StepBack, s, n);
    IterateBack(StepBack, Step, s, n);
  }

  lemma SeedsNeverMerge(s: State, t: State, n: nat)
    ensures Steps(s, n) == Steps(t, n) <==> s == t
  {
    StepsBijective(s, n);
    StepsBijective(t, n);
  }

  const NO_BITS: Word := seq(64, i => false)
  const ZERO: State := State(NO_BITS, NO_BITS, NO_BITS, NO_BITS)

  lemma NoSteps(s: State)
    ensures Steps(s, 0) == s
  {
  }

  lemma StepOfZero()
    ensures Step(ZERO) == ZERO
  {
    assert Xor(NO_BITS, NO_BITS) == NO_BITS;
    assert Shl(NO_BITS, 17) == NO_BITS;
    assert Rotl(NO_BITS, 45) == NO_BITS;
  }

  lemma ZeroStaysZero(n: nat)
    ensures Steps(ZERO, n) == ZERO
  {
    StepOfZero();
    hide Step;
    IterateFixed(Step, ZERO, n);
  }

  lemma NonZeroNeverReachesZero(s: State, n: nat)
    ensures Steps(s, n) == ZERO <==> s == ZERO
  {
    hide Steps;
    ZeroStaysZero(n);
    SeedsNeverMerge(s, ZERO, n);
  }

  // ---------- Seeding ----------

  /** Bytes as bits: the little-endian reading of a word. */
  function BitsOf(bytes: seq<Byte>): (bits: seq<bool>)
    ensures |bits| == 8 * |bytes|
  {
    if bytes == [] then [] else Bits(bytes[0], 8) + BitsOf(bytes[1..])
  }

  function Seed(hash: seq<Byte>): State
    requires |hash| == 32
  {
    State(BitsOf(hash[..8]), BitsOf(hash[8..16]), BitsOf(hash[16..24]), BitsOf(hash[24..32]))
  }

  lemma ByteFromBits(b: Byte)
    ensures Value(Bits(b, 8)) == b
  {
    ValueOfBits(b, 8);
    assert Pow(2, 8) == 16 * Pow(2, 4) && Pow(2, 4) == 16;
  }

  lemma {:induction false} BitsDetermineBytes(b: seq<Byte>, c: seq<Byte>)
    requires |b| == |c| && BitsOf(b) == BitsOf(c)
    ensures b == c
  {
    if b == [] {
    } else {
      assert BitsOf(b)[..8] == Bits(b[0], 8) && BitsOf(c)[..8] == Bits(c[0], 8);
      assert BitsOf(b)[8..] == BitsOf(b[1..]) && BitsOf(c)[8..] == BitsOf(c[1..]);
      ByteFromBits(b[0]);
      ByteFromBits(c[0]);
      BitsDetermineBytes(b[1..], c[1..]);
    }
  }

  /** A seed word is the little-endian number of its eight bytes. */
  lemma {:induction false} BitsOfValues(bytes: seq<Byte>)
    ensures Value(BitsOf(bytes)) == FromLittleEndian(bytes)
  {
    if bytes == [] {
    } else {
      BitsOfValues(bytes[1..]);
      ByteFromBits(bytes[0]);
      ValueConcat(Bits(bytes[0], 8), BitsOf(bytes[1..]));
      assert Pow(2, 8) == 16 * Pow(2, 4) && Pow(2, 4) == 16;
    }
  }

  /** Distinct hashes give states that stay distinct after any number of steps. */
  lemma HashesNeverMerge(h: seq<Byte>, g: seq<Byte>, n: nat)
    requires |h| == |g| == 32
    ensures Steps(Seed(h), n) == Steps(Seed(g), n) <==> h == g
  {
    SeedsNeverMerge(Seed(h), Seed(g), n);
    if Seed(h) == Seed(g) {
      BitsDetermineBytes(h[..8], g[..8]);
      BitsDetermineBytes(h[8..16], g[8..16]);
      BitsDetermineBytes(h[16..24], g[16..24]);
      BitsDetermineBytes(h[24..32], g[24..32]);
      assert h == h[..8] + h[8..16] + h[16..24] + h[24..32];
      assert g == g[..8] + g[8..16] + g[16..24] + g[24..32];
    }
  }

  class Generator {
    var s0: Word
    var s1: Word
    var s2: Word
    var s3: Word

    ghost function View(): State
      reads this
    {
      State(s0, s1, s2, s3)
    }

    constructor (hash: seq<Byte>)
      requires |hash| == 32
      ensures View() == Seed(hash)
      ensures Value(s0) == FromLittleEndian(hash[..8]) && Value(s1) == FromLittleEndian(hash[8..16])
      ensures Value(s2) == FromLittleEndian(hash[16..24]) && Value(s3) == FromLittleEndian(hash[24..32])
    {
      BitsOfValues(hash[..8]);
      BitsOfValues(hash[8..16]);
      BitsOfValues(hash[16..24]);
      BitsOfValues(hash[24..32]);
      hide Value, BitsOf;
      s0 := BitsOf(hash[..8]);
      s1 := BitsOf(hash[8..16]);
      s2 := BitsOf(hash[16..24]);
      s3 := BitsOf(hash[24..32]);
    }

    /** The assignments as written. */
    method Advance() returns (res: Word)
      modifies this
      ensures View() == Step(old(View())) && res == Output(old(View()))
    {
      res := Add(Rotl(Add(s0, s3), 23), s0);
      var t := Shl(s1, 17);
      s2 := Xor(s2, s0);
      s3 := Xor(s3, s1);
      s1 := Xor(s1, s2);
      s0 := Xor(s0, s3);

      s2 := Xor(s2, t);
      s3 := Rotl(s3, 45);
    }

    /** ... and what they give as a number: rotl(s0 + s3, 23) + s0 in uint64. */
    method Uint64() returns (res: Word)
      modifies this
      ensures View() == Step(old(View())) && res == Output(old(View()))
      ensures Value(res) == OutputNumber(Value(old(s0)), Value(old(s3)))
    {
      hide *;
      StateIsView(this);
      ghost var before := View();
      OutputValue(before);
      res := Advance();
    }
  }

  lemma StateIsView(g: Generator)
    ensures g.View() == State(g.s0, g.s1, g.s2, g.s3)
  {
  }
}
