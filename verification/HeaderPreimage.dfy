/** The bytes that `SerializeBlockHeader` (src/htnstratum/hasher.go) feeds to BLAKE3, and a
    decoder that shows them unambiguous.  The hash itself is foreign code. */
module HeaderPreimage {
  import opened Arithmetic
  import opened Basics
  import opened Encoding

  datatype Header = Header(
    version: nat,
    parents: seq<seq<string>>,
    hashMerkleRoot: string,
    acceptedIDMerkleRoot: string,
    utxoCommitment: string,
    timestamp: nat,
    bits: nat,
    nonce: nat,
    daaScore: nat,
    blueScore: nat,
    blueWork: string,
    pruningPoint: string)

  // ---------- The encoding ----------

  /** A hexadecimal string of odd length gets one zero in front. */
  function Padded(s: string): (r: string)
    ensures |r| % 2 == 0
  {
    if |s| % 2 == 1 then "0" + s else s
  }

  function HashBytes(hashes: seq<string>): seq<Byte> {
    if hashes == [] then [] else Decode(hashes[0]) + HashBytes(hashes[1..])
  }

  function LevelBytes(levels: seq<seq<string>>): seq<Byte> {
    if levels == [] then []
    else LittleEndian(|levels[0]|, 8) + HashBytes(levels[0]) + LevelBytes(levels[1..])
  }

  /** The packed struct: the timestamp and the nonce are zeroed. */
  function PackedFields(h: Header): seq<Byte> {
    LittleEndian(0, 8) + LittleEndian(h.bits, 4) + LittleEndian(0, 8)
    + LittleEndian(h.daaScore, 8) + LittleEndian(h.blueScore, 8)
  }

  function Preimage(h: Header): seq<Byte> {
    var work := Decode(Padded(h.blueWork));
    LittleEndian(h.version, 2) + LittleEndian(|h.parents|, 8) + LevelBytes(h.parents)
    + Decode(h.hashMerkleRoot) + Decode(h.acceptedIDMerkleRoot) + Decode(h.utxoCommitment)
    + PackedFields(h) + LittleEndian(|work|, 8) + work + Decode(h.pruningPoint)
  }

  // ---------- The serialiser as written ----------

  class Hasher {
    var fed: seq<Byte>

    constructor ()
      ensures fed == []
    {
      fed := [];
    }

    method Write(data: seq<Byte>)
      modifies this
      ensures fed == old(fed) + data
    {
      fed := fed + data;
    }
  }

  method WriteHexString(hasher: Hasher, val: string)
    modifies hasher
    ensures hasher.fed == old(hasher.fed) + Decode(val)
  {
    hasher.Write(Decode(val));
  }

  lemma {:induction false} HashBytesLast(hashes: seq<string>, last: string)
    ensures HashBytes(hashes + [last]) == HashBytes(hashes) + Decode(last)
  {
    if hashes == [] {
      assert hashes + [last] == [last];
    } else {
      assert (hashes + [last])[1..] == hashes[1..] + [last];
      HashBytesLast(hashes[1..], last);
    }
  }

  lemma {:induction false} LevelBytesLast(levels: seq<seq<string>>, last: seq<string>)
    ensures LevelBytes(levels + [last]) == LevelBytes(levels) + (LittleEndian(|last|, 8) + HashBytes(last))
  {
    if levels == [] {
      assert levels + [last] == [last];
    } else {
      assert (levels + [last])[1..] == levels[1..] + [last];
      LevelBytesLast(levels[1..], last);
    }
  }

  method WriteLevel(hasher: Hasher, level: seq<string>)
    modifies hasher
    ensures hasher.fed == old(hasher.fed) + (LittleEndian(|level|, 8) + HashBytes(level))
  {
    hasher.Write(LittleEndian(|level|, 8));
    for i := 0 to |level|
      invariant hasher.fed == old(hasher.fed) + (LittleEndian(|level|, 8) + HashBytes(level[..i]))
    {
      WriteHexString(hasher, level[i]);
      HashBytesLast(level[..i], level[i]);
      assert level[..i] + [level[i]] == level[..i + 1];
    }
    assert level[..|level|] == level;
  }

  lemma AppendTwice(a: seq<Byte>, b: seq<Byte>, c: seq<Byte>)
    ensures a + b + c == a + (b + c)
  {
  }

  method WriteLevels(hasher: Hasher, levels: seq<seq<string>>)
    modifies hasher
    ensures hasher.fed == old(hasher.fed) + LevelBytes(levels)
  {
    assert levels[..0] == [] && LevelBytes([]) == [];
    hide LevelBytes, HashBytes, LittleEndian;
    for i := 0 to |levels|
      invariant hasher.fed == old(hasher.fed) + LevelBytes(levels[..i])
    {
      ghost var done, more := LevelBytes(levels[..i]), LittleEndian(|levels[i]|, 8) + HashBytes(levels[i]);
      WriteLevel(hasher, levels[i]);
      LevelBytesLast(levels[..i], levels[i]);
      assert levels[..i] + [levels[i]] == levels[..i + 1];
      AppendTwice(old(hasher.fed), done, more);
    }
    assert levels[..|levels|] == levels;
  }

  lemma PaddedKeepsNumber(work: string)
    ensures |Padded(work)| == 2 * ((|work| + 1) / 2)
    ensures IsHex(work) ==> IsHex(Padded(work)) && ParseHex(Padded(work)) == ParseHex(work)
  {
    if IsHex(work) {
      LeadingZero(work);
    }
  }

  /** The padding loop: an even length, at most one digit more, and the same number. */
  method PadBlueWork(work: string) returns (bw: string)
    ensures bw == Padded(work)
    ensures |bw| % 2 == 0 && |work| <= |bw| <= |work| + 1
    ensures IsHex(work) ==> IsHex(bw) && ParseHex(bw) == ParseHex(work)
  {
    PaddedKeepsNumber(work);
    bw := work;
    var padding := |bw| + |bw| % 2;
    while |bw| < padding
      invariant |bw| <= padding
      invariant bw == work || bw == "0" + work
      invariant |bw| == |work| ==> bw == work
    {
      bw := "0" + bw;
    }
  }

  /** The struct of fixed-size fields, written one by one in declaration order; the time and the
      nonce are written as zero. */
  method PackFields(h: Header) returns (details: seq<Byte>)
    ensures details == PackedFields(h)
  {
    hide LittleEndian;
    var ts, nonce := 0, 0;
    details := LittleEndian(ts, 8);
    details := details + LittleEndian(h.bits, 4);
    details := details + LittleEndian(nonce, 8);
    details := details + LittleEndian(h.daaScore, 8);
    details := details + LittleEndian(h.blueScore, 8);
  }

  method SerializeBlockHeader(h: Header) returns (fed: seq<Byte>)
    ensures fed == Preimage(h)
  {
    hide LittleEndian;
    hide Decode;
    hide LevelBytes;
    hide PackedFields;
    var hasher := new Hasher();
    hasher.Write(LittleEndian(h.version, 2));
    hasher.Write(LittleEndian(|h.parents|, 8));
    WriteLevels(hasher, h.parents);
    WriteHexString(hasher, h.hashMerkleRoot);
    WriteHexString(hasher, h.acceptedIDMerkleRoot);
    WriteHexString(hasher, h.utxoCommitment);
    var details := PackFields(h);
    hasher.Write(details);
    var bw := PadBlueWork(h.blueWork);
    hasher.Write(LittleEndian(|Decode(bw)|, 8));
    WriteHexString(hasher, bw);
    WriteHexString(hasher, h.pruningPoint);
    fed := hasher.fed;
  }

  // ---------- The decoder ----------

  /** What the preimage carries: every field except the timestamp and the nonce, with hashes in
      lower case and BlueWork with its padding zero. */
  datatype Fields = Fields(
    version: nat,
    parents: seq<seq<string>>,
    hashMerkleRoot: string,
    acceptedIDMerkleRoot: string,
    utxoCommitment: string,
    bits: nat,
    daaScore: nat,
    blueScore: nat,
    blueWork: string,
    pruningPoint: string)

  datatype Parsed<+T> = Fail | Done(value: T, rest: seq<Byte>) {
    predicate IsFailure() { Fail? }
    function PropagateFailure<U>(): Parsed<U>
      requires Fail?
    {
      Fail
    }
    function Extract(): (T, seq<Byte>)
      requires Done?
    {
      (value, rest)
    }
  }

  function TakeNumber(b: seq<Byte>, k: nat): Parsed<nat> {
    if |b| < k then Fail else Done(FromLittleEndian(b[..k]), b[k..])
  }

  function TakeHex(b: seq<Byte>, k: nat): Parsed<string> {
    if |b| < k then Fail else Done(Encode(b[..k]), b[k..])
  }

  function TakeHashes(b: seq<Byte>, n: nat): Parsed<seq<string>>
    decreases n
  {
    if n == 0 then Done([], b)
    else
      var (first, b1) :- TakeHex(b, 32);
      var (others, b2) :- TakeHashes(b1, n - 1);
      Done([first] + others, b2)
  }

  function TakeLevels(b: seq<Byte>, n: nat): Parsed<seq<seq<string>>>
    decreases n
  {
    if n == 0 then Done([], b)
    else
      var (count, b1) :- TakeNumber(b, 8);
      var (first, b2) :- TakeHashes(b1, count);
      var (others, b3) :- TakeLevels(b2, n - 1);
      Done([first] + others, b3)
  }

  function TakeHeader(b0: seq<Byte>): Parsed<Fields> {
    var (version, b1) :- TakeNumber(b0, 2);
    var (count, b2) :- TakeNumber(b1, 8);
    var (parents, b3) :- TakeLevels(b2, count);
    var (merkle, b4) :- TakeHex(b3, 32);
    var (accepted, b5) :- TakeHex(b4, 32);
    var (utxo, b6) :- TakeHex(b5, 32);
    TakeTail(version, parents, merkle, accepted, utxo, b6)
  }

  function TakeTail(version: nat, parents: seq<seq<string>>, merkle: string, accepted: string, utxo: string,
                    b6: seq<Byte>): Parsed<Fields>
  {
    var (_, b7) :- TakeNumber(b6, 8);
    var (bits, b8) :- TakeNumber(b7, 4);
    var (_, b9) :- TakeNumber(b8, 8);
    var (daa, b10) :- TakeNumber(b9, 8);
    var (blue, b11) :- TakeNumber(b10, 8);
    var (size, b12) :- TakeNumber(b11, 8);
    var (work, b13) :- TakeHex(b12, size);
    var (pruning, b14) :- TakeHex(b13, 32);
    Done(Fields(version, parents, merkle, accepted, utxo, bits, daa, blue, work, pruning), b14)
  }

  // ---------- Unambiguity ----------

  ghost predicate IsHash(s: string) {
    |s| == 64 && IsHex(s)
  }

  ghost predicate AreHashes(hashes: seq<string>) {
    |hashes| < Pow(256, 8) && forall i :: 0 <= i < |hashes| ==> IsHash(hashes[i])
  }

  /** What the node sends: 64-digit hashes, hexadecimal BlueWork, numbers of their wire width. */
  ghost predicate WellFormed(h: Header) {
    && h.version < Pow(256, 2)
    && |h.parents| < Pow(256, 8) && (forall i :: 0 <= i < |h.parents| ==> AreHashes(h.parents[i]))
    && IsHash(h.hashMerkleRoot) && IsHash(h.acceptedIDMerkleRoot) && IsHash(h.utxoCommitment)
    && h.bits < Pow(256, 4) && h.daaScore < Pow(256, 8) && h.blueScore < Pow(256, 8)
    && IsHex(h.blueWork) && |Padded(h.blueWork)| / 2 < Pow(256, 8)
    && IsHash(h.pruningPoint)
  }

  function LowerAll(hashes: seq<string>): (r: seq<string>)
    ensures |r| == |hashes|
  {
    if hashes == [] then [] else [Lower(hashes[0])] + LowerAll(hashes[1..])
  }

  function LowerLevels(levels: seq<seq<string>>): (r: seq<seq<string>>)
    ensures |r| == |levels|
  {
    if levels == [] then [] else [LowerAll(levels[0])] + LowerLevels(levels[1..])
  }

  function FieldsOf(h: Header): Fields {
    Fields(h.version, LowerLevels(h.parents), Lower(h.hashMerkleRoot), Lower(h.acceptedIDMerkleRoot),
           Lower(h.utxoCommitment), h.bits, h.daaScore, h.blueScore, Lower(Padded(h.blueWork)), Lower(h.pruningPoint))
  }

  lemma NumberComesBack(n: nat, k: nat, rest: seq<Byte>)
    requires n < Pow(256, k)
    ensures TakeNumber(LittleEndian(n, k) + rest, k) == Done(n, rest)
  {
    LittleEndianRoundTrip(n, k);
    assert (LittleEndian(n, k) + rest)[..k] == LittleEndian(n, k);
    assert (LittleEndian(n, k) + rest)[k..] == rest;
  }

  lemma {:induction false} HexComesBack(s: string, rest: seq<Byte>)
    requires IsHex(s) && |s| % 2 == 0
    ensures |Decode(s)| == |s| / 2
    ensures TakeHex(Decode(s) + rest, |s| / 2) == Done(Lower(s), rest)
  {
    EncodeUndoesDecode(s);
    assert (Decode(s) + rest)[..|s| / 2] == Decode(s);
    assert (Decode(s) + rest)[|s| / 2..] == rest;
  }

  lemma {:induction false} HashesComeBack(hashes: seq<string>, rest: seq<Byte>)
    requires forall i :: 0 <= i < |hashes| ==> IsHash(hashes[i])
    ensures TakeHashes(HashBytes(hashes) + rest, |hashes|) == Done(LowerAll(hashes), rest)
  {
    if hashes == [] {
      assert HashBytes(hashes) + rest == rest;
    } else {
      var tail := HashBytes(hashes[1..]) + rest;
      assert HashBytes(hashes) + rest == Decode(hashes[0]) + tail;
      HexComesBack(hashes[0], tail);
      HashesComeBack(hashes[1..], rest);
    }
  }

  lemma {:induction false} LevelsComeBack(levels: seq<seq<string>>, rest: seq<Byte>)
    requires forall i :: 0 <= i < |levels| ==> AreHashes(levels[i])
    ensures TakeLevels(LevelBytes(levels) + rest, |levels|) == Done(LowerLevels(levels), rest)
  {
    if levels == [] {
      assert LevelBytes(levels) + rest == rest;
    } else {
      var others := LevelBytes(levels[1..]) + rest;
      var tail := HashBytes(levels[0]) + others;
      assert LevelBytes(levels) + rest == LittleEndian(|levels[0]|, 8) + tail by {
        var a, b, c := LittleEndian(|levels[0]|, 8), HashBytes(levels[0]), LevelBytes(levels[1..]);
        AppendTwice(a + b, c, rest);
        AppendTwice(a, b, c + rest);
      }
      hide LevelBytes, HashBytes, LittleEndian;
      NumberComesBack(|levels[0]|, 8, tail);
      HashesComeBack(levels[0], others);
      LevelsComeBack(levels[1..], rest);
    }
  }

  /** The bytes after the three root hashes. */
  function TailBytes(h: Header): seq<Byte> {
    var work := Decode(Padded(h.blueWork));
    LittleEndian(0, 8) + (LittleEndian(h.bits, 4) + (LittleEndian(0, 8) + (LittleEndian(h.daaScore, 8)
    + (LittleEndian(h.blueScore, 8) + (LittleEndian(|work|, 8) + (work + (Decode(h.pruningPoint) + [])))))))
  }

  lemma TailComesBack(h: Header, f: Fields)
    requires WellFormed(h) && f == FieldsOf(h)
    ensures TakeTail(f.version, f.parents, f.hashMerkleRoot, f.acceptedIDMerkleRoot, f.utxoCommitment, TailBytes(h))
         == Done(f, [])
  {
    var work := Decode(Padded(h.blueWork));
    var t14 := Decode(h.pruningPoint) + [];
    var t13 := work + t14;
    var t12 := LittleEndian(|work|, 8) + t13;
    var t11 := LittleEndian(h.blueScore, 8) + t12;
    var t10 := LittleEndian(h.daaScore, 8) + t11;
    var t9 := LittleEndian(0, 8) + t10;
    var t8 := LittleEndian(h.bits, 4) + t9;
    NumberComesBack(0, 8, t8);
    NumberComesBack(h.bits, 4, t9);
    NumberComesBack(0, 8, t10);
    NumberComesBack(h.daaScore, 8, t11);
    NumberComesBack(h.blueScore, 8, t12);
    PaddedIsHex(h.blueWork);
    HexComesBack(Padded(h.blueWork), t14);
    NumberComesBack(|work|, 8, t13);
    HexComesBack(h.pruningPoint, []);
  }

  lemma PaddedIsHex(s: string)
    requires IsHex(s)
    ensures IsHex(Padded(s))
  {
  }

  function HeadBytes(h: Header): seq<Byte> {
    LittleEndian(h.version, 2) + (LittleEndian(|h.parents|, 8) + (LevelBytes(h.parents)
    + (Decode(h.hashMerkleRoot) + (Decode(h.acceptedIDMerkleRoot) + (Decode(h.utxoCommitment) + TailBytes(h))))))
  }

  lemma RegroupBytes(a: seq<Byte>, b: seq<Byte>, c: seq<Byte>, d: seq<Byte>, rest: seq<Byte>)
    ensures a + b + c + d + rest == a + (b + (c + (d + rest)))
  {
    assert a + b + c + d + rest == a + b + c + (d + rest);
    assert a + b + c + (d + rest) == a + b + (c + (d + rest));
  }

  lemma TailRegroups(h: Header)
    ensures var work := Decode(Padded(h.blueWork));
            PackedFields(h) + LittleEndian(|work|, 8) + work + Decode(h.pruningPoint) == TailBytes(h)
  {
    hide LittleEndian;
    hide Decode;
    hide Padded;
    var zero, work, p := LittleEndian(0, 8), Decode(Padded(h.blueWork)), Decode(h.pruningPoint);
    var size, bits, daa, blue := LittleEndian(|work|, 8), LittleEndian(h.bits, 4), LittleEndian(h.daaScore, 8), LittleEndian(h.blueScore, 8);
    assert p + [] == p;
    RegroupBytes(zero, bits, zero, daa, blue);
    RegroupBytes(zero, bits, zero, daa + blue, size + work + p);
    RegroupBytes(zero, bits, zero, daa, blue + (size + (work + p)));
    assert (daa + blue) + (size + work + p) == daa + (blue + (size + (work + p)));
    assert zero + bits + zero + daa + blue == zero + bits + zero + (daa + blue);
    assert zero + bits + zero + daa + blue + size + work + p == zero + bits + zero + (daa + blue) + (size + work + p);
  }

  lemma PreimageRegroups(h: Header)
    ensures Preimage(h) == HeadBytes(h)
  {
    hide LittleEndian;
    hide Decode;
    hide LevelBytes;
    hide PackedFields;
    hide TailBytes;
    hide Padded;
    TailRegroups(h);
    var work, p := Decode(Padded(h.blueWork)), Decode(h.pruningPoint);
    var packed, size := PackedFields(h), LittleEndian(|work|, 8);
    var version, count, levels := LittleEndian(h.version, 2), LittleEndian(|h.parents|, 8), LevelBytes(h.parents);
    var merkle, accepted, utxo := Decode(h.hashMerkleRoot), Decode(h.acceptedIDMerkleRoot), Decode(h.utxoCommitment);
    var head := version + count + levels + merkle + accepted + utxo;
    RegroupBytes(head, packed, size, work, p);
    RegroupBytes([], packed, size, work, p);
    assert head + packed + size + work + p == head + (packed + size + work + p);
    RegroupBytes(version, count, levels, merkle, accepted + (utxo + TailBytes(h)));
    RegroupBytes(version + count + levels + merkle, accepted, utxo, [], TailBytes(h));
  }

  /** Decoding inverts the encoding. */
  lemma HeaderComesBack(h: Header)
    requires WellFormed(h)
    ensures TakeHeader(Preimage(h)) == Done(FieldsOf(h), [])
  {
    PreimageRegroups(h);
    var t6 := TailBytes(h);
    var t5 := Decode(h.utxoCommitment) + t6;
    var t4 := Decode(h.acceptedIDMerkleRoot) + t5;
    var t3 := Decode(h.hashMerkleRoot) + t4;
    var t2 := LevelBytes(h.parents) + t3;
    NumberComesBack(h.version, 2, LittleEndian(|h.parents|, 8) + t2);
    NumberComesBack(|h.parents|, 8, t2);
    LevelsComeBack(h.parents, t3);
    HexComesBack(h.hashMerkleRoot, t4);
    HexComesBack(h.acceptedIDMerkleRoot, t5);
    HexComesBack(h.utxoCommitment, t6);
    TailComesBack(h, FieldsOf(h));
  }

  lemma {:induction false} LowerDecides(s: string, t: string)
    requires IsHex(s) && IsHex(t) && |s| % 2 == 0 && |t| % 2 == 0 && Lower(s) == Lower(t)
    ensures Decode(s) == Decode(t)
  {
    EncodeUndoesDecode(s);
    EncodeUndoesDecode(t);
    DecodeUndoesEncode(Decode(s));
    DecodeUndoesEncode(Decode(t));
  }

  lemma {:induction false} LowerHashesDecide(a: seq<string>, b: seq<string>)
    requires (forall i :: 0 <= i < |a| ==> IsHash(a[i])) && (forall i :: 0 <= i < |b| ==> IsHash(b[i]))
    requires LowerAll(a) == LowerAll(b)
    ensures |a| == |b| && HashBytes(a) == HashBytes(b)
  {
    assert |LowerAll(a)| == |LowerAll(b)|;
    if a == [] {
    } else {
      assert LowerAll(a)[1..] == LowerAll(a[1..]) && LowerAll(b)[1..] == LowerAll(b[1..]);
      assert LowerAll(a)[0] == Lower(a[0]) && LowerAll(b)[0] == Lower(b[0]);
      LowerDecides(a[0], b[0]);
      LowerHashesDecide(a[1..], b[1..]);
    }
  }

  lemma {:induction false} LowerLevelsDecide(a: seq<seq<string>>, b: seq<seq<string>>)
    requires (forall i :: 0 <= i < |a| ==> AreHashes(a[i])) && (forall i :: 0 <= i < |b| ==> AreHashes(b[i]))
    requires LowerLevels(a) == LowerLevels(b)
    ensures |a| == |b| && LevelBytes(a) == LevelBytes(b)
  {
    assert |LowerLevels(a)| == |LowerLevels(b)|;
    if a == [] {
    } else {
      assert LowerLevels(a)[1..] == LowerLevels(a[1..]) && LowerLevels(b)[1..] == LowerLevels(b[1..]);
      assert LowerLevels(a)[0] == LowerAll(a[0]) && LowerLevels(b)[0] == LowerAll(b[0]);
      LowerHashesDecide(a[0], b[0]);
      LowerLevelsDecide(a[1..], b[1..]);
    }
  }

  lemma {:induction false} LowerAllAt(hashes: seq<string>, i: nat)
    requires i < |hashes|
    ensures LowerAll(hashes)[i] == Lower(hashes[i])
  {
    if i == 0 {
    } else {
      LowerAllAt(hashes[1..], i - 1);
    }
  }

  lemma {:induction false} LowerLevelsAt(levels: seq<seq<string>>, i: nat)
    requires i < |levels|
    ensures LowerLevels(levels)[i] == LowerAll(levels[i])
  {
    if i == 0 {
    } else {
      LowerLevelsAt(levels[1..], i - 1);
    }
  }

  /** The same numbers at the same places. */
  ghost predicate SameHashes(a: seq<string>, b: seq<string>)
    requires AreHashes(a) && AreHashes(b)
  {
    |a| == |b| && forall i :: 0 <= i < |a| ==> ParseHex(a[i]) == ParseHex(b[i])
  }

  lemma {:induction false} SameHashesExactly(a: seq<string>, b: seq<string>)
    requires AreHashes(a) && AreHashes(b)
    ensures LowerAll(a) == LowerAll(b) <==> SameHashes(a, b)
  {
    assert |LowerAll(a)| == |a| && |LowerAll(b)| == |b|;
    if |a| == |b| {
      forall i | 0 <= i < |a|
        ensures LowerAll(a)[i] == LowerAll(b)[i] <==> ParseHex(a[i]) == ParseHex(b[i])
      {
        LowerAllAt(a, i);
        LowerAllAt(b, i);
        SameBytesExactly(a[i], b[i]);
      }
    }
  }

  /** The headers agree, field by field and as numbers, on everything but the timestamp and the
      nonce; BlueWork agrees in value and in the bytes that it takes. */
  ghost predicate SameHeader(g: Header, h: Header)
    requires WellFormed(g) && WellFormed(h)
  {
    && g.version == h.version
    && |g.parents| == |h.parents| && (forall i :: 0 <= i < |g.parents| ==> SameHashes(g.parents[i], h.parents[i]))
    && ParseHex(g.hashMerkleRoot) == ParseHex(h.hashMerkleRoot)
    && ParseHex(g.acceptedIDMerkleRoot) == ParseHex(h.acceptedIDMerkleRoot)
    && ParseHex(g.utxoCommitment) == ParseHex(h.utxoCommitment)
    && g.bits == h.bits && g.daaScore == h.daaScore && g.blueScore == h.blueScore
    && ParseHex(g.blueWork) == ParseHex(h.blueWork) && (|g.blueWork| + 1) / 2 == (|h.blueWork| + 1) / 2
    && ParseHex(g.pruningPoint) == ParseHex(h.pruningPoint)
  }

  lemma {:induction false} SameLevelsExactly(a: seq<seq<string>>, b: seq<seq<string>>)
    requires (forall i :: 0 <= i < |a| ==> AreHashes(a[i])) && (forall i :: 0 <= i < |b| ==> AreHashes(b[i]))
    ensures LowerLevels(a) == LowerLevels(b) <==> |a| == |b| && forall i :: 0 <= i < |a| ==> SameHashes(a[i], b[i])
  {
    hide AreHashes, SameHashes;
    assert |LowerLevels(a)| == |a| && |LowerLevels(b)| == |b|;
    if |a| == |b| {
      forall i | 0 <= i < |a|
        ensures LowerLevels(a)[i] == LowerLevels(b)[i] <==> SameHashes(a[i], b[i])
      {
        LowerLevelsAt(a, i);
        LowerLevelsAt(b, i);
        SameHashesExactly(a[i], b[i]);
      }
    }
  }

  lemma SameFieldsExactly(g: Header, h: Header)
    requires WellFormed(g) && WellFormed(h)
    ensures FieldsOf(g) == FieldsOf(h) <==> SameHeader(g, h)
  {
    SameLevelsExactly(g.parents, h.parents);
    SameBytesExactly(g.hashMerkleRoot, h.hashMerkleRoot);
    SameBytesExactly(g.acceptedIDMerkleRoot, h.acceptedIDMerkleRoot);
    SameBytesExactly(g.utxoCommitment, h.utxoCommitment);
    SameBytesExactly(g.pruningPoint, h.pruningPoint);
    PaddedKeepsNumber(g.blueWork);
    PaddedKeepsNumber(h.blueWork);
    SameBytesExactly(Padded(g.blueWork), Padded(h.blueWork));
    hide Lower, LowerLevels, ParseHex, Padded, AreHashes, SameHashes, Pow;
  }

  lemma FieldsDecide(g: Header, h: Header)
    requires WellFormed(g) && WellFormed(h) && FieldsOf(g) == FieldsOf(h)
    ensures Preimage(g) == Preimage(h)
  {
    LowerLevelsDecide(g.parents, h.parents);
    LowerDecides(g.hashMerkleRoot, h.hashMerkleRoot);
    LowerDecides(g.acceptedIDMerkleRoot, h.acceptedIDMerkleRoot);
    LowerDecides(g.utxoCommitment, h.utxoCommitment);
    LowerDecides(g.pruningPoint, h.pruningPoint);
    PaddedIsHex(g.blueWork);
    PaddedIsHex(h.blueWork);
    LowerDecides(Padded(g.blueWork), Padded(h.blueWork));
  }

  /** Two headers have the same preimage exactly when they agree, as numbers, on every field except
      the timestamp and the nonce. */
  lemma PreimagesCoincide(g: Header, h: Header)
    requires WellFormed(g) && WellFormed(h)
    ensures Preimage(g) == Preimage(h) <==> SameHeader(g, h)
  {
    HeaderComesBack(g);
    HeaderComesBack(h);
    SameFieldsExactly(g, h);
    hide WellFormed, SameHeader, Preimage, FieldsOf;
    if FieldsOf(g) == FieldsOf(h) {
      FieldsDecide(g, h);
    }
  }

  // ---------- The layout ----------

  function ParentsSize(levels: seq<seq<string>>): nat {
    if levels == [] then 0 else 8 + 32 * |levels[0]| + ParentsSize(levels[1..])
  }

  lemma {:induction false} HashBytesSize(hashes: seq<string>)
    requires forall i :: 0 <= i < |hashes| ==> IsHash(hashes[i])
    ensures |HashBytes(hashes)| == 32 * |hashes|
  {
    if hashes == [] {
    } else {
      EncodeUndoesDecode(hashes[0]);
      HashBytesSize(hashes[1..]);
    }
  }

  lemma {:induction false} LevelBytesSize(levels: seq<seq<string>>)
    requires forall i :: 0 <= i < |levels| ==> AreHashes(levels[i])
    ensures |LevelBytes(levels)| == ParentsSize(levels)
  {
    if levels == [] {
    } else {
      HashBytesSize(levels[0]);
      LevelBytesSize(levels[1..]);
    }
  }

  lemma {:induction false} HashPlace(hashes: seq<string>, j: nat)
    requires (forall i :: 0 <= i < |hashes| ==> IsHash(hashes[i])) && j < |hashes|
    ensures |HashBytes(hashes)| == 32 * |hashes| && HashBytes(hashes)[32 * j..32 * j + 32] == Decode(hashes[j])
  {
    HashBytesSize(hashes);
    EncodeUndoesDecode(hashes[0]);
    var first, rest := Decode(hashes[0]), HashBytes(hashes[1..]);
    hide HashBytes, Decode;
    assert HashBytes(hashes) == first + rest by {
      HashBytesFirst(hashes);
    }
    if j == 0 {
    } else {
      HashPlace(hashes[1..], j - 1);
      assert (first + rest)[32 * j..32 * j + 32] == rest[32 * (j - 1)..32 * (j - 1) + 32];
    }
  }

  lemma HashBytesFirst(hashes: seq<string>)
    requires hashes != []
    ensures HashBytes(hashes) == Decode(hashes[0]) + HashBytes(hashes[1..])
  {
  }

  /** What stands at place i, when the rest from there on begins with x. */
  lemma Place(b: seq<Byte>, i: nat, x: seq<Byte>, rest: seq<Byte>)
    requires i <= |b| && b[i..] == x + rest
    ensures i + |x| <= |b| && b[i..i + |x|] == x && b[i + |x|..] == rest
  {
    assert |b[i..]| == |x| + |rest|;
    assert b[i..i + |x|] == b[i..][..|x|];
    assert b[i + |x|..] == b[i..][|x|..];
  }

  /** The number that n bytes at place i hold, in either byte order. */
  function LittleAt(b: seq<Byte>, i: nat, n: nat): nat
    requires i + n <= |b|
  {
    FromLittleEndian(b[i..i + n])
  }

  function BigAt(b: seq<Byte>, i: nat, n: nat): nat
    requires i + n <= |b|
  {
    FromBigEndian(b[i..i + n])
  }

  lemma LittleField(b: seq<Byte>, i: nat, n: nat, k: nat, rest: seq<Byte>)
    requires n < Pow(256, k) && i <= |b| && b[i..] == LittleEndian(n, k) + rest
    ensures i + k <= |b| && LittleAt(b, i, k) == n && b[i + k..] == rest
  {
    Place(b, i, LittleEndian(n, k), rest);
    LittleEndianRoundTrip(n, k);
  }

  /** The first level behind its own count, and then the others. */
  lemma {:induction false} LevelLayout(levels: seq<seq<string>>)
    requires levels != [] && forall i :: 0 <= i < |levels| ==> AreHashes(levels[i])
    ensures var b, n := LevelBytes(levels), 8 + 32 * |levels[0]|;
            && |b| >= n && LittleAt(b, 0, 8) == |levels[0]| && b[8..n] == HashBytes(levels[0]) && b[n..] == LevelBytes(levels[1..])
  {
    var level, b := levels[0], LevelBytes(levels);
    HashBytesSize(level);
    LevelBytesFirst(levels);
    hide LevelBytes, HashBytes, LittleEndian, Pow, LittleAt;
    assert b[0..] == LittleEndian(|level|, 8) + (HashBytes(level) + LevelBytes(levels[1..]));
    LittleField(b, 0, |level|, 8, HashBytes(level) + LevelBytes(levels[1..]));
    Place(b, 8, HashBytes(level), LevelBytes(levels[1..]));
  }

  lemma LevelBytesFirst(levels: seq<seq<string>>)
    requires levels != []
    ensures LevelBytes(levels) == LittleEndian(|levels[0]|, 8) + (HashBytes(levels[0]) + LevelBytes(levels[1..]))
  {
    var a, b, c := LittleEndian(|levels[0]|, 8), HashBytes(levels[0]), LevelBytes(levels[1..]);
    assert a + b + c == a + (b + c);
  }

  lemma HexField(b: seq<Byte>, i: nat, s: string, k: nat, rest: seq<Byte>)
    requires IsHex(s) && |s| == 2 * k && i <= |b| && b[i..] == Decode(s) + rest
    ensures i + k <= |b| && BigAt(b, i, k) == ParseHex(s) && b[i + k..] == rest
  {
    DecodeReads(s);
    Place(b, i, Decode(s), rest);
  }

  /** The version and the parents, up to place p. */
  ghost predicate ParentsLaid(h: Header, b: seq<Byte>, p: nat) {
    10 <= p <= |b| && LittleAt(b, 0, 2) == h.version && LittleAt(b, 2, 8) == |h.parents| && b[10..p] == LevelBytes(h.parents)
  }

  /** The three roots from place p on. */
  ghost predicate RootsLaid(h: Header, b: seq<Byte>, p: nat)
    requires WellFormed(h)
  {
    && |b| >= p + 96
    && BigAt(b, p, 32) == ParseHex(h.hashMerkleRoot) && BigAt(b, p + 32, 32) == ParseHex(h.acceptedIDMerkleRoot)
    && BigAt(b, p + 64, 32) == ParseHex(h.utxoCommitment)
  }

  /** The packed numbers from place q on: time and nonce are zero. */
  ghost predicate NumbersLaid(h: Header, b: seq<Byte>, q: nat) {
    && |b| >= q + 36
    && LittleAt(b, q, 8) == 0 && LittleAt(b, q + 8, 4) == h.bits && LittleAt(b, q + 12, 8) == 0
    && LittleAt(b, q + 20, 8) == h.daaScore && LittleAt(b, q + 28, 8) == h.blueScore
  }

  /** BlueWork behind its size, and the pruning point, from place q to the end. */
  ghost predicate WorkLaid(h: Header, b: seq<Byte>, q: nat)
    requires WellFormed(h)
  {
    var w := (|h.blueWork| + 1) / 2;
    && |b| == q + 40 + w && LittleAt(b, q, 8) == w
    && BigAt(b, q + 8, w) == ParseHex(h.blueWork) && BigAt(b, q + 8 + w, 32) == ParseHex(h.pruningPoint)
  }

  lemma ParentsLayout(h: Header)
    requires WellFormed(h)
    ensures var b, p := Preimage(h), 10 + ParentsSize(h.parents);
            && ParentsLaid(h, b, p)
            && b[p..] == Decode(h.hashMerkleRoot) + (Decode(h.acceptedIDMerkleRoot) + (Decode(h.utxoCommitment) + TailBytes(h)))
  {
    PreimageRegroups(h);
    LevelBytesSize(h.parents);
    var b := Preimage(h);
    var roots := Decode(h.hashMerkleRoot) + (Decode(h.acceptedIDMerkleRoot) + (Decode(h.utxoCommitment) + TailBytes(h)));
    var t := LevelBytes(h.parents) + roots;
    hide Preimage, LittleEndian, Decode, LevelBytes, ParseHex, Pow, LittleAt, AreHashes, TailBytes;
    assert b[0..] == LittleEndian(h.version, 2) + (LittleEndian(|h.parents|, 8) + t);
    hide HeadBytes;
    LittleField(b, 0, h.version, 2, LittleEndian(|h.parents|, 8) + t);
    LittleField(b, 2, |h.parents|, 8, t);
    Place(b, 10, LevelBytes(h.parents), roots);
  }

  lemma RootsLayout(h: Header, b: seq<Byte>, p: nat)
    requires WellFormed(h) && p <= |b|
    requires b[p..] == Decode(h.hashMerkleRoot) + (Decode(h.acceptedIDMerkleRoot) + (Decode(h.utxoCommitment) + TailBytes(h)))
    ensures RootsLaid(h, b, p) && b[p + 96..] == TailBytes(h)
  {
    hide Decode, ParseHex, Pow, BigAt, AreHashes, TailBytes;
    HexField(b, p, h.hashMerkleRoot, 32, Decode(h.acceptedIDMerkleRoot) + (Decode(h.utxoCommitment) + TailBytes(h)));
    HexField(b, p + 32, h.acceptedIDMerkleRoot, 32, Decode(h.utxoCommitment) + TailBytes(h));
    HexField(b, p + 64, h.utxoCommitment, 32, TailBytes(h));
  }

  /** The end: BlueWork behind its own size, and the pruning point. */
  function WorkBytes(h: Header): seq<Byte> {
    var work := Decode(Padded(h.blueWork));
    LittleEndian(|work|, 8) + (work + (Decode(h.pruningPoint) + []))
  }

  lemma NumbersLayout(h: Header, b: seq<Byte>, q: nat)
    requires WellFormed(h) && q <= |b| && b[q..] == TailBytes(h)
    ensures NumbersLaid(h, b, q) && b[q + 36..] == WorkBytes(h)
  {
    var t4 := LittleEndian(h.blueScore, 8) + WorkBytes(h);
    var t3 := LittleEndian(h.daaScore, 8) + t4;
    var t2 := LittleEndian(0, 8) + t3;
    var t1 := LittleEndian(h.bits, 4) + t2;
    assert b[q..] == LittleEndian(0, 8) + t1;
    hide TailBytes, WorkBytes, LittleEndian, LittleAt, Pow, AreHashes, IsHash, IsHex;
    ZeroFits();
    LittleField(b, q, 0, 8, t1);
    LittleField(b, q + 8, h.bits, 4, t2);
    LittleField(b, q + 12, 0, 8, t3);
    LittleField(b, q + 20, h.daaScore, 8, t4);
    LittleField(b, q + 28, h.blueScore, 8, WorkBytes(h));
  }

  lemma ZeroFits()
    ensures 0 < Pow(256, 8)
  {
  }

  lemma {:induction false} LastFields(b: seq<Byte>, q: nat, k: nat, work: string, pruning: string)
    requires IsHex(work) && |work| == 2 * k && k < Pow(256, 8) && IsHash(pruning) && q <= |b|
    requires b[q..] == LittleEndian(k, 8) + (Decode(work) + (Decode(pruning) + []))
    ensures |b| == q + 40 + k && LittleAt(b, q, 8) == k
    ensures BigAt(b, q + 8, k) == ParseHex(work) && BigAt(b, q + 8 + k, 32) == ParseHex(pruning)
  {
    hide *;
    PruningIsHex(pruning);
    LittleField(b, q, k, 8, Decode(work) + (Decode(pruning) + []));
    HexField(b, q + 8, work, k, Decode(pruning) + []);
    HexField(b, q + 8 + k, pruning, 32, []);
  }

  lemma PruningIsHex(pruning: string)
    requires IsHash(pruning)
    ensures IsHex(pruning) && |pruning| == 64
  {
  }

  lemma WorkIsHex(h: Header)
    requires WellFormed(h)
    ensures var work, k := Padded(h.blueWork), (|h.blueWork| + 1) / 2;
            && IsHex(work) && |work| == 2 * k && k < Pow(256, 8) && ParseHex(work) == ParseHex(h.blueWork)
            && WorkBytes(h) == LittleEndian(k, 8) + (Decode(work) + (Decode(h.pruningPoint) + []))
  {
    PaddedKeepsNumber(h.blueWork);
    DecodeReads(Padded(h.blueWork));
    hide Decode, ParseHex, Padded, LittleEndian, Pow, AreHashes;
  }

  lemma WorkLayout(h: Header, b: seq<Byte>, q: nat)
    requires WellFormed(h) && q <= |b| && b[q..] == WorkBytes(h)
    ensures WorkLaid(h, b, q)
  {
    hide LittleEndian, Decode, ParseHex, Padded, LittleAt, BigAt, Pow, AreHashes, WorkBytes;
    WorkIsHex(h);
    LastFields(b, q, (|h.blueWork| + 1) / 2, Padded(h.blueWork), h.pruningPoint);
  }

  lemma RestLayout(h: Header, b: seq<Byte>, p: nat)
    requires WellFormed(h) && p <= |b|
    requires b[p..] == Decode(h.hashMerkleRoot) + (Decode(h.acceptedIDMerkleRoot) + (Decode(h.utxoCommitment) + TailBytes(h)))
    ensures RootsLaid(h, b, p) && NumbersLaid(h, b, p + 96) && WorkLaid(h, b, p + 132)
  {
    hide *;
    RootsLayout(h, b, p);
    RootsWithin(h, b, p);
    NumbersLayout(h, b, p + 96);
    NumbersWithin(h, b, p + 96);
    WorkLayout(h, b, p + 132);
  }

  /** Where every field stands and with which width, p being the place after the parents; nothing
      else is there. */
  lemma PreimageLayout(h: Header, b: seq<Byte>, p: nat)
    requires WellFormed(h) && b == Preimage(h) && p == 10 + ParentsSize(h.parents)
    ensures ParentsLaid(h, b, p) && RootsLaid(h, b, p) && NumbersLaid(h, b, p + 96) && WorkLaid(h, b, p + 132)
  {
    hide *;
    ParentsLayout(h);
    LaidWithin(h, b, p);
    RestLayout(h, b, p);
  }

  lemma LaidWithin(h: Header, b: seq<Byte>, p: nat)
    requires ParentsLaid(h, b, p)
    ensures p <= |b|
  {
  }

  lemma RootsWithin(h: Header, b: seq<Byte>, p: nat)
    requires WellFormed(h) && RootsLaid(h, b, p)
    ensures p + 96 <= |b|
  {
  }

  lemma NumbersWithin(h: Header, b: seq<Byte>, q: nat)
    requires NumbersLaid(h, b, q)
    ensures q + 36 <= |b|
  {
  }

  /** Whatever the other fields hold, the timestamp and the nonce leave no trace. */
  lemma TimestampAndNonceIgnored(h: Header, timestamp: nat, nonce: nat)
    ensures Preimage(h.(timestamp := timestamp, nonce := nonce)) == Preimage(h)
  {
    assert PackedFields(h.(timestamp := timestamp, nonce := nonce)) == PackedFields(h);
  }
}
