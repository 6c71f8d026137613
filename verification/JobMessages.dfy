/** The two wire forms of a job, after `GenerateJobHeader` and `GenerateLargeJobParams` in
    src/htnstratum/hasher.go. */
module JobMessages {
  import opened Arithmetic
  import opened Basics
  import opened Encoding

  /** The bytes that a list of 64-bit words carries, each word in little-endian order. */
  function WordBytes(words: seq<nat>): seq<Byte> {
    if words == [] then [] else WordBytes(words[..|words| - 1]) + LittleEndian(words[|words| - 1], 8)
  }

  lemma WordBytesLast(words: seq<nat>, w: nat)
    ensures WordBytes(words + [w]) == WordBytes(words) + LittleEndian(w, 8)
  {
    assert (words + [w])[..|words|] == words;
  }

  lemma {:induction false} WordComesBack(b: seq<Byte>)
    requires |b| == 8
    ensures var w := FromLittleEndian(b);
            w < Pow(256, 8) && LittleEndian(w, 8) == b && IsHex(Hex(w)) && ParseHex(Hex(w)) == w
  {
    HexRoundTrip(FromLittleEndian(b));
    FromLittleEndianBound(b);
    LittleEndianWrites(b);
  }

  /** The small form: four words that carry the header bytes. */
  method GenerateJobHeader(header: seq<Byte>) returns (final: seq<nat>)
    requires |header| == 32
    ensures |final| == 4 && (forall i :: 0 <= i < 4 ==> final[i] < Pow(256, 8))
    ensures WordBytes(final) == header
  {
    hide *;
    var ids := [FromLittleEndian(header[0..8]), FromLittleEndian(header[8..16]),
                FromLittleEndian(header[16..24]), FromLittleEndian(header[24..32])];
    final := [];
    NoWords();
    for i := 0 to 4
      invariant |final| == i && forall k :: 0 <= k < i ==> final[k] < Pow(256, 8)
      invariant WordBytes(final) == header[..8 * i]
    {
      assert ids[i] == FromLittleEndian(header[8 * i..8 * i + 8]);
      WordComesBack(header[8 * i..8 * i + 8]);
      var asHex := Hex(ids[i]);
      WordBytesLast(final, ids[i]);
      final := final + [ParseHex(asHex)];
      assert header[..8 * i] + header[8 * i..8 * i + 8] == header[..8 * (i + 1)];
    }
    assert header[..32] == header;
  }

  lemma NoWords()
    ensures WordBytes([]) == []
  {
  }

  lemma {:induction false} WordFits(b: seq<Byte>)
    requires |b| == 8
    ensures FromBigEndian(b) < Pow(16, 16)
    ensures PaddedHex(FromBigEndian(b), 16) == Encode(b)
  {
    FromBigEndianBound(b);
    BytesInDigits(8);
    PaddedHexIsFixed(FromBigEndian(b), 16);
    FixedHexSpellsBytes(b);
  }

  /** The byte-swapped timestamp: read little-endian what was written big-endian. */
  lemma SwappedTimestamp(ts: nat)
    ensures BigEndian(FromLittleEndian(BigEndian(ts, 8)), 8) == LittleEndian(ts, 8)
  {
    var b := BigEndian(ts, 8);
    OrdersMirror(ts, 8);
    ReversedTwice(LittleEndian(ts, 8));
    ReadsMirror(b);
    BigEndianWrites(Reversed(b));
  }

  lemma {:induction false} EncodeIsLowerHex(b: seq<Byte>)
    ensures forall c :: c in Encode(b) ==> c in DIGITS
  {
    if b == [] {
    } else {
      EncodeIsLowerHex(b[1..]);
    }
  }

  /** The large form: 80 lower-case digits for the header bytes and the little-endian timestamp. */
  method GenerateLargeJobParams(header: seq<Byte>, timestamp: nat) returns (str: string)
    requires |header| == 32 && timestamp < Pow(256, 8)
    ensures |str| == 80 && forall c :: c in str ==> c in DIGITS
    ensures Decode(str) == header + LittleEndian(timestamp, 8)
  {
    hide *;
    var timestampBytes := BigEndian(timestamp, 8);
    var ids := [FromBigEndian(header[0..8]), FromBigEndian(header[8..16]), FromBigEndian(header[16..24]),
                FromBigEndian(header[24..32]), FromLittleEndian(timestampBytes)];
    WordFits(header[0..8]);
    WordFits(header[8..16]);
    WordFits(header[16..24]);
    WordFits(header[24..32]);
    TimestampWord(timestamp);
    str := PaddedHex(ids[0], 16) + PaddedHex(ids[1], 16) + PaddedHex(ids[2], 16) + PaddedHex(ids[3], 16)
           + PaddedHex(ids[4], 16);
    ghost var all := header[0..8] + header[8..16] + header[16..24] + header[24..32] + LittleEndian(timestamp, 8);
    EncodeConcat(header[0..8], header[8..16]);
    EncodeConcat(header[0..8] + header[8..16], header[16..24]);
    EncodeConcat(header[0..8] + header[8..16] + header[16..24], header[24..32]);
    EncodeConcat(header[0..8] + header[8..16] + header[16..24] + header[24..32], LittleEndian(timestamp, 8));
    assert str == Encode(all);
    assert header[0..8] + header[8..16] + header[16..24] + header[24..32] == header;
    EncodeIsLowerHex(all);
    DecodeUndoesEncode(all);
  }

  lemma TimestampWord(ts: nat)
    requires ts < Pow(256, 8)
    ensures PaddedHex(FromLittleEndian(BigEndian(ts, 8)), 16) == Encode(LittleEndian(ts, 8))
  {
    var b := LittleEndian(ts, 8);
    SwappedTimestamp(ts);
    OrdersMirror(ts, 8);
    ReversedTwice(b);
    ReadsMirror(BigEndian(ts, 8));
    WordFits(b);
    ReadsMirror(Reversed(b));
    assert FromLittleEndian(BigEndian(ts, 8)) == FromBigEndian(b);
  }

  /** Miners of either kind get the same header: the digits of the large form decode to the bytes
      of the small form, followed by the timestamp. */
  method BothForms(header: seq<Byte>, timestamp: nat) returns (small: seq<nat>, large: string)
    requires |header| == 32 && timestamp < Pow(256, 8)
    ensures Decode(large) == WordBytes(small) + LittleEndian(timestamp, 8)
    ensures |Decode(large)| == 40 && FromLittleEndian(Decode(large)[32..]) == timestamp
  {
    hide *;
    small := GenerateJobHeader(header);
    large := GenerateLargeJobParams(header, timestamp);
    assert Decode(large)[32..] == LittleEndian(timestamp, 8);
    LittleEndianRoundTrip(timestamp, 8);
  }
}
