/** Byte orders and hexadecimal, as encoding/binary, encoding/hex and fmt of the Go library
    define them.  Digits are those of section 8 of RFC 4648, written in lower case. */
module Encoding {
  import opened Arithmetic
  import opened Basics

  // ---------- Byte orders ----------

  function LittleEndian(n: nat, k: nat): (b: seq<Byte>)
    ensures |b| == k
  {
    if k == 0 then [] else [n % 256] + LittleEndian(n / 256, k - 1)
  }

  function FromLittleEndian(b: seq<Byte>): nat {
    if b == [] then 0 else b[0] + 256 * FromLittleEndian(b[1..])
  }

  function BigEndian(n: nat, k: nat): (b: seq<Byte>)
    ensures |b| == k
  {
    if k == 0 then [] else BigEndian(n / 256, k - 1) + [n % 256]
  }

  function FromBigEndian(b: seq<Byte>): nat {
    if b == [] then 0 else 256 * FromBigEndian(b[..|b| - 1]) + b[|b| - 1]
  }

  /** Byte i is digit i in base 256, the lowest first. */
  lemma {:induction false} LittleEndianAt(n: nat, k: nat, i: nat)
    requires i < k
    ensures LittleEndian(n, k)[i] == (n / Pow(256, i)) % 256
  {
    if i == 0 {
    } else {
      LittleEndianAt(n / 256, k - 1, i - 1);
      ModuloStep(n, 256, Pow(256, i - 1));
    }
  }

  lemma {:induction false} LittleEndianReads(n: nat, k: nat)
    ensures FromLittleEndian(LittleEndian(n, k)) == n % Pow(256, k)
  {
    if k == 0 {
    } else {
      LittleEndianReads(n / 256, k - 1);
      ModuloStep(n, 256, Pow(256, k - 1));
      assert LittleEndian(n, k)[1..] == LittleEndian(n / 256, k - 1);
    }
  }

  /** A number that fits comes back from its bytes. */
  lemma LittleEndianRoundTrip(n: nat, k: nat)
    requires n < Pow(256, k)
    ensures FromLittleEndian(LittleEndian(n, k)) == n
  {
    LittleEndianReads(n, k);
    QuotientIsUnique(n, Pow(256, k), 0, n);
  }

  lemma {:induction false} LittleEndianWrites(b: seq<Byte>)
    ensures LittleEndian(FromLittleEndian(b), |b|) == b
  {
    if b == [] {
    } else {
      LittleEndianWrites(b[1..]);
    }
  }

  lemma {:induction false} BigEndianWrites(b: seq<Byte>)
    ensures BigEndian(FromBigEndian(b), |b|) == b
  {
    if b == [] {
    } else {
      BigEndianWrites(b[..|b| - 1]);
    }
  }

  lemma {:induction false} FromBigEndianBound(b: seq<Byte>)
    ensures FromBigEndian(b) < Pow(256, |b|)
  {
    if b == [] {
    } else {
      FromBigEndianBound(b[..|b| - 1]);
    }
  }

  lemma {:induction false} FromLittleEndianBound(b: seq<Byte>)
    ensures FromLittleEndian(b) < Pow(256, |b|)
  {
    if b == [] {
    } else {
      FromLittleEndianBound(b[1..]);
    }
  }

  function Reversed(b: seq<Byte>): (r: seq<Byte>)
    ensures |r| == |b|
  {
    if b == [] then [] else Reversed(b[1..]) + [b[0]]
  }

  /** The two byte orders are mirror images. */
  lemma {:induction false} OrdersMirror(n: nat, k: nat)
    ensures Reversed(LittleEndian(n, k)) == BigEndian(n, k)
  {
    if k == 0 {
    } else {
      OrdersMirror(n / 256, k - 1);
      assert LittleEndian(n, k)[1..] == LittleEndian(n / 256, k - 1);
    }
  }

  lemma {:induction false} ReadsMirror(b: seq<Byte>)
    ensures FromBigEndian(Reversed(b)) == FromLittleEndian(b)
  {
    if b == [] {
    } else {
      ReadsMirror(b[1..]);
      assert Reversed(b)[..|b| - 1] == Reversed(b[1..]);
    }
  }

  lemma {:induction false} ReversedLast(b: seq<Byte>, x: Byte)
    ensures Reversed(b + [x]) == [x] + Reversed(b)
  {
    if b == [] {
      assert b + [x] == [x];
      assert Reversed([x]) == Reversed([]) + [x];
    } else {
      assert (b + [x])[1..] == b[1..] + [x];
      ReversedLast(b[1..], x);
    }
  }

  lemma {:induction false} ReversedTwice(b: seq<Byte>)
    ensures Reversed(Reversed(b)) == b
  {
    if b == [] {
    } else {
      ReversedLast(Reversed(b[1..]), b[0]);
      ReversedTwice(b[1..]);
    }
  }

  // ---------- Hexadecimal ----------

  const DIGITS := "0123456789abcdef"

  function Digit(d: nat): char
    requires d < 16
  {
    DIGITS[d]
  }

  function DigitValue(c: char): Option<nat> {
    if '0' <= c <= '9' then Some(c as int - '0' as int)
    else if 'a' <= c <= 'f' then Some(c as int - 'a' as int + 10)
    else if 'A' <= c <= 'F' then Some(c as int - 'A' as int + 10)
    else None
  }

  lemma DigitRoundTrip(d: nat)
    requires d < 16
    ensures DigitValue(Digit(d)) == Some(d)
  {
  }

  ghost predicate IsHex(s: string) {
    forall i :: 0 <= i < |s| ==> DigitValue(s[i]).Some?
  }

  /** A character in lower case, if it is a digit. */
  function LowerDigit(c: char): char {
    if 'A' <= c <= 'F' then (c as int - 'A' as int + 'a' as int) as char else c
  }

  function Lower(s: string): (r: string)
    ensures |r| == |s|
  {
    if s == "" then "" else [LowerDigit(s[0])] + Lower(s[1..])
  }

  lemma LowerOfDigit(c: char)
    requires DigitValue(c).Some?
    ensures DigitValue(c).value < 16 && Digit(DigitValue(c).value) == LowerDigit(c)
  {
  }

  function Encode(b: seq<Byte>): (s: string)
    ensures |s| == 2 * |b|
  {
    if b == [] then "" else [Digit(b[0] / 16), Digit(b[0] % 16)] + Encode(b[1..])
  }

  /** `hex.DecodeString` with its error ignored: the bytes of the longest well-formed prefix. */
  function Decode(s: string): seq<Byte> {
    if |s| < 2 || DigitValue(s[0]).None? || DigitValue(s[1]).None? then []
    else
      assert DigitValue(s[0]).value < 16 && DigitValue(s[1]).value < 16;
      [16 * DigitValue(s[0]).value + DigitValue(s[1]).value] + Decode(s[2..])
  }

  lemma DecodeFirst(hi: nat, lo: nat, rest: string)
    requires hi < 16 && lo < 16
    ensures Decode([Digit(hi), Digit(lo)] + rest) == [16 * hi + lo] + Decode(rest)
  {
    DigitRoundTrip(hi);
    DigitRoundTrip(lo);
    hide Digit, DigitValue;
    assert ([Digit(hi), Digit(lo)] + rest)[2..] == rest;
  }

  lemma {:induction false} DecodeUndoesEncode(b: seq<Byte>)
    ensures Decode(Encode(b)) == b
  {
    hide Decode, Digit;
    if b == [] {
      assert Decode("") == [] by {
        DecodeNothing();
      }
    } else {
      DecodeUndoesEncode(b[1..]);
      DecodeFirst(b[0] / 16, b[0] % 16, Encode(b[1..]));
      assert 16 * (b[0] / 16) + b[0] % 16 == b[0];
      assert [b[0]] + b[1..] == b;
    }
  }

  lemma DecodeNothing()
    ensures Decode("") == []
  {
  }

  lemma LowerFirstTwo(s: string)
    requires |s| >= 2
    ensures Lower(s) == [LowerDigit(s[0]), LowerDigit(s[1])] + Lower(s[2..])
  {
    hide LowerDigit;
    var a, b, rest := LowerDigit(s[0]), LowerDigit(s[1]), Lower(s[2..]);
    assert Lower(s) == [a] + Lower(s[1..]);
    assert Lower(s[1..]) == [b] + rest by {
      assert s[1..][1..] == s[2..];
    }
    hide Lower;
    assert [a] + ([b] + rest) == [a, b] + rest;
  }

  lemma {:induction false} EncodeFirst(hi: nat, lo: nat, rest: seq<Byte>)
    requires hi < 16 && lo < 16
    ensures Encode([16 * hi + lo] + rest) == [Digit(hi), Digit(lo)] + Encode(rest)
  {
    var b: Byte := 16 * hi + lo;
    assert b / 16 == hi && b % 16 == lo;
    assert ([b] + rest)[1..] == rest;
  }

  lemma {:induction false} EncodeUndoesDecode(s: string)
    requires IsHex(s) && |s| % 2 == 0
    ensures |Decode(s)| == |s| / 2 && Encode(Decode(s)) == Lower(s)
  {
    if s == "" {
    } else {
      LowerOfDigit(s[0]);
      LowerOfDigit(s[1]);
      EncodeUndoesDecode(s[2..]);
      var hi, lo := DigitValue(s[0]).value, DigitValue(s[1]).value;
      assert Decode(s) == [16 * hi + lo] + Decode(s[2..]);
      hide Decode, Encode, Lower, Digit, DigitValue, LowerDigit;
      EncodeFirst(hi, lo, Decode(s[2..]));
      LowerFirstTwo(s);
    }
  }

  lemma {:induction false} EncodeConcat(a: seq<Byte>, b: seq<Byte>)
    ensures Encode(a + b) == Encode(a) + Encode(b)
  {
    if a == [] {
      assert a + b == b;
    } else {
      assert (a + b)[1..] == a[1..] + b;
      EncodeConcat(a[1..], b);
    }
  }

  // ---------- Formatted numbers ----------

  /** Exactly k digits. */
  function FixedHex(n: nat, k: nat): (s: string)
    ensures |s| == k
  {
    if k == 0 then "" else FixedHex(n / 16, k - 1) + [Digit(n % 16)]
  }

  /** The verb %x: no leading zeros. */
  function Hex(n: nat): (s: string)
    ensures |s| > 0
  {
    if n < 16 then [Digit(n)] else Hex(n / 16) + [Digit(n % 16)]
  }

  function Zeros(k: nat): (s: string)
    ensures |s| == k
  {
    if k == 0 then "" else "0" + Zeros(k - 1)
  }

  /** The verb %0wx: padded with zeros to width w, never cut. */
  function PaddedHex(n: nat, w: nat): string {
    Zeros(Missing(n, w)) + Hex(n)
  }

  function Missing(n: nat, w: nat): nat {
    if |Hex(n)| < w then w - |Hex(n)| else 0
  }

  function ParseHex(s: string): nat
    requires IsHex(s)
  {
    if s == "" then 0 else 16 * ParseHex(s[..|s| - 1]) + DigitValue(s[|s| - 1]).value
  }

  lemma {:induction false} HexRoundTrip(n: nat)
    ensures IsHex(Hex(n)) && ParseHex(Hex(n)) == n
  {
    if n < 16 {
      DigitRoundTrip(n);
      assert [Digit(n)][..0] == "";
    } else {
      HexRoundTrip(n / 16);
      DigitRoundTrip(n % 16);
      assert Hex(n)[..|Hex(n)| - 1] == Hex(n / 16);
    }
  }

  lemma {:induction false} FixedHexIsHex(n: nat, k: nat)
    ensures IsHex(FixedHex(n, k))
  {
    if k == 0 {
    } else {
      FixedHexIsHex(n / 16, k - 1);
      DigitRoundTrip(n % 16);
    }
  }

  lemma {:induction false} FixedHexOfZero(k: nat)
    ensures FixedHex(0, k) == Zeros(k)
  {
    if k == 0 {
    } else {
      FixedHexOfZero(k - 1);
      ZerosEitherEnd(k - 1);
    }
  }

  lemma {:induction false} ZerosEitherEnd(k: nat)
    ensures Zeros(k) + "0" == "0" + Zeros(k)
  {
    if k == 0 {
    } else {
      ZerosEitherEnd(k - 1);
      assert Zeros(k) + "0" == "0" + (Zeros(k - 1) + "0");
    }
  }

  lemma {:induction false} BytesInDigits(k: nat)
    ensures Pow(256, k) == Pow(16, 2 * k)
  {
    if k == 0 {
    } else {
      BytesInDigits(k - 1);
      assert Pow(16, 2 * k) == 16 * (16 * Pow(16, 2 * k - 2));
    }
  }

  lemma DropDigit(n: nat, w: nat)
    requires w > 0 && n < Pow(16, w)
    ensures n / 16 < Pow(16, w - 1)
  {
  }

  /** A number that fits the width is printed with exactly w digits. */
  lemma {:induction false} PaddedHexIsFixed(n: nat, w: nat)
    requires w > 0 && n < Pow(16, w)
    ensures PaddedHex(n, w) == FixedHex(n, w)
  {
    DropDigit(n, w);
    if n < 16 {
      FixedHexOfZero(w - 1);
    } else {
      var m, d := n / 16, [Digit(n % 16)];
      PaddedHexIsFixed(m, w - 1);
      assert Missing(n, w) == Missing(m, w - 1);
      assert Zeros(Missing(m, w - 1)) + (Hex(m) + d) == (Zeros(Missing(m, w - 1)) + Hex(m)) + d;
    }
  }

  /** Numbers below 16^k have distinct k-digit spellings. */
  lemma {:induction false} FixedHexInjective(m: nat, n: nat, k: nat)
    requires m < Pow(16, k) && n < Pow(16, k) && FixedHex(m, k) == FixedHex(n, k)
    ensures m == n
  {
    if k == 0 {
    } else {
      assert FixedHex(m, k)[..k - 1] == FixedHex(m / 16, k - 1);
      assert FixedHex(n, k)[..k - 1] == FixedHex(n / 16, k - 1);
      assert FixedHex(m, k)[k - 1] == Digit(m % 16) && FixedHex(n, k)[k - 1] == Digit(n % 16);
      DigitRoundTrip(m % 16);
      DigitRoundTrip(n % 16);
      assert m / 16 < Pow(16, k - 1) && n / 16 < Pow(16, k - 1);
      FixedHexInjective(m / 16, n / 16, k - 1);
    }
  }

  lemma ByteInDigits(n: nat, last: Byte)
    ensures var m := 256 * n + last;
            m % 16 == last % 16 && (m / 16) % 16 == last / 16 && (m / 16) / 16 == n
  {
    var m := 256 * n + last;
    assert m == 16 * (16 * n + last / 16) + last % 16;
    assert m / 16 == 16 * n + last / 16;
  }

  lemma LastTwoDigits(n: nat, last: Byte, k: nat)
    ensures FixedHex(256 * n + last, 2 * (k + 1)) == FixedHex(n, 2 * k) + [Digit(last / 16), Digit(last % 16)]
  {
    hide Digit;
    var m := 256 * n + last;
    ByteInDigits(n, last);
    assert FixedHex(m, 2 * k + 2) == FixedHex(m / 16, 2 * k + 1) + [Digit(m % 16)];
    assert FixedHex(m / 16, 2 * k + 1) == FixedHex(n, 2 * k) + [Digit((m / 16) % 16)];
  }

  /** Printing a big-endian word spells out its bytes. */
  lemma {:induction false} FixedHexSpellsBytes(b: seq<Byte>)
    ensures FixedHex(FromBigEndian(b), 2 * |b|) == Encode(b)
  {
    if b == [] {
    } else {
      var n, k, last := FromBigEndian(b[..|b| - 1]), |b| - 1, b[|b| - 1];
      assert FromBigEndian(b) == 256 * n + last;
      FixedHexSpellsBytes(b[..k]);
      hide FixedHex, Digit, FromBigEndian;
      EncodeConcat(b[..k], [last]);
      assert b[..k] + [last] == b;
      assert Encode([last]) == [Digit(last / 16), Digit(last % 16)] by {
        assert [last][1..] == [];
      }
      hide Encode;
      LastTwoDigits(n, last, k);
    }
  }

  // ---------- Numbers behind the digits ----------

  lemma {:induction false} FixedHexParses(n: nat, k: nat)
    ensures IsHex(FixedHex(n, k)) && ParseHex(FixedHex(n, k)) == n % Pow(16, k)
  {
    FixedHexIsHex(n, k);
    if k == 0 {
    } else {
      FixedHexParses(n / 16, k - 1);
      DigitRoundTrip(n % 16);
      ModuloStep(n, 16, Pow(16, k - 1));
      assert FixedHex(n, k)[..k - 1] == FixedHex(n / 16, k - 1);
    }
  }

  lemma {:induction false} LowerAt(s: string, i: nat)
    requires i < |s|
    ensures Lower(s)[i] == LowerDigit(s[i])
  {
    if i == 0 {
    } else {
      LowerAt(s[1..], i - 1);
    }
  }

  lemma LowerDigitValue(c: char)
    requires DigitValue(c).Some?
    ensures DigitValue(LowerDigit(c)) == DigitValue(c)
  {
  }

  lemma {:induction false} LowerPrefix(s: string, n: nat)
    requires n <= |s|
    ensures Lower(s)[..n] == Lower(s[..n])
  {
    forall i | 0 <= i < n
      ensures Lower(s)[..n][i] == Lower(s[..n])[i]
    {
      LowerAt(s, i);
      LowerAt(s[..n], i);
    }
  }

  /** Lower case does not change the number. */
  lemma {:induction false} LowerParses(s: string)
    requires IsHex(s)
    ensures IsHex(Lower(s)) && ParseHex(Lower(s)) == ParseHex(s)
  {
    forall i | 0 <= i < |s|
      ensures DigitValue(Lower(s)[i]) == DigitValue(s[i])
    {
      LowerAt(s, i);
      LowerDigitValue(s[i]);
    }
    hide Lower, DigitValue;
    if s == "" {
    } else {
      LowerParses(s[..|s| - 1]);
      LowerPrefix(s, |s| - 1);
    }
  }

  /** A zero in front does not change the number. */
  lemma {:induction false} LeadingZero(s: string)
    requires IsHex(s)
    ensures IsHex("0" + s) && ParseHex("0" + s) == ParseHex(s)
  {
    if s == "" {
      assert "0" + s == "0" && "0"[..0] == "";
    } else {
      var n := |s| - 1;
      LeadingZero(s[..n]);
      assert ("0" + s)[..n + 1] == "0" + s[..n];
    }
  }

  /** The bytes of an even number of digits are, big-endian, the number that the digits denote. */
  lemma {:induction false} DecodeReads(s: string)
    requires IsHex(s) && |s| % 2 == 0
    ensures |Decode(s)| == |s| / 2 && FromBigEndian(Decode(s)) == ParseHex(s)
  {
    EncodeUndoesDecode(s);
    var b := Decode(s);
    var n := FromBigEndian(b);
    FixedHexSpellsBytes(b);
    FromBigEndianBound(b);
    BytesInDigits(|b|);
    FixedHexParses(n, |s|);
    LowerParses(s);
    QuotientIsUnique(n, Pow(16, |s|), 0, n);
  }

  /** Two such strings have the same bytes exactly when they have the same length and number. */
  lemma {:induction false} SameBytesExactly(s: string, t: string)
    requires IsHex(s) && IsHex(t) && |s| % 2 == 0 && |t| % 2 == 0
    ensures Decode(s) == Decode(t) <==> |s| == |t| && ParseHex(s) == ParseHex(t)
    ensures Lower(s) == Lower(t) <==> |s| == |t| && ParseHex(s) == ParseHex(t)
  {
    DecodeReads(s);
    DecodeReads(t);
    BigEndianWrites(Decode(s));
    BigEndianWrites(Decode(t));
    EncodeUndoesDecode(s);
    EncodeUndoesDecode(t);
    DecodeUndoesEncode(Decode(s));
    DecodeUndoesEncode(Decode(t));
    hide Decode, Encode, Lower, ParseHex, FromBigEndian, BigEndian;
  }
}
