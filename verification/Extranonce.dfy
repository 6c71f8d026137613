/** Extranonce allocation, after `newClientListener` and `OnConnect` in
    src/htnstratum/client_handler.go. */
module Extranonce {
  import opened Arithmetic
  import opened Basics
  import opened Encoding

  /** Wrap-around of int32. */
  function Int32(n: int): int { (n + 0x8000_0000) % 0x1_0000_0000 - 0x8000_0000 }

  /** The number of distinct extranonces: 256^size, with at most three bytes in use. */
  function Period(size: int): nat {
    Pow(256, if size <= 0 then 0 else if size <= 3 then size else 3)
  }

  /** The string handed to the connection that takes number n of the cycle. */
  function Spelling(size: int, n: nat): string {
    if size > 0 then PaddedHex(n, 2 * size) else ""
  }

  /** The string of connection number c, counted from the start of the listener. */
  function Allotted(size: int, c: nat): string {
    Spelling(size, c % Period(size))
  }

  class ClientListener {
    const extranonceSize: int
    const maxExtranonce: int
    var nextExtranonce: int
    var clientCounter: int
    var clients: map<int, string>
    ghost var connected: nat

    ghost predicate Valid()
      reads this
    {
      && maxExtranonce == Period(extranonceSize) - 1
      && (extranonceSize > 0 ==> nextExtranonce == connected % Period(extranonceSize))
    }

    constructor (size: int)
      ensures Valid() && extranonceSize == size && connected == 0 && clients == map[] && clientCounter == 0
    {
      extranonceSize := size;
      maxExtranonce := Period(size) - 1;
      nextExtranonce := 0;
      clientCounter := 0;
      clients := map[];
      connected := 0;
    }

    /** Connection number `connected` gets its place in the cycle, across every wrap-around. */
    method OnConnect() returns (id: int, extranonce: string)
      requires Valid()
      modifies this
      ensures Valid() && connected == old(connected) + 1
      ensures extranonce == Allotted(extranonceSize, old(connected))
      ensures extranonceSize > 0 ==> IsHex(extranonce) && ParseHex(extranonce) == old(connected) % Period(extranonceSize)
      ensures id == clientCounter == Int32(old(clientCounter) + 1)
      ensures clients == old(clients)[id := extranonce]
    {
      if extranonceSize > 0 {
        AllottedNumber(extranonceSize, connected);
      }
      clientCounter := Int32(clientCounter + 1);
      id := clientCounter;
      var taken := 0;
      if extranonceSize > 0 {
        taken := nextExtranonce;
        NextInCycle(connected, Period(extranonceSize));
        if nextExtranonce < maxExtranonce {
          nextExtranonce := nextExtranonce + 1;
        } else {
          nextExtranonce := 0;
        }
      }
      extranonce := Spelling(extranonceSize, taken);
      connected := connected + 1;
      clients := clients[id := extranonce];
    }

    method OnDisconnect(id: int)
      requires Valid()
      modifies this
      ensures Valid() && connected == old(connected) && clients == old(clients) - {id}
      ensures clientCounter == old(clientCounter)
    {
      clients := clients - {id};
    }
  }

  lemma NextInCycle(c: nat, p: nat)
    requires p > 0
    ensures (c + 1) % p == if c % p + 1 < p then c % p + 1 else 0
  {
    var q, r := c / p, c % p;
    if r + 1 < p {
      QuotientIsUnique(c + 1, p, q, r + 1);
    } else {
      assert (q + 1) * p == q * p + p;
      QuotientIsUnique(c + 1, p, q + 1, 0);
    }
  }

  lemma PeriodFits(size: int)
    requires size > 0
    ensures Period(size) <= Pow(16, 2 * size)
  {
    var k := if size <= 3 then size else 3;
    BytesInDigits(k);
    PowGrows(16, 2 * k, 2 * size);
  }

  /** The digits are those of the connection's number in the cycle. */
  lemma AllottedNumber(size: int, c: nat)
    requires size > 0
    ensures IsHex(Allotted(size, c)) && ParseHex(Allotted(size, c)) == c % Period(size)
  {
    var n := c % Period(size);
    PeriodFits(size);
    PaddedHexIsFixed(n, 2 * size);
    FixedHexParses(n, 2 * size);
    QuotientIsUnique(n, Pow(16, 2 * size), 0, n);
  }

  lemma CloseNumbersDiffer(a: nat, b: nat, p: nat)
    requires p > 0 && a < b < a + p
    ensures a % p != b % p
  {
    if a % p == b % p {
      assert (b / p - a / p) * p == b - a;
      MultipleIsFar(b / p - a / p, p);
    }
  }

  /** Any 256^size consecutive connections hold pairwise distinct strings of 2 * size digits,
      wherever in the life of the listener they start. */
  lemma ConsecutiveConnectionsDiffer(size: int, a: nat, b: nat)
    requires size > 0 && a < b < a + Period(size)
    ensures Allotted(size, a) != Allotted(size, b)
    ensures |Allotted(size, a)| == 2 * size && IsHex(Allotted(size, a))
  {
    var p, w := Period(size), 2 * size;
    PeriodFits(size);
    CloseNumbersDiffer(a, b, p);
    PaddedHexIsFixed(a % p, w);
    PaddedHexIsFixed(b % p, w);
    FixedHexIsHex(a % p, w);
    if FixedHex(a % p, w) == FixedHex(b % p, w) {
      FixedHexInjective(a % p, b % p, w);
    }
  }

  /** One connection further the cycle repeats: the bound is exact. */
  lemma CycleRepeats(size: int, a: nat)
    ensures Allotted(size, a + Period(size)) == Allotted(size, a)
  {
    var p := Period(size);
    assert a + p == (a / p + 1) * p + a % p;
    QuotientIsUnique(a + p, p, a / p + 1, a % p);
  }
}
