/** The pruned per-minute counters, after `updateRollingCounters`, `GetRollingShares` and
    `GetOneHourAverageHashrateGHs` in src/htnstratum/share_handler.go, against the log of every
    event ever counted.  Real arithmetic stands for float64. */
module RollingCounters {

  datatype Kind = Accepted | Stale | Invalid

  /** `diff` is counted for accepted shares only. */
  datatype Event = Event(minute: nat, kind: Kind, diff: real)

  const RETAINED := 1440

  // ---------- Counts taken from the log ----------

  /** Events of the kind with lo < minute <= hi. */
  ghost function Count(log: seq<Event>, kind: Kind, lo: int, hi: int): nat {
    if log == [] then 0
    else
      var e := log[|log| - 1];
      Count(log[..|log| - 1], kind, lo, hi) + if e.kind == kind && lo < e.minute <= hi then 1 else 0
  }

  /** The difficulty of accepted shares with lo < minute <= hi. */
  ghost function DiffSum(log: seq<Event>, lo: int, hi: int): real {
    if log == [] then 0.0
    else
      var e := log[|log| - 1];
      DiffSum(log[..|log| - 1], lo, hi) + if e.kind == Accepted && lo < e.minute <= hi then e.diff else 0.0
  }

  ghost function At(log: seq<Event>, kind: Kind, key: int): nat { Count(log, kind, key - 1, key) }
  ghost function DiffAt(log: seq<Event>, key: int): real { DiffSum(log, key - 1, key) }

  lemma {:induction false} CountSplits(log: seq<Event>, kind: Kind, lo: int, mid: int, hi: int)
    requires lo <= mid <= hi
    ensures Count(log, kind, lo, hi) == Count(log, kind, lo, mid) + Count(log, kind, mid, hi)
    ensures DiffSum(log, lo, hi) == DiffSum(log, lo, mid) + DiffSum(log, mid, hi)
  {
    if log == [] {
    } else {
      CountSplits(log[..|log| - 1], kind, lo, mid, hi);
    }
  }

  lemma {:induction false} EmptyRange(log: seq<Event>, kind: Kind, at: int)
    ensures Count(log, kind, at, at) == 0 && DiffSum(log, at, at) == 0.0
  {
    if log == [] {
    } else {
      EmptyRange(log[..|log| - 1], kind, at);
    }
  }

  lemma {:induction false} NoShareNoDiff(log: seq<Event>, key: int)
    requires At(log, Accepted, key) == 0
    ensures DiffAt(log, key) == 0.0
  {
    if log == [] {
    } else {
      NoShareNoDiff(log[..|log| - 1], key);
    }
  }

  ghost predicate NonDecreasing(log: seq<Event>) {
    forall i, j :: 0 <= i < j < |log| ==> log[i].minute <= log[j].minute
  }

  lemma {:induction false} NothingLater(log: seq<Event>, kind: Kind, key: int)
    requires forall i :: 0 <= i < |log| ==> log[i].minute < key
    ensures At(log, kind, key) == 0
  {
    if log == [] {
    } else {
      NothingLater(log[..|log| - 1], kind, key);
    }
  }

  // ---------- The maps ----------

  /** The map holds exactly the counts of the retained minutes. */
  ghost predicate Mirrors(m: map<nat, int>, log: seq<Event>, kind: Kind) {
    && (forall key :: key in m ==> log != [] && log[|log| - 1].minute - RETAINED <= key <= log[|log| - 1].minute)
    && (forall key :: key in m ==> m[key] == At(log, kind, key) > 0)
    && (log != [] ==> forall key :: log[|log| - 1].minute - RETAINED <= key && At(log, kind, key) > 0 ==> key in m)
  }

  ghost predicate MirrorsDiff(m: map<nat, real>, log: seq<Event>, shares: map<nat, int>) {
    m.Keys == shares.Keys && forall key :: key in m ==> m[key] == DiffAt(log, key)
  }

  ghost function Pruned<V>(m: map<nat, V>, cutoff: int): map<nat, V> {
    map k | k in m && k >= cutoff :: m[k]
  }

  method Prune<V>(m: map<nat, V>, cutoff: int) returns (r: map<nat, V>)
    ensures r == Pruned(m, cutoff)
  {
    r := m;
    var left := m.Keys;
    while left != {}
      invariant left <= m.Keys
      invariant r == map k | k in m && (k >= cutoff || k in left) :: m[k]
    {
      var k: nat :| k in left;
      left := left - {k};
      if k < cutoff {
        r := r - {k};
      }
    }
  }

  function Bumped(m: map<nat, int>, key: nat): map<nat, int> {
    m[key := 1 + if key in m then m[key] else 0]
  }

  lemma AtGrows(log: seq<Event>, e: Event, kind: Kind, key: int)
    ensures At(log + [e], kind, key) == At(log, kind, key) + if e.kind == kind && e.minute == key then 1 else 0
    ensures log == [] ==> At(log, kind, key) == 0
  {
    assert (log + [e])[..|log|] == log;
  }

  lemma BumpMirrors(m: map<nat, int>, log: seq<Event>, e: Event)
    requires Mirrors(m, log, e.kind) && NonDecreasing(log + [e])
    ensures Mirrors(Pruned(Bumped(m, e.minute), e.minute - RETAINED), log + [e], e.kind)
  {
    var log' := log + [e];
    assert log != [] ==> log'[|log| - 1].minute <= log'[|log|].minute;
    hide At;
    forall key
      ensures At(log', e.kind, key) == At(log, e.kind, key) + if e.minute == key then 1 else 0
      ensures log == [] ==> At(log, e.kind, key) == 0
    {
      AtGrows(log, e, e.kind, key);
    }
  }

  lemma OthersMirror(m: map<nat, int>, log: seq<Event>, e: Event, kind: Kind)
    requires Mirrors(m, log, kind) && NonDecreasing(log + [e]) && kind != e.kind
    ensures Mirrors(Pruned(m, e.minute - RETAINED), log + [e], kind)
  {
    var log' := log + [e];
    assert log != [] ==> log'[|log| - 1].minute <= log'[|log|].minute;
    hide At;
    forall key
      ensures At(log', kind, key) == At(log, kind, key) && (log == [] ==> At(log, kind, key) == 0)
    {
      AtGrows(log, e, kind, key);
    }
  }

  lemma BumpMirrorsDiff(d: map<nat, real>, shares: map<nat, int>, log: seq<Event>, e: Event)
    requires e.kind == Accepted && Mirrors(shares, log, Accepted) && MirrorsDiff(d, log, shares) && NonDecreasing(log + [e])
    ensures var cutoff := e.minute - RETAINED;
            var added := d[e.minute := e.diff + if e.minute in d then d[e.minute] else 0.0];
            MirrorsDiff(Pruned(added, cutoff), log + [e], Pruned(Bumped(shares, e.minute), cutoff))
  {
    var log' := log + [e];
    assert log'[..|log|] == log;
    assert log != [] ==> log'[|log| - 1].minute <= log'[|log|].minute;
    if e.minute !in shares {
      if log == [] {
        NothingLater(log, Accepted, e.minute);
      }
      assert At(log, Accepted, e.minute) == 0;
      NoShareNoDiff(log, e.minute);
    }
  }

  lemma OthersMirrorDiff(d: map<nat, real>, shares: map<nat, int>, log: seq<Event>, e: Event)
    requires e.kind != Accepted && MirrorsDiff(d, log, shares)
    ensures var cutoff := e.minute - RETAINED;
            MirrorsDiff(Pruned(d, cutoff), log + [e], Pruned(shares, cutoff))
  {
    assert (log + [e])[..|log|] == log;
  }

  /** An interval of n integers has n members. */
  lemma {:induction false} IntervalSize(lo: int, n: nat, keys: set<nat>)
    requires forall k :: k in keys ==> lo <= k < lo + n
    ensures |keys| <= n
  {
    if n == 0 {
      assert keys == {};
    } else {
      var last := lo + n - 1;
      assert |keys - {last}| >= |keys| - 1 by {
        assert last !in keys ==> keys - {last} == keys;
      }
      IntervalSize(lo, n - 1, keys - {last});
    }
  }

  /** The rolling counters in the source's `WorkStats`. */
  class RollingStats {
    var rollingShares: map<nat, int>
    var rollingSharesDiff: map<nat, real>
    var rollingStaleShares: map<nat, int>
    var rollingInvalidShares: map<nat, int>
    ghost var log: seq<Event>

    ghost predicate Valid()
      reads this
    {
      && NonDecreasing(log)
      && Mirrors(rollingShares, log, Accepted)
      && Mirrors(rollingStaleShares, log, Stale)
      && Mirrors(rollingInvalidShares, log, Invalid)
      && MirrorsDiff(rollingSharesDiff, log, rollingShares)
    }

    /** The clock has not gone back behind the last event. */
    ghost predicate Current(minuteKey: nat)
      reads this
    {
      log != [] ==> log[|log| - 1].minute <= minuteKey
    }

    constructor ()
      ensures Valid() && log == []
    {
      rollingShares, rollingSharesDiff, rollingStaleShares, rollingInvalidShares := map[], map[], map[], map[];
      log := [];
    }

    method UpdateRollingCounters(minuteKey: nat, shareDiff: real, isStale: bool, isInvalid: bool)
      requires Valid() && Current(minuteKey)
      modifies this
      ensures Valid()
      ensures log == old(log) + [Event(minuteKey, if isStale then Stale else if isInvalid then Invalid else Accepted, shareDiff)]
      ensures |rollingShares| <= RETAINED + 1 && |rollingSharesDiff| <= RETAINED + 1
      ensures |rollingStaleShares| <= RETAINED + 1 && |rollingInvalidShares| <= RETAINED + 1
    {
      hide *;
      ghost var e := Event(minuteKey, if isStale then Stale else if isInvalid then Invalid else Accepted, shareDiff);
      LogStaysOrdered(log, e) by { LastIsCurrent(minuteKey); }
      Unpack();
      ghost var m1, m2, m3, m4 := rollingShares, rollingStaleShares, rollingInvalidShares, rollingSharesDiff;
      if !isStale && !isInvalid {
        BumpMirrors(rollingShares, log, e);
        BumpMirrorsDiff(rollingSharesDiff, rollingShares, log, e);
        rollingShares := Bumped(rollingShares, minuteKey);
        rollingSharesDiff := rollingSharesDiff[minuteKey := shareDiff + if minuteKey in rollingSharesDiff then rollingSharesDiff[minuteKey] else 0.0];
      } else if isStale {
        BumpMirrors(rollingStaleShares, log, e);
        rollingStaleShares := Bumped(rollingStaleShares, minuteKey);
      } else {
        BumpMirrors(rollingInvalidShares, log, e);
        rollingInvalidShares := Bumped(rollingInvalidShares, minuteKey);
      }
      if e.kind != Accepted {
        OthersMirror(m1, log, e, Accepted);
        OthersMirrorDiff(m4, m1, log, e);
      }
      if e.kind != Stale {
        OthersMirror(m2, log, e, Stale);
      }
      if e.kind != Invalid {
        OthersMirror(m3, log, e, Invalid);
      }
      var cutoff := minuteKey - RETAINED;
      rollingShares := Prune(rollingShares, cutoff);
      rollingSharesDiff := Prune(rollingSharesDiff, cutoff);
      rollingStaleShares := Prune(rollingStaleShares, cutoff);
      rollingInvalidShares := Prune(rollingInvalidShares, cutoff);
      log := log + [e];
      Pack();
      FewKeys(rollingShares, log, Accepted);
      FewKeys(rollingStaleShares, log, Stale);
      FewKeys(rollingInvalidShares, log, Invalid);
      SameKeys(rollingSharesDiff, log, rollingShares);
    }

    lemma LastIsCurrent(minuteKey: nat)
      requires Current(minuteKey) && Valid()
      ensures NonDecreasing(log) && (log != [] ==> log[|log| - 1].minute <= minuteKey)
    {
    }

    lemma Unpack()
      requires Valid()
      ensures Mirrors(rollingShares, log, Accepted) && Mirrors(rollingStaleShares, log, Stale)
      ensures Mirrors(rollingInvalidShares, log, Invalid) && MirrorsDiff(rollingSharesDiff, log, rollingShares)
    {
    }

    lemma Pack()
      requires NonDecreasing(log) && Mirrors(rollingShares, log, Accepted) && Mirrors(rollingStaleShares, log, Stale)
      requires Mirrors(rollingInvalidShares, log, Invalid) && MirrorsDiff(rollingSharesDiff, log, rollingShares)
      ensures Valid()
    {
    }

    /** The pruned maps answer as the full log would, over the last 1440 minutes. */
    method GetRollingShares(minuteKey: nat) returns (valid: int, stale: int, invalid: int)
      requires Valid() && Current(minuteKey)
      ensures valid == Count(log, Accepted, minuteKey - 1440, minuteKey)
      ensures stale == Count(log, Stale, minuteKey - 1440, minuteKey)
      ensures invalid == Count(log, Invalid, minuteKey - 1440, minuteKey)
    {
      hide Count;
      valid, stale, invalid := 0, 0, 0;
      EmptyRange(log, Accepted, minuteKey);
      EmptyRange(log, Stale, minuteKey);
      EmptyRange(log, Invalid, minuteKey);
      for i := 0 to 1440
        invariant valid == Count(log, Accepted, minuteKey - i, minuteKey)
        invariant stale == Count(log, Stale, minuteKey - i, minuteKey)
        invariant invalid == Count(log, Invalid, minuteKey - i, minuteKey)
      {
        var key := minuteKey - i;
        KeyAnswers(rollingShares, log, Accepted, key, minuteKey);
        KeyAnswers(rollingStaleShares, log, Stale, key, minuteKey);
        KeyAnswers(rollingInvalidShares, log, Invalid, key, minuteKey);
        if key in rollingShares {
          valid := valid + rollingShares[key];
        }
        if key in rollingStaleShares {
          stale := stale + rollingStaleShares[key];
        }
        if key in rollingInvalidShares {
          invalid := invalid + rollingInvalidShares[key];
        }
      }
    }

    /** The loop shared by the one-hour and the 24-hour averages. */
    method SumDiff(minuteKey: nat, minutes: nat) returns (totalDiff: real)
      requires Valid() && Current(minuteKey) && minutes <= 1440
      ensures totalDiff == DiffSum(log, minuteKey - minutes, minuteKey)
    {
      hide Count;
      hide DiffSum;
      totalDiff := 0.0;
      EmptyRange(log, Accepted, minuteKey);
      for i := 0 to minutes
        invariant totalDiff == DiffSum(log, minuteKey - i, minuteKey)
      {
        var key := minuteKey - i;
        KeyAnswers(rollingShares, log, Accepted, key, minuteKey);
        if key in rollingSharesDiff {
          totalDiff := totalDiff + rollingSharesDiff[key];
        } else {
          NoShareNoDiff(log, key);
        }
      }
    }

    method GetOneHourAverageHashrateGHs(minuteKey: nat) returns (rate: real)
      requires Valid() && Current(minuteKey)
      ensures rate == DiffSum(log, minuteKey - 60, minuteKey) / 3600.0
    {
      var totalDiff := SumDiff(minuteKey, 60);
      rate := totalDiff / 3600.0;
    }

    method GetRollingAverageHashrateGHs(minuteKey: nat) returns (rate: real)
      requires Valid() && Current(minuteKey)
      ensures rate == DiffSum(log, minuteKey - 1440, minuteKey) / 86400.0
    {
      var totalDiff := SumDiff(minuteKey, 1440);
      if totalDiff == 0.0 {
        return 0.0;
      }
      rate := totalDiff / 86400.0;
    }
  }

  lemma LogStaysOrdered(log: seq<Event>, e: Event)
    requires NonDecreasing(log) && (log != [] ==> log[|log| - 1].minute <= e.minute)
    ensures NonDecreasing(log + [e])
  {
    forall i, j | 0 <= i < j < |log + [e]|
      ensures (log + [e])[i].minute <= (log + [e])[j].minute
    {
      assert i < |log| - 1 ==> log[i].minute <= log[|log| - 1].minute;
    }
  }

  /** A retained key answers with its count, an absent one stands for zero; one more minute. */
  lemma KeyAnswers(m: map<nat, int>, log: seq<Event>, kind: Kind, key: int, now: int)
    requires Mirrors(m, log, kind) && now - RETAINED < key <= now
    requires log != [] ==> log[|log| - 1].minute <= now
    ensures (if key in m then m[key] else 0) == At(log, kind, key)
    ensures Count(log, kind, key - 1, now) == Count(log, kind, key, now) + At(log, kind, key)
    ensures DiffSum(log, key - 1, now) == DiffSum(log, key, now) + DiffAt(log, key)
  {
    CountSplits(log, kind, key - 1, key, now);
    if log == [] {
      NothingLater(log, kind, key);
    }
  }

  lemma FewKeys(m: map<nat, int>, log: seq<Event>, kind: Kind)
    requires Mirrors(m, log, kind)
    ensures |m| <= RETAINED + 1
  {
    if log != [] {
      IntervalSize(log[|log| - 1].minute - RETAINED, RETAINED + 1, m.Keys);
    } else {
      assert m.Keys == {};
    }
  }

  lemma SameKeys(d: map<nat, real>, log: seq<Event>, shares: map<nat, int>)
    requires MirrorsDiff(d, log, shares)
    ensures |d| == |shares|
  {
    assert |d| == |d.Keys| && |shares| == |shares.Keys|;
  }
}
