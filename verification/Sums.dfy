/** Totals of integer-valued finite maps: the SQL SUM over a group of rows, and the sums over
    worker records. */
module Sums {

  ghost function Total<K>(m: map<K, int>): int
    decreases |m|
  {
    if m == map[] then 0
    else
      var k :| k in m;
      assert |m.Keys - {k}| < |m.Keys|;
      assert (m - {k}).Keys == m.Keys - {k};
      m[k] + Total(m - {k})
  }

  /** Any entry can be taken out first. */
  lemma {:induction false} TotalSplit<K>(m: map<K, int>, k: K)
    requires k in m
    ensures Total(m) == m[k] + Total(m - {k})
    decreases |m|
  {
    var first :| first in m && Total(m) == m[first] + Total(m - {first});
    if first != k {
      var m1, m2 := m - {first}, m - {k};
      assert m1.Keys == m.Keys - {first} && m2.Keys == m.Keys - {k};
      assert |m1| < |m| && |m2| < |m|;
      TotalSplit(m1, k);
      TotalSplit(m2, first);
      assert m1 - {k} == m2 - {first};
    }
  }

  lemma TotalUpdate<K>(m: map<K, int>, k: K, v: int)
    ensures Total(m[k := v]) == Total(m) + v - if k in m then m[k] else 0
  {
    TotalSplit(m[k := v], k);
    if k in m {
      TotalSplit(m, k);
      assert m[k := v] - {k} == m - {k};
    } else {
      assert m[k := v] - {k} == m;
    }
  }

  lemma {:induction false} TotalAtMost<K>(m: map<K, int>, bound: map<K, int>)
    requires m.Keys == bound.Keys
    requires forall k :: k in m ==> m[k] <= bound[k]
    ensures Total(m) <= Total(bound)
    decreases |m|
  {
    if m == map[] {
    } else {
      var k :| k in m;
      TotalSplit(m, k);
      TotalSplit(bound, k);
      assert (m - {k}).Keys == m.Keys - {k};
      TotalAtMost(m - {k}, bound - {k});
    }
  }

  /** Entries of value zero may be dropped, and nothing else may. */
  lemma {:induction false} TotalOfPart<K>(m: map<K, int>, part: map<K, int>)
    requires part.Keys <= m.Keys
    requires forall k :: k in part ==> part[k] == m[k]
    requires forall k :: k in m ==> m[k] >= 0
    ensures Total(part) <= Total(m)
    ensures Total(part) == Total(m) <==> forall k :: k in m && k !in part ==> m[k] == 0
    decreases |m|
  {
    if m.Keys == part.Keys {
      assert m == part;
    } else {
      var k :| k in m && k !in part;
      TotalSplit(m, k);
      assert (m - {k}).Keys == m.Keys - {k};
      TotalOfPart(m - {k}, part);
      assert forall i :: i in m && i !in part <==> i == k || (i in m - {k} && i !in part);
    }
  }

  /** Renaming the keys one to one keeps the total. */
  lemma {:induction false} TotalRenamed<K, L>(m: map<K, int>, name: map<K, L>, m': map<L, int>)
    requires m.Keys == name.Keys
    requires forall i, j :: i in name && j in name && name[i] == name[j] ==> i == j
    requires forall k :: k in m ==> name[k] in m' && m'[name[k]] == m[k]
    requires forall l :: l in m' ==> exists k :: k in name && name[k] == l
    ensures Total(m) == Total(m')
    decreases |m|
  {
    if m == map[] {
      assert m' == map[];
    } else {
      var k :| k in m;
      TotalSplit(m, k);
      TotalSplit(m', name[k]);
      assert (m - {k}).Keys == m.Keys - {k};
      forall l | l in m' - {name[k]}
        ensures exists i :: i in name - {k} && (name - {k})[i] == l
      {
        var i :| i in name && name[i] == l;
        assert i in name - {k};
      }
      TotalRenamed(m - {k}, name - {k}, m' - {name[k]});
    }
  }
}
