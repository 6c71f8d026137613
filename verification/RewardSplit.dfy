/** Splitting a coinbase payment over the mined blue blocks, after `processPayingBlock`,
    `findMinedBluesFromMergeSet` and `coinbaseSumToAddress` in src/htnstratum/miner_rewards.go.
    Address and worker normalisation are parameters. */
module RewardSplit {
  import opened Basics

  const U64 := 0x1_0000_0000_0000_0000

  // ---------- The coinbase sum ----------

  /** An output pointer, nil or without verbose data when `Absent`. */
  datatype Output = Absent | Output(address: string, amount: nat)

  ghost function PaidTo(outputs: seq<Output>, target: string, key: string -> string): nat {
    if outputs == [] then 0
    else
      var o := outputs[|outputs| - 1];
      PaidTo(outputs[..|outputs| - 1], target, key) + if o.Output? && key(o.address) == target then o.amount else 0
  }

  /** The payment is what the single outputs pay, each by itself. */
  lemma {:induction false} PaidToConcat(a: seq<Output>, b: seq<Output>, target: string, key: string -> string)
    ensures PaidTo(a + b, target, key) == PaidTo(a, target, key) + PaidTo(b, target, key)
  {
    if b == [] {
      assert a + b == a;
    } else {
      assert (a + b)[..|a + b| - 1] == a + b[..|b| - 1];
      PaidToConcat(a, b[..|b| - 1], target, key);
    }
  }

  lemma PaidToOne(o: Output, target: string, key: string -> string)
    ensures PaidTo([o], target, key) == if o.Output? && key(o.address) == target then o.amount else 0
  {
    assert [o][..0] == [];
  }

  /** The uint64 sum is the payment modulo 2^64, so it is exact whenever the payment fits. */
  method CoinbaseSumToAddress(outputs: seq<Output>, target: string, key: string -> string) returns (matched: bool, sum: nat)
    ensures matched <==> exists i :: 0 <= i < |outputs| && outputs[i].Output? && key(outputs[i].address) == target
    ensures sum == PaidTo(outputs, target, key) % U64
    ensures PaidTo(outputs, target, key) < U64 ==> sum == PaidTo(outputs, target, key)
    ensures !matched ==> sum == 0
  {
    matched, sum := false, 0;
    for i := 0 to |outputs|
      invariant matched <==> exists k :: 0 <= k < i && outputs[k].Output? && key(outputs[k].address) == target
      invariant sum == PaidTo(outputs[..i], target, key) % U64
      invariant !matched ==> sum == 0
    {
      assert outputs[..i + 1][..i] == outputs[..i];
      var o := outputs[i];
      if o.Output? && key(o.address) == target {
        sum := (sum + o.amount) % U64;
        matched := true;
      }
    }
    assert outputs[..|outputs|] == outputs;
  }

  // ---------- The mined blue blocks, in hash order ----------

  datatype MinedBlue = MinedBlue(hash: Hash, worker: string)

  /** The bytewise order of Go strings. */
  predicate Leq(a: string, b: string) {
    a == "" || (b != "" && (a[0] < b[0] || (a[0] == b[0] && Leq(a[1..], b[1..]))))
  }

  lemma {:induction false} LeqTotal(a: string, b: string)
    ensures Leq(a, b) || Leq(b, a)
  {
    if a == "" || b == "" || a[0] != b[0] {
    } else {
      LeqTotal(a[1..], b[1..]);
    }
  }

  lemma {:induction false} LeqAntisymmetric(a: string, b: string)
    requires Leq(a, b) && Leq(b, a)
    ensures a == b
  {
    if a == "" {
    } else {
      LeqAntisymmetric(a[1..], b[1..]);
      assert a == [a[0]] + a[1..] && b == [b[0]] + b[1..];
    }
  }

  lemma {:induction false} LeqTransitive(a: string, b: string, c: string)
    requires Leq(a, b) && Leq(b, c)
    ensures Leq(a, c)
  {
    if a == "" || a[0] != b[0] || b[0] != c[0] {
    } else {
      LeqTransitive(a[1..], b[1..], c[1..]);
    }
  }

  /** The order of Go strings: a prefix comes first, and otherwise the first difference decides. */
  lemma {:induction false} LeqExactly(a: string, b: string)
    ensures Leq(a, b) <==> a <= b || exists i :: 0 <= i < |a| && i < |b| && a[..i] == b[..i] && a[i] < b[i]
  {
    if a == "" {
    } else if b == "" {
    } else if a[0] != b[0] {
      assert a[..0] == b[..0];
    } else {
      LeqExactly(a[1..], b[1..]);
      if i :| 0 <= i < |a| && i < |b| && a[..i] == b[..i] && a[i] < b[i] {
        assert a[1..][..i - 1] == a[..i][1..] && b[1..][..i - 1] == b[..i][1..];
        assert a[1..][i - 1] < b[1..][i - 1];
      }
      if i :| 0 <= i < |a[1..]| && i < |b[1..]| && a[1..][..i] == b[1..][..i] && a[1..][i] < b[1..][i] {
        assert a[..i + 1] == [a[0]] + a[1..][..i] && b[..i + 1] == [b[0]] + b[1..][..i];
        assert a[i + 1] < b[i + 1];
      }
      assert a <= b <==> a[1..] <= b[1..];
    }
  }

  ghost predicate InHashOrder(s: seq<MinedBlue>) {
    forall i, j :: 0 <= i < j < |s| ==> Leq(s[i].hash, s[j].hash)
  }

  function Insert(x: MinedBlue, s: seq<MinedBlue>): seq<MinedBlue> {
    if s == [] then [x]
    else if Leq(x.hash, s[0].hash) then [x] + s
    else [s[0]] + Insert(x, s[1..])
  }

  /** `sort.Slice` by hash. */
  function SortByHash(s: seq<MinedBlue>): seq<MinedBlue> {
    if s == [] then [] else Insert(s[0], SortByHash(s[1..]))
  }

  lemma {:induction false} InsertContents(x: MinedBlue, s: seq<MinedBlue>)
    ensures multiset(Insert(x, s)) == multiset{x} + multiset(s)
  {
    if s == [] || Leq(x.hash, s[0].hash) {
    } else {
      InsertContents(x, s[1..]);
      assert s == [s[0]] + s[1..];
    }
  }

  lemma {:induction false} InsertKeepsOrder(x: MinedBlue, s: seq<MinedBlue>)
    requires InHashOrder(s)
    ensures InHashOrder(Insert(x, s))
  {
    if s == [] {
    } else if Leq(x.hash, s[0].hash) {
      forall j | 0 <= j < |s|
        ensures Leq(x.hash, s[j].hash)
      {
        if j > 0 {
          LeqTransitive(x.hash, s[0].hash, s[j].hash);
        }
      }
    } else {
      LeqTotal(x.hash, s[0].hash);
      InsertKeepsOrder(x, s[1..]);
      var rest := Insert(x, s[1..]);
      forall j | 0 <= j < |rest|
        ensures Leq(s[0].hash, rest[j].hash)
      {
        InsertContents(x, s[1..]);
        assert rest[j] in multiset(rest);
        assert rest[j] == x || rest[j] in s[1..];
      }
    }
  }

  lemma {:induction false} SortByHashSorts(s: seq<MinedBlue>)
    ensures InHashOrder(SortByHash(s)) && multiset(SortByHash(s)) == multiset(s)
  {
    if s == [] {
    } else {
      SortByHashSorts(s[1..]);
      InsertKeepsOrder(s[0], SortByHash(s[1..]));
      InsertContents(s[0], SortByHash(s[1..]));
      assert s == [s[0]] + s[1..];
    }
  }

  /** Blocks with equal hashes are equal: the worker is looked up by hash. */
  ghost predicate HashDetermines(s: seq<MinedBlue>) {
    forall i, j :: 0 <= i < |s| && 0 <= j < |s| && s[i].hash == s[j].hash ==> s[i] == s[j]
  }

  lemma SameMembers(s: seq<MinedBlue>, t: seq<MinedBlue>, i: nat)
    requires multiset(s) == multiset(t) && i < |s|
    ensures exists j :: 0 <= j < |t| && t[j] == s[i]
  {
    assert s[i] in multiset(s);
    assert s[i] in multiset(t);
  }

  lemma SameLength(s: seq<MinedBlue>, t: seq<MinedBlue>)
    requires multiset(s) == multiset(t)
    ensures |s| == |t|
  {
    assert |multiset(s)| == |s| && |multiset(t)| == |t|;
  }

  lemma FirstIsLeast(s: seq<MinedBlue>, t: seq<MinedBlue>)
    requires s != [] && t != [] && InHashOrder(t) && multiset(s) == multiset(t)
    ensures Leq(t[0].hash, s[0].hash)
  {
    SameMembers(s, t, 0);
    var j :| 0 <= j < |t| && t[j] == s[0];
    LeqReflexive(t[0].hash);
  }

  lemma SameFirst(s: seq<MinedBlue>, t: seq<MinedBlue>)
    requires s != [] && t != []
    requires InHashOrder(s) && InHashOrder(t) && multiset(s) == multiset(t) && HashDetermines(s)
    ensures s[0] == t[0]
  {
    FirstIsLeast(s, t);
    FirstIsLeast(t, s);
    LeqAntisymmetric(s[0].hash, t[0].hash);
    SameMembers(t, s, 0);
  }

  lemma RestOfMultiset(s: seq<MinedBlue>)
    requires s != []
    ensures multiset(s[1..]) == multiset(s) - multiset{s[0]}
  {
    assert s == [s[0]] + s[1..];
  }

  /** Only one list in hash order has given contents, so the sorting algorithm does not matter. */
  lemma {:induction false} OrderIsUnique(s: seq<MinedBlue>, t: seq<MinedBlue>)
    requires InHashOrder(s) && InHashOrder(t) && multiset(s) == multiset(t) && HashDetermines(s)
    ensures s == t
  {
    hide Leq;
    SameLength(s, t);
    if s == [] {
    } else {
      SameFirst(s, t);
      RestOfMultiset(s);
      RestOfMultiset(t);
      OrderIsUnique(s[1..], t[1..]);
      assert s == [s[0]] + s[1..] && t == [t[0]] + t[1..];
    }
  }

  lemma {:induction false} LeqReflexive(a: string)
    ensures Leq(a, a)
  {
    if a == "" {
    } else {
      LeqReflexive(a[1..]);
    }
  }

  /** The hashes counted as ours: 64 characters long and submitted by this bridge (or, without a
      database, paying our wallet), with their worker. */
  function Ours(hashes: seq<Hash>, worker: Hash -> Option<string>): seq<MinedBlue> {
    if hashes == [] then []
    else
      var h := hashes[|hashes| - 1];
      Ours(hashes[..|hashes| - 1], worker)
      + if |h| == 64 && worker(h).Some? then [MinedBlue(h, worker(h).value)] else []
  }

  method FindMinedBlues(hashes: seq<Hash>, worker: Hash -> Option<string>) returns (out: seq<MinedBlue>)
    ensures out == SortByHash(Ours(hashes, worker))
  {
    out := [];
    for i := 0 to |hashes|
      invariant out == Ours(hashes[..i], worker)
    {
      assert hashes[..i + 1][..i] == hashes[..i];
      var h := hashes[i];
      if |h| != 64 {
        continue;
      }
      var w := worker(h);
      if w.None? {
        continue;
      }
      out := out + [MinedBlue(h, w.value)];
    }
    assert hashes[..|hashes|] == hashes;
    out := SortByHash(out);
  }

  lemma {:induction false} OursCounts(hashes: seq<Hash>, worker: Hash -> Option<string>, m: MinedBlue)
    ensures multiset(Ours(hashes, worker))[m]
         == if |m.hash| == 64 && worker(m.hash) == Some(m.worker) then multiset(hashes)[m.hash] else 0
  {
    if hashes == [] {
    } else {
      var prefix, h := hashes[..|hashes| - 1], hashes[|hashes| - 1];
      assert hashes == prefix + [h];
      OursCounts(prefix, worker, m);
    }
  }

  lemma {:induction false} OursHashDetermines(hashes: seq<Hash>, worker: Hash -> Option<string>, s: seq<MinedBlue>)
    requires multiset(s) == multiset(Ours(hashes, worker))
    ensures HashDetermines(s)
  {
    forall i | 0 <= i < |s|
      ensures worker(s[i].hash) == Some(s[i].worker)
    {
      assert s[i] in multiset(s);
      OursCounts(hashes, worker, s[i]);
    }
  }

  /** Permuting the merge set leaves the ordered list unchanged. */
  lemma {:induction false} MergeSetOrderIrrelevant(hashes: seq<Hash>, hashes': seq<Hash>, worker: Hash -> Option<string>)
    requires multiset(hashes) == multiset(hashes')
    ensures SortByHash(Ours(hashes, worker)) == SortByHash(Ours(hashes', worker))
  {
    var s, t := Ours(hashes, worker), Ours(hashes', worker);
    forall m: MinedBlue
      ensures multiset(s)[m] == multiset(t)[m]
    {
      OursCounts(hashes, worker, m);
      OursCounts(hashes', worker, m);
    }
    assert multiset(s) == multiset(t);
    SortByHashSorts(s);
    SortByHashSorts(t);
    OursHashDetermines(hashes, worker, SortByHash(s));
    OrderIsUnique(SortByHash(s), SortByHash(t));
  }

  // ---------- The split ----------

  datatype Row = Row(hash: Hash, worker: string, reward: nat, paidBy: Hash)

  ghost function RowsTotal(rows: seq<Row>): nat {
    if rows == [] then 0 else RowsTotal(rows[..|rows| - 1]) + rows[|rows| - 1].reward
  }

  /** The blocks that pass the worker filter; an empty filter passes all. */
  function Kept(mined: seq<MinedBlue>, filter: string, sanitize: string -> string): seq<MinedBlue> {
    if mined == [] then []
    else
      var last := mined[|mined| - 1];
      Kept(mined[..|mined| - 1], filter, sanitize)
      + if filter == "" || sanitize(last.worker) == sanitize(filter) then [last] else []
  }

  /** The filter keeps exactly the blocks whose worker is the wanted one, as often as they are there. */
  lemma {:induction false} KeptExactly(mined: seq<MinedBlue>, filter: string, sanitize: string -> string, m: MinedBlue)
    ensures multiset(Kept(mined, filter, sanitize))[m]
         == if filter == "" || sanitize(m.worker) == sanitize(filter) then multiset(mined)[m] else 0
  {
    if mined == [] {
    } else {
      KeptExactly(mined[..|mined| - 1], filter, sanitize, m);
      assert mined == mined[..|mined| - 1] + [mined[|mined| - 1]];
    }
  }

  lemma {:induction false} KeptAreMined(mined: seq<MinedBlue>, filter: string, sanitize: string -> string)
    ensures forall i :: 0 <= i < |Kept(mined, filter, sanitize)| ==> Kept(mined, filter, sanitize)[i] in mined
  {
    if mined == [] {
    } else {
      KeptAreMined(mined[..|mined| - 1], filter, sanitize);
    }
  }

  /** ... in their order. */
  lemma {:induction false} KeptInOrder(mined: seq<MinedBlue>, filter: string, sanitize: string -> string)
    requires InHashOrder(mined)
    ensures InHashOrder(Kept(mined, filter, sanitize))
  {
    if mined == [] {
    } else {
      var n := |mined| - 1;
      KeptInOrder(mined[..n], filter, sanitize);
      KeptAreMined(mined[..n], filter, sanitize);
      var before := Kept(mined[..n], filter, sanitize);
      forall i | 0 <= i < |before|
        ensures Leq(before[i].hash, mined[n].hash)
      {
        var j :| 0 <= j < n && mined[..n][j] == before[i];
        assert mined[j] == before[i];
      }
    }
  }

  lemma {:induction false} KeptAll(mined: seq<MinedBlue>, sanitize: string -> string)
    ensures Kept(mined, "", sanitize) == mined
  {
    if mined == [] {
    } else {
      KeptAll(mined[..|mined| - 1], sanitize);
    }
  }

  lemma {:induction false} KeptFewer(mined: seq<MinedBlue>, filter: string, sanitize: string -> string)
    ensures |Kept(mined, filter, sanitize)| <= |mined|
  {
    if mined == [] {
    } else {
      KeptFewer(mined[..|mined| - 1], filter, sanitize);
    }
  }

  /** Row i of the answer is block i of the kept ones; the first carries the remainder. */
  ghost predicate SplitRows(rows: seq<Row>, kept: seq<MinedBlue>, portion: nat, remainder: nat, payer: Hash) {
    && |rows| == |kept|
    && forall i :: 0 <= i < |rows| ==>
         rows[i] == Row(kept[i].hash, kept[i].worker, if i == 0 then portion + remainder else portion, payer)
  }

  lemma {:induction false} SplitTotal(rows: seq<Row>, kept: seq<MinedBlue>, portion: nat, remainder: nat, payer: Hash)
    requires SplitRows(rows, kept, portion, remainder, payer)
    ensures RowsTotal(rows) == if rows == [] then 0 else |rows| * portion + remainder
  {
    if rows == [] {
    } else {
      var n := |rows| - 1;
      SplitTotal(rows[..n], kept[..n], portion, remainder, payer);
      assert |rows| * portion == n * portion + portion;
    }
  }

  /** `processPayingBlock` on a chain block whose coinbase pays the address `amount`: without a
      filter the rows sum to the amount; with one they sum to k * portion + remainder and never
      exceed it; no uint64 step overflows. */
  method SplitPayment(amount: nat, hashes: seq<Hash>, worker: Hash -> Option<string>, filter: string,
                      sanitize: string -> string, payer: Hash)
    returns (rows: seq<Row>)
    requires amount < U64
    ensures RowsTotal(rows) <= amount
    ensures forall i :: 0 <= i < |rows| ==> rows[i].reward <= amount < U64
    ensures var mined := SortByHash(Ours(hashes, worker));
            var kept := Kept(mined, filter, sanitize);
            if amount == 0 || mined == [] then rows == []
            else
              && SplitRows(rows, kept, amount / |mined|, amount % |mined|, payer)
              && RowsTotal(rows) == (if rows == [] then 0 else |rows| * (amount / |mined|) + amount % |mined|)
              && (filter == "" ==> RowsTotal(rows) == amount)
  {
    if amount == 0 {
      return [];
    }
    var mined := FindMinedBlues(hashes, worker);
    if |mined| == 0 {
      return [];
    }
    hide *;
    var portion := amount / |mined|;
    var remainder := amount % |mined|;
    DivisionParts(amount, |mined|, portion, remainder);
    rows := FillRows(mined, filter, sanitize, portion, remainder, payer);
    SplitTotal(rows, Kept(mined, filter, sanitize), portion, remainder, payer);
    SplitEach(rows, Kept(mined, filter, sanitize), portion, remainder, payer);
    KeptFewer(mined, filter, sanitize);
    KeptAll(mined, sanitize);
    PartOfWhole(|rows|, |mined|, portion, remainder, amount);
  }

  /** The loop over the mined blocks. */
  method FillRows(mined: seq<MinedBlue>, filter: string, sanitize: string -> string, portion: nat, remainder: nat, payer: Hash)
    returns (rows: seq<Row>)
    requires portion + remainder < U64
    ensures SplitRows(rows, Kept(mined, filter, sanitize), portion, remainder, payer)
  {
    rows := [];
    var assignedRemainder := false;
    var want := sanitize(filter);
    for i := 0 to |mined|
      invariant assignedRemainder <==> rows != []
      invariant SplitRows(rows, Kept(mined[..i], filter, sanitize), portion, remainder, payer)
    {
      assert mined[..i + 1][..i] == mined[..i];
      var mb := mined[i];
      if filter != "" && sanitize(mb.worker) != want {
        continue;
      }
      var amt := portion;
      if !assignedRemainder {
        amt := (amt + remainder) % U64;
        assignedRemainder := true;
      }
      rows := rows + [Row(mb.hash, mb.worker, amt, payer)];
    }
    assert mined[..|mined|] == mined;
  }

  lemma SplitEach(rows: seq<Row>, kept: seq<MinedBlue>, portion: nat, remainder: nat, payer: Hash)
    requires SplitRows(rows, kept, portion, remainder, payer)
    ensures |rows| == |kept| && forall i :: 0 <= i < |rows| ==> rows[i].reward <= portion + remainder
  {
  }

  lemma DivisionParts(amount: nat, n: nat, q: nat, r: nat)
    requires n > 0 && q == amount / n && r == amount % n
    ensures amount == n * q + r && q + r <= amount
  {
    MultipleAtLeast(n, q);
  }

  lemma MultipleAtLeast(n: nat, q: nat)
    requires n > 0
    ensures q <= n * q
  {
    PartOfWhole(1, n, q, 0, n * q);
  }

  lemma PartOfWhole(k: nat, n: nat, portion: nat, remainder: nat, amount: nat)
    requires k <= n && amount == n * portion + remainder
    ensures k * portion + remainder <= amount
  {
    assert n * portion == k * portion + (n - k) * portion;
    assert (n - k) * portion >= 0;
  }

  /** The same rows for every order in which the node lists the merge set. */
  method SplitIsCanonical(amount: nat, hashes: seq<Hash>, hashes': seq<Hash>, worker: Hash -> Option<string>,
                          filter: string, sanitize: string -> string, payer: Hash)
    returns (rows: seq<Row>, rows': seq<Row>)
    requires amount < U64 && multiset(hashes) == multiset(hashes')
    ensures rows == rows'
  {
    rows := SplitPayment(amount, hashes, worker, filter, sanitize, payer);
    rows' := SplitPayment(amount, hashes', worker, filter, sanitize, payer);
    MergeSetOrderIrrelevant(hashes, hashes', worker);
  }
}
