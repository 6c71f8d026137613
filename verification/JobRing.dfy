/** The job ring and its fee index, after src/htnstratum/mining_state.go, against the history of
    operations.  An operation is one section under the lock.  The id of an addition is whatever the
    counter gave, so all that is said of the ring holds for any ids in any order; JobIds has what
    the counter gives. */
module JobRing {
  import opened Arithmetic
  import opened Basics

  const MAX_JOBS := 32

  /** A block pointer: nil, or a block that may lack its verbose data and with it the hash. */
  datatype Job = Nil | Job(tag: nat, hash: Option<Hash>)

  function HashOf(j: Job): Option<Hash> { if j.Nil? then None else j.hash }

  /** The remainder of Go, which takes the sign of the dividend. */
  function Rem(a: int, b: int): int
    requires b > 0
  {
    if a >= 0 then a % b else -((-a) % b)
  }

  /** It leaves a multiple of b, is smaller than b, and has the sign of a. */
  lemma RemIsGo(a: int, b: int)
    requires b > 0
    ensures (a - Rem(a, b)) % b == 0 && -b < Rem(a, b) < b
    ensures (a >= 0 ==> Rem(a, b) >= 0) && (a <= 0 ==> Rem(a, b) <= 0)
  {
    if a < 0 {
      var q := (-a) / b;
      assert a - Rem(a, b) == (-q) * b;
      MultipleHasNoRemainder(-q, b);
    } else {
      assert a - Rem(a, b) == (a / b) * b;
      MultipleHasNoRemainder(a / b, b);
    }
  }

  lemma MultipleHasNoRemainder(q: int, b: int)
    requires b > 0
    ensures (q * b) % b == 0
  {
    QuotientIsUnique(q * b, b, q, 0);
  }

  datatype Ring = Ring(jobs: map<int, Job>, fees: set<Hash>)

  const EMPTY: Ring := Ring(map[], {})

  function HashAt(jobs: map<int, Job>, k: int): Option<Hash> {
    if k in jobs then HashOf(jobs[k]) else None
  }

  function Without(fees: set<Hash>, h: Option<Hash>): set<Hash> {
    if h.Some? then fees - {h.value} else fees
  }

  // ---------- The operations ----------

  datatype Op = Add(idx: nat, job: Job, fee: bool) | Remove(id: int) | Clear

  /** The slot that an operation empties first, if it names one. */
  function SlotOf(op: Op): int
    requires !op.Clear?
  {
    if op.Add? then op.idx % MAX_JOBS else Rem(op.id, MAX_JOBS)
  }

  function Next(r: Ring, op: Op): Ring {
    match op
    case Add(_, job, fee) =>
      var k := SlotOf(op);
      var fees := Without(r.fees, HashAt(r.jobs, k));
      Ring(r.jobs[k := job], if fee && HashOf(job).Some? then fees + {HashOf(job).value} else fees)
    case Remove(_) =>
      var k := SlotOf(op);
      Ring(r.jobs - {k}, Without(r.fees, HashAt(r.jobs, k)))
    case Clear => EMPTY
  }

  function After(history: seq<Op>): Ring {
    if history == [] then EMPTY else Next(After(history[..|history| - 1]), history[|history| - 1])
  }

  class MiningState {
    var jobs: map<int, Job>
    var feeJobs: set<Hash>
    var jobCounter: nat

    ghost function View(): Ring
      reads this
    {
      Ring(jobs, feeJobs)
    }

    constructor ()
      ensures View() == EMPTY && jobCounter == 0
    {
      jobs, feeJobs, jobCounter := map[], {}, 0;
    }

    /** An addition with no other in between. */
    method AddJob(job: Job, isFeeJob: bool) returns (idx: nat)
      modifies this
      ensures Rem(idx, MAX_JOBS) in jobs && jobs[Rem(idx, MAX_JOBS)] == job
      ensures View() == Next(old(View()), Add(idx, job, isFeeJob)) && idx == jobCounter == old(jobCounter) + 1
    {
      jobCounter := jobCounter + 1;
      idx := jobCounter;
      StoreJob(idx, job, isFeeJob);
    }

    /** The section under the lock, for whatever id the counter gave. */
    method StoreJob(idx: nat, job: Job, isFeeJob: bool)
      modifies this`jobs, this`feeJobs
      ensures View() == Next(old(View()), Add(idx, job, isFeeJob))
    {
      var slot := idx % MAX_JOBS;
      if slot in jobs && jobs[slot].Job? && jobs[slot].hash.Some? {
        feeJobs := feeJobs - {jobs[slot].hash.value};
      }
      jobs := jobs[slot := job];
      if job.Job? && job.hash.Some? {
        var hash := job.hash.value;
        if isFeeJob {
          feeJobs := feeJobs + {hash};
        } else if hash !in feeJobs {
          feeJobs := feeJobs - {hash};
        }
      }
    }

    method GetJob(id: int) returns (job: Job, found: bool)
      ensures found <==> Rem(id, MAX_JOBS) in jobs
      ensures job == if found then jobs[Rem(id, MAX_JOBS)] else Nil
    {
      found := Rem(id, MAX_JOBS) in jobs;
      job := if found then jobs[Rem(id, MAX_JOBS)] else Nil;
    }

    method IsFeeJob(block: Job) returns (isFee: bool)
      ensures isFee <==> HashOf(block).Some? && HashOf(block).value in feeJobs
    {
      if block.Nil? || block.hash.None? {
        return false;
      }
      isFee := block.hash.value in feeJobs;
    }

    method RemoveJob(id: int)
      modifies this
      ensures View() == Next(old(View()), Remove(id)) && jobCounter == old(jobCounter)
    {
      var slot := Rem(id, MAX_JOBS);
      if slot in jobs && jobs[slot].Job? && jobs[slot].hash.Some? {
        feeJobs := feeJobs - {jobs[slot].hash.value};
      }
      jobs := jobs - {slot};
    }

    method ClearJobs()
      modifies this
      ensures View() == Next(old(View()), Clear) && jobCounter == old(jobCounter)
    {
      jobs := map[];
      feeJobs := {};
    }
  }

  // ---------- The ring refines its history ----------

  /** The operation takes away whatever slot k held. */
  predicate Touches(op: Op, k: int) {
    op.Clear? || SlotOf(op) == k
  }

  /** Operation i is the latest addition to slot k, not removed or cleared since. */
  ghost predicate Latest(history: seq<Op>, i: nat, k: int) {
    && i < |history| && history[i].Add? && history[i].idx % MAX_JOBS == k
    && forall j :: i < j < |history| ==> !Touches(history[j], k)
  }

  /** A latest addition stays latest until an operation touches its slot. */
  lemma LatestGrows(history: seq<Op>, op: Op, i: nat, k: int)
    ensures Latest(history + [op], i, k)
       <==> if i == |history| then op.Add? && SlotOf(op) == k else Latest(history, i, k) && !Touches(op, k)
  {
    hide Touches;
    var h := history + [op];
    assert h[|history|] == op;
    assert forall j :: 0 <= j < |history| ==> h[j] == history[j];
    if i < |history| && Latest(h, i, k) {
      assert !Touches(h[|history|], k);
      forall j | i < j < |history|
        ensures !Touches(history[j], k)
      {
        assert !Touches(h[j], k);
      }
    }
  }

  /** When ids are handed out in increasing order, a job stays until it is removed, cleared, or 32
      ids old. */
  lemma RecentJobsStay(history: seq<Op>, i: nat)
    requires i < |history| && history[i].Add?
    requires forall j :: i < j < |history| && history[j].Add? ==> history[i].idx < history[j].idx < history[i].idx + MAX_JOBS
    requires forall j :: i < j < |history| && !history[j].Add? ==> !Touches(history[j], history[i].idx % MAX_JOBS)
    ensures var k := Rem(history[i].idx, MAX_JOBS);
            Latest(history, i, k) && k in After(history).jobs && After(history).jobs[k] == history[i].job
  {
    var id := history[i].idx;
    forall j | i < j < |history|
      ensures !Touches(history[j], id % MAX_JOBS)
    {
      if history[j].Add? {
        assert history[j].idx - id < MAX_JOBS;
      }
    }
    RingRefinesHistory(history, id % MAX_JOBS);
  }

  /** Slot k holds a job exactly when some addition to it is still the latest, and then that
      addition's job. */
  ghost predicate SlotRefines(history: seq<Op>, k: int) {
    && (k in After(history).jobs <==> exists i: nat :: Latest(history, i, k))
    && forall i: nat :: Latest(history, i, k) ==> k in After(history).jobs && After(history).jobs[k] == history[i].job
  }

  lemma AfterOneMore(history: seq<Op>, op: Op)
    ensures After(history + [op]) == Next(After(history), op)
  {
    assert (history + [op])[..|history|] == history;
  }

  lemma {:induction false} RingRefinesHistory(history: seq<Op>, k: int)
    ensures SlotRefines(history, k)
  {
    if history == [] {
    } else {
      var h, op := history[..|history| - 1], history[|history| - 1];
      assert h + [op] == history;
      RingRefinesHistory(h, k);
      RefinementStep(h, op, k);
    }
  }

  lemma LatestIsInside(history: seq<Op>, i: nat, k: int)
    requires Latest(history, i, k)
    ensures i < |history| && history[i].Add?
  {
  }

  lemma RefinementStep(h: seq<Op>, op: Op, k: int)
    requires SlotRefines(h, k)
    ensures SlotRefines(h + [op], k)
  {
    var history := h + [op];
    AfterOneMore(h, op);
    forall i: nat
      ensures Latest(history, i, k)
         <==> if i == |h| then op.Add? && SlotOf(op) == k else Latest(h, i, k) && !Touches(op, k)
      ensures i < |h| ==> history[i] == h[i]
    {
      LatestGrows(h, op, i, k);
    }
    hide After, Latest;
    assert op.Add? && SlotOf(op) == k ==> Latest(history, |h|, k);
    if !Touches(op, k) && exists i: nat :: Latest(h, i, k) {
      var i: nat :| Latest(h, i, k);
      LatestIsInside(h, i, k);
      assert Latest(history, i, k);
    }
    forall i: nat | Latest(history, i, k)
      ensures k in After(history).jobs && After(history).jobs[k] == history[i].job
    {
      LatestIsInside(history, i, k);
    }
  }

  // ---------- The fee index ----------

  /** Every fee hash belongs to a live job in one of the slots. */
  ghost predicate FeesLive(r: Ring) {
    forall x :: x in r.fees ==> exists k :: 0 <= k < MAX_JOBS && HashAt(r.jobs, k) == Some(x)
  }

  lemma {:induction false} FeeHashesAreLive(history: seq<Op>)
    ensures FeesLive(After(history))
  {
    if history == [] {
    } else {
      var r, op := After(history[..|history| - 1]), history[|history| - 1];
      FeeHashesAreLive(history[..|history| - 1]);
      var r' := Next(r, op);
      forall x | x in r'.fees
        ensures exists k :: 0 <= k < MAX_JOBS && HashAt(r'.jobs, k) == Some(x)
      {
        var slot := SlotOf(op);
        if op.Add? && HashOf(op.job) == Some(x) {
          assert HashAt(r'.jobs, slot) == Some(x);
        } else {
          var k :| 0 <= k < MAX_JOBS && HashAt(r.jobs, k) == Some(x);
          assert k != slot;
          assert HashAt(r'.jobs, k) == Some(x);
        }
      }
    }
  }

  lemma {:induction false} HashesFitSlots(jobs: map<int, Job>, hashes: set<Hash>, n: nat)
    requires forall x :: x in hashes ==> exists k :: 0 <= k < n && HashAt(jobs, k) == Some(x)
    ensures |hashes| <= n
  {
    if n == 0 {
      assert hashes == {};
    } else {
      var h := HashAt(jobs, n - 1);
      var rest := Without(hashes, h);
      forall x | x in rest
        ensures exists k :: 0 <= k < n - 1 && HashAt(jobs, k) == Some(x)
      {
        var k :| 0 <= k < n && HashAt(jobs, k) == Some(x);
        assert k != n - 1;
      }
      HashesFitSlots(jobs, rest, n - 1);
    }
  }

  lemma FeeIndexIsBounded(history: seq<Op>)
    ensures |After(history).fees| <= MAX_JOBS
  {
    FeeHashesAreLive(history);
    HashesFitSlots(After(history).jobs, After(history).fees, MAX_JOBS);
  }

  /** Whether the live job of each slot was added as a fee job. */
  function Marks(history: seq<Op>): map<int, bool> {
    if history == [] then map[]
    else
      var before, op := Marks(history[..|history| - 1]), history[|history| - 1];
      match op
      case Add(_, _, fee) => before[SlotOf(op) := fee]
      case Remove(_) => before - {SlotOf(op)}
      case Clear => map[]
  }

  lemma {:induction false} MarksAreFeeFlags(history: seq<Op>, i: nat, k: int)
    requires Latest(history, i, k)
    ensures k in Marks(history) && Marks(history)[k] == history[i].fee
  {
    var h, op := history[..|history| - 1], history[|history| - 1];
    assert h + [op] == history;
    LatestGrows(h, op, i, k);
    if i < |h| {
      MarksAreFeeFlags(h, i, k);
    }
  }

  /** A live fee job other than the one in slot `but` has hash x. */
  ghost predicate OtherFee(jobs: map<int, Job>, marks: map<int, bool>, but: int, x: Hash) {
    exists k :: k in marks && k != but && marks[k] && HashAt(jobs, k) == Some(x)
  }

  ghost predicate LiveFee(jobs: map<int, Job>, marks: map<int, bool>, x: Hash) {
    exists k :: k in marks && marks[k] && HashAt(jobs, k) == Some(x)
  }

  /** The index is exactly the hashes of the live fee jobs. */
  ghost predicate FeeExact(history: seq<Op>) {
    forall x :: x in After(history).fees <==> LiveFee(After(history).jobs, Marks(history), x)
  }

  /** The operation does not take the hash of another live fee job out of the index for good. */
  ghost predicate Harmless(history: seq<Op>, op: Op) {
    op.Clear? ||
    var r := After(history);
    var lost := HashAt(r.jobs, SlotOf(op));
    || lost.None?
    || !OtherFee(r.jobs, Marks(history), SlotOf(op), lost.value)
    || (op.Add? && op.fee && HashOf(op.job) == lost)
  }

  lemma MarksOneMore(history: seq<Op>, op: Op)
    ensures Marks(history + [op]) == match op
            case Add(_, _, fee) => Marks(history)[SlotOf(op) := fee]
            case Remove(_) => Marks(history) - {SlotOf(op)}
            case Clear => map[]
  {
    assert (history + [op])[..|history|] == history;
  }

  /** Which fee jobs live after one more operation. */
  lemma LiveFeeOneMore(history: seq<Op>, op: Op, x: Hash)
    requires !op.Clear?
    ensures var r := After(history);
            LiveFee(Next(r, op).jobs, Marks(history + [op]), x)
            <==> OtherFee(r.jobs, Marks(history), SlotOf(op), x) || (op.Add? && op.fee && HashOf(op.job) == Some(x))
  {
    var r := After(history);
    var slot, r', marks, marks' := SlotOf(op), Next(r, op), Marks(history), Marks(history + [op]);
    MarksOneMore(history, op);
    hide After;
    hide Marks;
    if OtherFee(r.jobs, marks, slot, x) {
      var k :| k in marks && k != slot && marks[k] && HashAt(r.jobs, k) == Some(x);
      assert k in marks' && marks'[k] && HashAt(r'.jobs, k) == Some(x);
    }
    if op.Add? && op.fee && HashOf(op.job) == Some(x) {
      assert slot in marks' && marks'[slot] && HashAt(r'.jobs, slot) == Some(x);
    }
  }

  /** Exactness survives one operation exactly when the operation is harmless. */
  lemma FeeExactStep(history: seq<Op>, op: Op)
    requires FeeExact(history)
    ensures FeeExact(history + [op]) <==> Harmless(history, op)
  {
    AfterOneMore(history, op);
    MarksOneMore(history, op);
    if !op.Clear? {
      var r := After(history);
      var slot, r', marks := SlotOf(op), Next(r, op), Marks(history);
      var lost := HashAt(r.jobs, slot);
      forall x
        ensures LiveFee(r'.jobs, Marks(history + [op]), x)
           <==> OtherFee(r.jobs, marks, slot, x) || (op.Add? && op.fee && HashOf(op.job) == Some(x))
        ensures x in r'.fees <==> (x in r.fees && lost != Some(x)) || (op.Add? && op.fee && HashOf(op.job) == Some(x))
        ensures lost != Some(x) ==> (OtherFee(r.jobs, marks, slot, x) <==> LiveFee(r.jobs, marks, x))
      {
        LiveFeeOneMore(history, op, x);
        OtherOrHere(r.jobs, marks, slot, x);
      }
    }
  }

  lemma OtherOrHere(jobs: map<int, Job>, marks: map<int, bool>, slot: int, x: Hash)
    ensures HashAt(jobs, slot) != Some(x) ==> (OtherFee(jobs, marks, slot, x) <==> LiveFee(jobs, marks, x))
  {
  }

  ghost predicate HarmlessRun(history: seq<Op>)
    decreases |history|
  {
    history != [] ==> HarmlessRun(history[..|history| - 1]) && Harmless(history[..|history| - 1], history[|history| - 1])
  }

  lemma {:induction false} HarmlessRunsAreExact(history: seq<Op>)
    requires HarmlessRun(history)
    ensures FeeExact(history)
  {
    if history == [] {
    } else {
      var h, op := history[..|history| - 1], history[|history| - 1];
      assert h + [op] == history;
      HarmlessRunsAreExact(h);
      FeeExactStep(h, op);
    }
  }

  /** Operation by operation: the index is exact throughout a run exactly when every operation of
      the run is harmless. */
  lemma {:induction false} HarmlessRunsExactly(history: seq<Op>)
    ensures HarmlessRun(history) <==> forall n :: 0 <= n <= |history| ==> FeeExact(history[..n])
  {
    hide FeeExact, Harmless;
    assert history[..|history|] == history;
    if history == [] {
      HarmlessRunsAreExact(history);
    } else {
      var last := |history| - 1;
      var h, op := history[..last], history[last];
      assert h + [op] == history;
      HarmlessRunsExactly(h);
      forall n | 0 <= n <= last
        ensures history[..n] == h[..n]
      {
      }
      if HarmlessRun(h) {
        HarmlessRunsAreExact(h);
        FeeExactStep(h, op);
      }
    }
  }

  /** No two live jobs share a hash. */
  ghost predicate DistinctHashes(jobs: map<int, Job>) {
    forall j, k :: j in jobs && k in jobs && j != k && HashAt(jobs, j).Some? ==> HashAt(jobs, j) != HashAt(jobs, k)
  }

  lemma DistinctIsHarmless(history: seq<Op>, op: Op)
    requires DistinctHashes(After(history).jobs)
    ensures Harmless(history, op)
  {
  }

  /** When live hashes are distinct throughout, the index is exactly the live fee jobs: block by
      block, `IsFeeJob` answers what `AddJob` was told. */
  lemma {:induction false} DistinctRunsAreExact(history: seq<Op>)
    requires forall n :: 0 <= n < |history| ==> DistinctHashes(After(history[..n]).jobs)
    ensures HarmlessRun(history) && FeeExact(history)
  {
    if history == [] {
    } else {
      var h, op := history[..|history| - 1], history[|history| - 1];
      forall n | 0 <= n < |h|
        ensures DistinctHashes(After(h[..n]).jobs)
      {
        assert h[..n] == history[..n];
      }
      DistinctRunsAreExact(h);
      DistinctIsHarmless(h, op);
    }
    HarmlessRunsAreExact(history);
  }

  /** A shared hash breaks it: the same block added to two slots, as a plain and as a fee job, is
      forgotten by the index when the plain one goes. */
  lemma SharedHashForgotten(job: Job)
    requires HashOf(job).Some?
    ensures var h := [Add(1, job, false), Add(2, job, true)];
            FeeExact(h) && !Harmless(h, Remove(1)) && !FeeExact(h + [Remove(1)])
  {
    var h1, h := [Add(1, job, false)], [Add(1, job, false), Add(2, job, true)];
    assert [] + [Add(1, job, false)] == h1 && h1 + [Add(2, job, true)] == h;
    AfterOneMore([], Add(1, job, false));
    AfterOneMore(h1, Add(2, job, true));
    MarksOneMore([], Add(1, job, false));
    MarksOneMore(h1, Add(2, job, true));
    assert After(h) == Ring(map[1 := job, 2 := job], {HashOf(job).value});
    assert Marks(h) == map[1 := false, 2 := true];
    assert Marks(h)[2] && HashAt(After(h).jobs, 2) == HashOf(job);
    FeeExactStep(h, Remove(1));
  }
}
