/** Share accounting in `HandleSubmit` with `getCreateStats` and `removeStats`
    (src/htnstratum/share_handler.go): a machine in which every atomic counter increment is one
    step and any number of submits interleave, also on records already removed from the index. */
module ShareAccounting {
  import opened Basics
  import opened Sums

  datatype Counter = Found | StaleOnes | InvalidOnes | Blocks

  datatype Counters = Counters(found: nat, stale: nat, invalid: nat, blocks: nat)

  const NONE: Counters := Counters(0, 0, 0, 0)

  function Plus(c: Counters, k: Counter): Counters {
    match k
    case Found => c.(found := c.found + 1)
    case StaleOnes => c.(stale := c.stale + 1)
    case InvalidOnes => c.(invalid := c.invalid + 1)
    case Blocks => c.(blocks := c.blocks + 1)
  }

  /** The ways out of `HandleSubmit` once the worker's record is at hand. */
  datatype Outcome =
    | JobStale | Unconvertible | Duplicate | PowRefusedByNode | RefusedByNode | WeakShare | WrongPow | Accepted

  datatype Increment = OnRecord(k: Counter) | OnOverall(k: Counter)

  /** The increments of each way out, in program order. */
  function Plan(o: Outcome): seq<Increment> {
    match o
    case JobStale => [OnRecord(StaleOnes), OnOverall(StaleOnes)]
    case Unconvertible => []
    case Duplicate => [OnRecord(StaleOnes), OnOverall(StaleOnes)]
    case PowRefusedByNode => [OnRecord(StaleOnes), OnOverall(InvalidOnes)]
    case RefusedByNode => [OnRecord(InvalidOnes), OnOverall(InvalidOnes)]
    case WeakShare => [OnRecord(InvalidOnes), OnOverall(InvalidOnes)]
    case WrongPow => [OnRecord(InvalidOnes), OnOverall(InvalidOnes)]
    case Accepted => [OnRecord(Found), OnOverall(Found), OnRecord(Blocks), OnOverall(Blocks)]
  }

  datatype Client = Client(wallet: Wallet, worker: string, remote: string)

  function KeyOf(c: Client): string {
    if c.worker != "" then c.wallet + "." + c.worker else c.remote
  }

  function KeysRemoved(c: Client): set<string> {
    (if c.worker != "" then {c.wallet + "." + c.worker} else {}) + (if c.remote != "" then {c.remote} else {})
  }

  /** A submit in progress: the record it holds and what it still has to add. */
  datatype Submit = Submit(record: nat, todo: seq<Increment>)

  /** `records` holds every record ever created; `index` names those still in the stats map. */
  datatype Books = Books(index: map<string, nat>, records: map<nat, Counters>, overall: Counters,
                         submits: map<nat, Submit>, misfiled: nat)

  datatype Step =
    | Authorize(c: Client)
    | Begin(t: nat, c: Client, outcome: Outcome)
    | Increase(t: nat)
    | Disconnect(c: Client)

  const EMPTY: Books := Books(map[], map[], NONE, map[], 0)

  /** A number that no record has. */
  function Unused(records: map<nat, Counters>): (r: nat)
    ensures r !in records
  {
    UnusedExists(records.Keys, |records|);
    var r := LeastUnused(records.Keys, |records|);
    r
  }

  function LeastUnused(used: set<nat>, n: nat): nat {
    if n == 0 || n !in used then n else LeastUnused(used, n - 1)
  }

  lemma {:induction false} UnusedExists(used: set<nat>, n: nat)
    requires |used| <= n
    ensures LeastUnused(used, n) !in used
  {
    if n == 0 {
      assert used == {};
    } else if n in used {
      var rest := used - {n};
      UnusedExists(rest, n - 1);
      SameBelow(used, n, n - 1);
    }
  }

  lemma {:induction false} SameBelow(used: set<nat>, n: nat, k: nat)
    requires k < n
    ensures LeastUnused(used, k) == LeastUnused(used - {n}, k) <= k
  {
    if k == 0 {
    } else {
      SameBelow(used, n, k - 1);
    }
  }

  /** `getCreateStats`. */
  function GetCreate(s: Books, c: Client): Books {
    if KeyOf(c) in s.index then s
    else
      var r := Unused(s.records);
      s.(index := s.index[KeyOf(c) := r], records := s.records[r := NONE])
  }

  function Next(s: Books, step: Step): Books {
    match step
    case Authorize(c) => GetCreate(s, c)
    case Begin(t, c, outcome) =>
      if t in s.submits then s
      else
        var s1 := GetCreate(s, c);
        s1.(submits := s1.submits[t := Submit(s1.index[KeyOf(c)], Plan(outcome))],
            misfiled := s1.misfiled + if outcome.PowRefusedByNode? then 1 else 0)
    case Increase(t) =>
      if t !in s.submits || s.submits[t].todo == [] || s.submits[t].record !in s.records then s
      else
        var sub := s.submits[t];
        var s1 := s.(submits := s.submits[t := sub.(todo := sub.todo[1..])]);
        (match sub.todo[0]
         case OnRecord(k) => s1.(records := s1.records[sub.record := Plus(s1.records[sub.record], k)])
         case OnOverall(k) => s1.(overall := Plus(s1.overall, k)))
    case Disconnect(c) => s.(index := s.index - KeysRemoved(c))
  }

  function After(run: seq<Step>): Books {
    if run == [] then EMPTY else Next(After(run[..|run| - 1]), run[|run| - 1])
  }

  ghost predicate Quiescent(s: Books) {
    forall t :: t in s.submits ==> s.submits[t].todo == []
  }

  // ---------- Any weighting of the counters balances ----------

  type Weights = Counter -> int

  function Weigh(c: Counters, w: Weights): int {
    w(Found) * c.found + w(StaleOnes) * c.stale + w(InvalidOnes) * c.invalid + w(Blocks) * c.blocks
  }

  lemma WeighPlus(c: Counters, k: Counter, w: Weights)
    ensures Weigh(Plus(c, k), w) == Weigh(c, w) + w(k)
  {
  }

  /** What the increments will add to the overall side beyond the record side. */
  function Surplus(todo: seq<Increment>, w: Weights): int {
    if todo == [] then 0
    else (match todo[0] case OnRecord(k) => -w(k) case OnOverall(k) => w(k)) + Surplus(todo[1..], w)
  }

  lemma SurplusOfTwo(a: Increment, b: Increment, w: Weights)
    ensures Surplus([a, b], w) == Surplus([a], w) + Surplus([b], w)
  {
    assert [a, b][1..] == [b];
  }

  lemma SurplusOfFour(a: Increment, b: Increment, c: Increment, d: Increment, w: Weights)
    ensures Surplus([a, b, c, d], w) == Surplus([a, b], w) + Surplus([c, d], w)
  {
    assert [a, b, c, d][1..] == [b, c, d] && [b, c, d][1..] == [c, d] && [a, b][1..] == [b] && [b][1..] == [];
    assert Surplus([b, c, d], w) == Surplus([b], w) + Surplus([c, d], w);
  }

  /** A plan is even, except that the node's refusal of the proof of work is filed as stale with
      the worker and as invalid overall. */
  lemma PlanSurplus(o: Outcome, w: Weights)
    ensures Surplus(Plan(o), w) == if o.PowRefusedByNode? then Misfit(w) else 0
  {
    SurplusOfTwo(OnRecord(StaleOnes), OnOverall(StaleOnes), w);
    SurplusOfTwo(OnRecord(StaleOnes), OnOverall(InvalidOnes), w);
    SurplusOfTwo(OnRecord(InvalidOnes), OnOverall(InvalidOnes), w);
    SurplusOfTwo(OnRecord(Found), OnOverall(Found), w);
    SurplusOfTwo(OnRecord(Blocks), OnOverall(Blocks), w);
    SurplusOfFour(OnRecord(Found), OnOverall(Found), OnRecord(Blocks), OnOverall(Blocks), w);
  }

  /** The weight of one stale share filed as invalid. */
  function Misfit(w: Weights): int { w(InvalidOnes) - w(StaleOnes) }

  ghost function RecordWeights(s: Books, w: Weights): map<nat, int> {
    map r | r in s.records :: Weigh(s.records[r], w)
  }

  ghost function Surpluses(s: Books, w: Weights): map<nat, int> {
    map t | t in s.submits :: Surplus(s.submits[t].todo, w)
  }

  ghost predicate Balanced(s: Books, w: Weights) {
    Weigh(s.overall, w) + Total(Surpluses(s, w)) == Total(RecordWeights(s, w)) + s.misfiled * Misfit(w)
  }

  ghost predicate Wired(s: Books) {
    && (forall key :: key in s.index ==> s.index[key] in s.records)
    && (forall t :: t in s.submits ==> s.submits[t].record in s.records)
  }

  lemma WeighNone(w: Weights)
    ensures Weigh(NONE, w) == 0
  {
  }

  lemma GetCreateBalances(s: Books, c: Client, w: Weights)
    requires Wired(s) && Balanced(s, w)
    ensures Wired(GetCreate(s, c)) && Balanced(GetCreate(s, c), w)
  {
    hide Weigh, KeyOf, Unused, Misfit;
    var s' := GetCreate(s, c);
    if KeyOf(c) !in s.index {
      var r := Unused(s.records);
      WeighNone(w);
      TotalUpdate(RecordWeights(s, w), r, 0);
      assert RecordWeights(s', w) == RecordWeights(s, w)[r := 0];
      assert Surpluses(s', w) == Surpluses(s, w);
    }
  }

  lemma BeginBalances(s: Books, t: nat, c: Client, o: Outcome, w: Weights)
    requires Wired(s) && Balanced(s, w) && t !in s.submits
    ensures var s' := Next(s, Begin(t, c, o)); Wired(s') && Balanced(s', w)
  {
    hide Balanced, KeyOf, Plan, GetCreate;
    var s1 := GetCreate(s, c);
    GetCreateBalances(s, c, w);
    GetCreateIndexes(s, c);
    var sub := Submit(s1.index[KeyOf(c)], Plan(o));
    BeginAdds(s1, t, sub, o, w);
  }

  lemma GetCreateIndexes(s: Books, c: Client)
    ensures KeyOf(c) in GetCreate(s, c).index && GetCreate(s, c).submits == s.submits
  {
  }

  lemma BeginAdds(s: Books, t: nat, sub: Submit, o: Outcome, w: Weights)
    requires Wired(s) && Balanced(s, w) && t !in s.submits && sub.todo == Plan(o) && sub.record in s.records
    ensures var s' := s.(submits := s.submits[t := sub], misfiled := s.misfiled + if o.PowRefusedByNode? then 1 else 0);
            Wired(s') && Balanced(s', w)
  {
    hide Weigh, Plan, Misfit, Surplus;
    var s' := s.(submits := s.submits[t := sub], misfiled := s.misfiled + if o.PowRefusedByNode? then 1 else 0);
    PlanSurplus(o, w);
    TotalUpdate(Surpluses(s, w), t, Surplus(Plan(o), w));
    assert Surpluses(s', w) == Surpluses(s, w)[t := Surplus(Plan(o), w)];
    assert RecordWeights(s', w) == RecordWeights(s, w);
    assert (s.misfiled + 1) * Misfit(w) == s.misfiled * Misfit(w) + Misfit(w);
  }

  lemma IncreaseBalances(s: Books, t: nat, w: Weights)
    requires Wired(s) && Balanced(s, w) && t in s.submits && s.submits[t].todo != []
    ensures var s' := Next(s, Increase(t)); Wired(s') && Balanced(s', w)
  {
    hide Weigh, Misfit, Plus;
    var s', sub := Next(s, Increase(t)), s.submits[t];
    TodoShrinks(s, t, w);
    match sub.todo[0] {
    case OnRecord(k) => RecordGrows(s, sub.record, k, w);
      assert RecordWeights(s', w) == RecordWeights(s.(records := s'.records), w);
    case OnOverall(k) =>
      WeighPlus(s.overall, k, w);
      assert RecordWeights(s', w) == RecordWeights(s, w);
    }
  }

  lemma TodoShrinks(s: Books, t: nat, w: Weights)
    requires Wired(s) && t in s.submits && s.submits[t].todo != []
    ensures var todo := s.submits[t].todo;
            Total(Surpluses(Next(s, Increase(t)), w)) == Total(Surpluses(s, w)) - Surplus(todo, w) + Surplus(todo[1..], w)
  {
    hide Plus, Surplus;
    var s', rest := Next(s, Increase(t)), s.submits[t].todo[1..];
    TotalUpdate(Surpluses(s, w), t, Surplus(rest, w));
    assert Surpluses(s', w) == Surpluses(s, w)[t := Surplus(rest, w)];
  }

  lemma RecordGrows(s: Books, r: nat, k: Counter, w: Weights)
    requires r in s.records
    ensures Total(RecordWeights(s.(records := s.records[r := Plus(s.records[r], k)]), w)) == Total(RecordWeights(s, w)) + w(k)
  {
    var c := s.records[r];
    WeighPlus(c, k, w);
    hide Weigh, Plus;
    TotalUpdate(RecordWeights(s, w), r, Weigh(Plus(c, k), w));
    assert RecordWeights(s.(records := s.records[r := Plus(c, k)]), w) == RecordWeights(s, w)[r := Weigh(Plus(c, k), w)];
  }

  lemma {:induction false} RunBalances(run: seq<Step>, w: Weights)
    ensures Wired(After(run)) && Balanced(After(run), w)
  {
    if run == [] {
      assert RecordWeights(EMPTY, w) == map[] && Surpluses(EMPTY, w) == map[];
    } else {
      var s, step := After(run[..|run| - 1]), run[|run| - 1];
      RunBalances(run[..|run| - 1], w);
      match step
      case Authorize(c) => GetCreateBalances(s, c, w);
      case Begin(t, c, o) =>
        if t !in s.submits {
          BeginBalances(s, t, c, o, w);
        }
      case Increase(t) =>
        if t in s.submits && s.submits[t].todo != [] {
          IncreaseBalances(s, t, w);
        }
      case Disconnect(c) =>
        var s' := Next(s, step);
        assert RecordWeights(s', w) == RecordWeights(s, w) && Surpluses(s', w) == Surpluses(s, w);
    }
  }

  lemma {:induction false} TotalOfZeros(m: map<nat, int>)
    requires forall k :: k in m ==> m[k] == 0
    ensures Total(m) == 0
    decreases |m|
  {
    if m == map[] {
    } else {
      var k :| k in m;
      TotalSplit(m, k);
      assert (m - {k}).Keys == m.Keys - {k};
      TotalOfZeros(m - {k});
    }
  }

  /** At every quiescent point of every run and for every weighting of the counters: the overall
      record is the sum of all worker records ever created, removed ones included, up to the
      submits that the node refused for their proof of work. */
  lemma OverallIsSumOfRecords(run: seq<Step>, w: Weights)
    requires Quiescent(After(run))
    ensures var s := After(run);
            Weigh(s.overall, w) == Total(RecordWeights(s, w)) + s.misfiled * Misfit(w)
  {
    RunBalances(run, w);
    TotalOfZeros(Surpluses(After(run), w));
  }

  function SharesOnly(k: Counter): int { if k == Blocks then 0 else 1 }

  function Shares(c: Counters): int { c.found + c.stale + c.invalid }

  lemma WeighShares(c: Counters)
    ensures Weigh(c, SharesOnly) == Shares(c)
  {
  }

  ghost function ShareColumn(s: Books): map<nat, int> {
    map r | r in s.records :: Shares(s.records[r])
  }

  lemma ShareWeights(s: Books)
    ensures RecordWeights(s, SharesOnly) == ShareColumn(s)
  {
    forall r | r in s.records
      ensures RecordWeights(s, SharesOnly)[r] == ShareColumn(s)[r]
    {
      WeighShares(s.records[r]);
    }
  }

  lemma MisfitOfShares(n: nat)
    ensures n * Misfit(SharesOnly) == 0
  {
    assert Misfit(SharesOnly) == 0;
  }

  /** The promised instance: found + stale + invalid agree exactly. */
  lemma ShareTotalsAgree(run: seq<Step>)
    requires Quiescent(After(run))
    ensures Shares(After(run).overall) == Total(ShareColumn(After(run)))
  {
    var s := After(run);
    OverallIsSumOfRecords(run, SharesOnly);
    MisfitOfShares(s.misfiled);
    hide *;
    ShareWeights(s);
    WeighShares(s.overall);
  }

  function Part(c: Counters, k: Counter): int {
    match k
    case Found => c.found
    case StaleOnes => c.stale
    case InvalidOnes => c.invalid
    case Blocks => c.blocks
  }

  /** The column of one counter over all records. */
  ghost function Column(s: Books, k: Counter): map<nat, int> {
    map r | r in s.records :: Part(s.records[r], k)
  }

  function Only(k: Counter): Weights {
    (c: Counter) => if c == k then 1 else 0
  }

  lemma WeighOnly(c: Counters, k: Counter)
    ensures Weigh(c, Only(k)) == Part(c, k)
  {
  }

  lemma ColumnWeights(s: Books, k: Counter)
    ensures RecordWeights(s, Only(k)) == Column(s, k)
  {
    forall r | r in s.records
      ensures RecordWeights(s, Only(k))[r] == Column(s, k)[r]
    {
      WeighOnly(s.records[r], k);
    }
  }

  lemma OnlyMisfit(k: Counter)
    ensures Misfit(Only(k)) == if k == InvalidOnes then 1 else if k == StaleOnes then -1 else 0
  {
  }

  /** Class by class: the refused ones are missing from the overall stale count and extra in the
      overall invalid count; the other counters agree exactly. */
  lemma {:induction false} ClassesDifferByMisfiled(run: seq<Step>, k: Counter)
    requires Quiescent(After(run))
    ensures var s := After(run);
            Part(s.overall, k) == Total(Column(s, k))
              + (if k == InvalidOnes then s.misfiled else if k == StaleOnes then 0 - s.misfiled else 0)
  {
    hide *;
    var s := After(run);
    OverallIsSumOfRecords(run, Only(k));
    WeighOnly(s.overall, k);
    ColumnWeights(s, k);
    OnlyMisfit(k);
  }

  // ---------- Blocks found and shares found, record by record ----------

  /** Blocks that the record will still gain beyond shares. */
  function Lag(todo: seq<Increment>): int {
    if todo == [] then 0
    else (if todo[0] == OnRecord(Blocks) then 1 else if todo[0] == OnRecord(Found) then -1 else 0) + Lag(todo[1..])
  }

  ghost function Lags(s: Books, r: nat): map<nat, int> {
    map t | t in s.submits :: if s.submits[t].record == r then Lag(s.submits[t].todo) else 0
  }

  ghost predicate InStep(s: Books, r: nat) {
    r in s.records ==> s.records[r].found - s.records[r].blocks == Total(Lags(s, r))
  }

  lemma PlanLag(o: Outcome)
    ensures Lag(Plan(o)) == 0
  {
    var p := Plan(o);
    if o.Accepted? {
      assert p[1..] == [OnOverall(Found), OnRecord(Blocks), OnOverall(Blocks)];
      assert p[1..][1..] == [OnRecord(Blocks), OnOverall(Blocks)];
      assert p[1..][1..][1..] == [OnOverall(Blocks)];
      assert Lag([OnOverall(Blocks)]) == 0;
      assert Lag(p[1..][1..]) == 1;
    } else if p != [] {
      assert p[1..] == [p[1]];
      assert Lag([p[1]]) == 0;
    }
  }

  lemma GetCreateInStep(s: Books, c: Client, r: nat)
    requires Wired(s) && InStep(s, r)
    ensures InStep(GetCreate(s, c), r)
  {
    var s' := GetCreate(s, c);
    assert Lags(s', r) == Lags(s, r);
    if r !in s.records {
      TotalOfZeros(Lags(s, r));
    }
  }

  lemma BeginInStep(s: Books, t: nat, c: Client, o: Outcome, r: nat)
    requires Wired(s) && InStep(s, r) && t !in s.submits
    ensures InStep(Next(s, Begin(t, c, o)), r)
  {
    hide KeyOf, Plan, Unused, Lag;
    var s1, s' := GetCreate(s, c), Next(s, Begin(t, c, o));
    GetCreateInStep(s, c, r);
    PlanLag(o);
    TotalUpdate(Lags(s1, r), t, 0);
    assert Lags(s', r) == Lags(s1, r)[t := 0];
  }

  lemma {:induction false} RunInStep(run: seq<Step>, r: nat)
    ensures InStep(After(run), r)
  {
    hide KeyOf, Plan, Unused, Lag, Balanced;
    if run == [] {
    } else {
      var s, step := After(run[..|run| - 1]), run[|run| - 1];
      var s' := Next(s, step);
      RunInStep(run[..|run| - 1], r);
      RunBalances(run[..|run| - 1], SharesOnly);
      match step
      case Authorize(c) => GetCreateInStep(s, c, r);
      case Begin(t, c, o) =>
        if t !in s.submits {
          BeginInStep(s, t, c, o, r);
        }
      case Increase(t) =>
        if t in s.submits && s.submits[t].todo != [] {
          IncreaseInStep(s, t, r);
        }
      case Disconnect(c) => assert Lags(s', r) == Lags(s, r);
    }
  }

  lemma IncreaseInStep(s: Books, t: nat, r: nat)
    requires Wired(s) && InStep(s, r) && t in s.submits && s.submits[t].todo != []
    ensures InStep(Next(s, Increase(t)), r)
  {
    var s', sub := Next(s, Increase(t)), s.submits[t];
    var lag := if sub.record == r then Lag(sub.todo[1..]) else 0;
    TotalUpdate(Lags(s, r), t, lag);
    assert Lags(s', r) == Lags(s, r)[t := lag];
  }

  /** At every quiescent point, blocks found equals shares found in each record, and overall. */
  lemma {:induction false} BlocksEqualShares(run: seq<Step>, r: nat)
    requires Quiescent(After(run))
    ensures var s := After(run);
            && (r in s.records ==> s.records[r].blocks == s.records[r].found)
            && s.overall.blocks == s.overall.found
  {
    var s := After(run);
    RunInStep(run, r);
    TotalOfZeros(Lags(s, r));
    ClassesDifferByMisfiled(run, Found);
    ClassesDifferByMisfiled(run, Blocks);
    forall q | q in s.records
      ensures s.records[q].blocks == s.records[q].found
    {
      RunInStep(run, q);
      TotalOfZeros(Lags(s, q));
    }
    assert Column(s, Found) == Column(s, Blocks);
  }

  // ---------- The classification as written ----------

  datatype Staleness = Fresh | StaleShare | OtherError

  datatype NodeAnswer = Taken | DuplicateBlock | InvalidPow | OtherRefusal

  /** What `HandleSubmit` finds out about a submit: the result of the stale check, whether the block
      converts, whether the recalculated proof of work is the submitted one, whether it meets the
      network target, what the node says to it, and whether it misses the miner's own target. */
  datatype Findings = Findings(check: Staleness, converts: bool, powMatches: bool, meetsNetwork: bool, node: NodeAnswer, misses: bool)

  /** The way out that the findings lead to. */
  function OutcomeOf(f: Findings): Outcome {
    if f.check == StaleShare then JobStale
    else if f.check == OtherError || !f.converts then Unconvertible
    else if !f.powMatches then WrongPow
    else if f.meetsNetwork then
      match f.node
      case Taken => Accepted
      case DuplicateBlock => Duplicate
      case InvalidPow => PowRefusedByNode
      case OtherRefusal => RefusedByNode
    else if f.misses then WeakShare
    else Accepted
  }

  /** The submit passed every check of the bridge and its node. */
  predicate Passes(f: Findings) {
    f.check == Fresh && f.converts && f.powMatches && (if f.meetsNetwork then f.node == Taken else !f.misses)
  }

  /** Checked, converted and with the right proof of work. */
  predicate Judged(f: Findings) { f.check == Fresh && f.converts && f.powMatches }

  /** The counters with the increments on the worker's side added. */
  function OnRecordSide(c: Counters, todo: seq<Increment>): Counters
    decreases |todo|
  {
    if todo == [] then c
    else OnRecordSide(if todo[0].OnRecord? then Plus(c, todo[0].k) else c, todo[1..])
  }

  function OnOverallSide(c: Counters, todo: seq<Increment>): Counters
    decreases |todo|
  {
    if todo == [] then c
    else OnOverallSide(if todo[0].OnOverall? then Plus(c, todo[0].k) else c, todo[1..])
  }

  lemma OneEach(c: Counters, k: Counter, l: Counter)
    ensures OnRecordSide(c, [OnRecord(k), OnOverall(l)]) == Plus(c, k)
    ensures OnOverallSide(c, [OnRecord(k), OnOverall(l)]) == Plus(c, l)
  {
    var todo, last := [OnRecord(k), OnOverall(l)], [OnOverall(l)];
    assert todo[1..] == last && last[1..] == [];
    assert OnRecordSide(c, todo) == OnRecordSide(Plus(c, k), last) == OnRecordSide(Plus(c, k), []);
    assert OnOverallSide(c, todo) == OnOverallSide(c, last) == OnOverallSide(Plus(c, l), []);
  }

  lemma TwoEach(c: Counters)
    ensures OnRecordSide(c, Plan(Accepted)) == Plus(Plus(c, Found), Blocks)
    ensures OnOverallSide(c, Plan(Accepted)) == Plus(Plus(c, Found), Blocks)
  {
    var rest := [OnRecord(Blocks), OnOverall(Blocks)];
    var tail := [OnOverall(Found)] + rest;
    var todo := [OnRecord(Found)] + tail;
    assert Plan(Accepted) == todo && todo[1..] == tail && tail[1..] == rest;
    assert OnRecordSide(c, todo) == OnRecordSide(Plus(c, Found), tail) == OnRecordSide(Plus(c, Found), rest);
    assert OnOverallSide(c, todo) == OnOverallSide(c, tail) == OnOverallSide(Plus(c, Found), rest);
    OneEach(Plus(c, Found), Blocks, Blocks);
  }

  class WorkRecord {
    var sharesFound: nat
    var staleShares: nat
    var invalidShares: nat
    var blocksFound: nat

    ghost function View(): Counters
      reads this
    {
      Counters(sharesFound, staleShares, invalidShares, blocksFound)
    }

    constructor ()
      ensures View() == NONE
    {
      sharesFound, staleShares, invalidShares, blocksFound := 0, 0, 0, 0;
    }
  }

  function One(b: bool): nat { if b then 1 else 0 }

  /** The branches of `HandleSubmit` once the record is at hand.  Each counter is stated by the
      findings that raise it, and the whole is the plan that the machine carries out. */
  method CountSubmit(stats: WorkRecord, overall: WorkRecord, f: Findings)
    requires stats != overall
    modifies stats, overall
    ensures stats.sharesFound == old(stats.sharesFound) + One(Passes(f)) && stats.blocksFound == old(stats.blocksFound) + One(Passes(f))
    ensures overall.sharesFound == old(overall.sharesFound) + One(Passes(f))
    ensures overall.blocksFound == old(overall.blocksFound) + One(Passes(f))
    ensures stats.staleShares == old(stats.staleShares)
              + One(f.check == StaleShare || (Judged(f) && f.meetsNetwork && (f.node == DuplicateBlock || f.node == InvalidPow)))
    ensures overall.staleShares == old(overall.staleShares)
              + One(f.check == StaleShare || (Judged(f) && f.meetsNetwork && f.node == DuplicateBlock))
    ensures stats.invalidShares == old(stats.invalidShares)
              + One(f.check == Fresh && f.converts && !Passes(f)
                    && !(f.powMatches && f.meetsNetwork && (f.node == DuplicateBlock || f.node == InvalidPow)))
    ensures overall.invalidShares == old(overall.invalidShares)
              + One(f.check == Fresh && f.converts && !Passes(f) && !(f.powMatches && f.meetsNetwork && f.node == DuplicateBlock))
    ensures stats.View() == OnRecordSide(old(stats.View()), Plan(OutcomeOf(f)))
    ensures overall.View() == OnOverallSide(old(overall.View()), Plan(OutcomeOf(f)))
  {
    ghost var c, d := stats.View(), overall.View();
    OneEach(c, StaleOnes, StaleOnes);
    OneEach(d, StaleOnes, StaleOnes);
    OneEach(c, StaleOnes, InvalidOnes);
    OneEach(d, StaleOnes, InvalidOnes);
    OneEach(c, InvalidOnes, InvalidOnes);
    OneEach(d, InvalidOnes, InvalidOnes);
    TwoEach(c);
    TwoEach(d);
    hide OnRecordSide, OnOverallSide;
    if f.check != Fresh {
      if f.check == StaleShare {
        stats.staleShares := stats.staleShares + 1;
        overall.staleShares := overall.staleShares + 1;
      }
      NothingPlanned(c);
      NothingPlanned(d);
      return;
    }
    if !f.converts {
      NothingPlanned(c);
      NothingPlanned(d);
      return;
    }
    if f.powMatches {
      if f.meetsNetwork {
        if f.node != Taken {
          if f.node == DuplicateBlock {
            stats.staleShares := stats.staleShares + 1;
            overall.staleShares := overall.staleShares + 1;
          } else if f.node == InvalidPow {
            stats.staleShares := stats.staleShares + 1;
            overall.invalidShares := overall.invalidShares + 1;
          } else {
            stats.invalidShares := stats.invalidShares + 1;
            overall.invalidShares := overall.invalidShares + 1;
          }
          return;
        }
      } else if f.misses {
        stats.invalidShares := stats.invalidShares + 1;
        overall.invalidShares := overall.invalidShares + 1;
        return;
      }
    } else {
      stats.invalidShares := stats.invalidShares + 1;
      overall.invalidShares := overall.invalidShares + 1;
      return;
    }
    stats.sharesFound := stats.sharesFound + 1;
    overall.sharesFound := overall.sharesFound + 1;
    stats.blocksFound := stats.blocksFound + 1;
    overall.blocksFound := overall.blocksFound + 1;
  }

  lemma NothingPlanned(c: Counters)
    ensures OnRecordSide(c, []) == c && OnOverallSide(c, []) == c
  {
  }

  // ---------- Records and their keys ----------

  /** A client keeps its record: looking it up again changes nothing. */
  lemma RecordIsKept(s: Books, c: Client)
    ensures var s' := GetCreate(s, c); KeyOf(c) in s'.index && GetCreate(s', c) == s'
  {
  }

  /** After a disconnect the client's key is free, and its next submit starts a record at zero that
      no other key names; the old record stays in the books. */
  lemma DisconnectStartsAfresh(s: Books, c: Client)
    requires Wired(s) && (c.worker != "" || c.remote != "")
    ensures var gone := Next(s, Disconnect(c));
            var back := GetCreate(gone, c);
            && KeyOf(c) !in gone.index && gone.records == s.records
            && back.index[KeyOf(c)] !in s.records && back.records == s.records[back.index[KeyOf(c)] := NONE]
            && (forall key :: key in gone.index ==> key in s.index && gone.index[key] == s.index[key])
  {
  }

  /** Who shares a record: the connections of one worker of one wallet, and a nameless client with
      nobody at another address. */
  lemma RecordsByWorker(c: Client, d: Client)
    ensures c.worker != "" && d.worker != "" && c.wallet == d.wallet ==> (KeyOf(c) == KeyOf(d) <==> c.worker == d.worker)
    ensures c.worker == "" && d.worker == "" ==> (KeyOf(c) == KeyOf(d) <==> c.remote == d.remote)
  {
    if c.worker != "" && d.worker != "" && c.wallet == d.wallet && KeyOf(c) == KeyOf(d) {
      var n := |c.wallet| + 1;
      assert KeyOf(c)[n..] == c.worker && KeyOf(d)[n..] == d.worker;
    }
  }

  // ---------- A submit carried out ----------

  function Increases(s: Books, t: nat, n: nat): Books {
    if n == 0 then s else Next(Increases(s, t, n - 1), Increase(t))
  }

  /** The books after n increments of submit t. */
  ghost predicate Carried(s: Books, t: nat, n: nat, end: Books)
    requires t in s.submits && s.submits[t].record in s.records && n <= |s.submits[t].todo|
  {
    var sub := s.submits[t];
    && end.index == s.index && end.misfiled == s.misfiled
    && end.submits == s.submits[t := sub.(todo := sub.todo[n..])]
    && end.records == s.records[sub.record := OnRecordSide(s.records[sub.record], sub.todo[..n])]
    && end.overall == OnOverallSide(s.overall, sub.todo[..n])
  }

  lemma {:induction false} SidesGrow(c: Counters, todo: seq<Increment>, last: Increment)
    ensures OnRecordSide(c, todo + [last]) == if last.OnRecord? then Plus(OnRecordSide(c, todo), last.k) else OnRecordSide(c, todo)
    ensures OnOverallSide(c, todo + [last]) == if last.OnOverall? then Plus(OnOverallSide(c, todo), last.k) else OnOverallSide(c, todo)
    decreases |todo|
  {
    hide Plus;
    if todo == [] {
      assert todo + [last] == [last] && [last][1..] == [];
      assert OnRecordSide(c, [last]) == OnRecordSide(if last.OnRecord? then Plus(c, last.k) else c, []);
      assert OnOverallSide(c, [last]) == OnOverallSide(if last.OnOverall? then Plus(c, last.k) else c, []);
    } else {
      assert (todo + [last])[1..] == todo[1..] + [last];
      SidesGrow(if todo[0].OnRecord? then Plus(c, todo[0].k) else c, todo[1..], last);
      SidesGrow(if todo[0].OnOverall? then Plus(c, todo[0].k) else c, todo[1..], last);
    }
  }

  lemma CarryOn(s: Books, t: nat, n: nat, end: Books)
    requires t in s.submits && s.submits[t].record in s.records && n < |s.submits[t].todo| && Carried(s, t, n, end)
    ensures Carried(s, t, n + 1, Next(end, Increase(t)))
  {
    var sub := s.submits[t];
    assert sub.todo[n..][0] == sub.todo[n] && sub.todo[n..][1..] == sub.todo[n + 1..];
    assert sub.todo[..n + 1] == sub.todo[..n] + [sub.todo[n]];
    SidesGrow(s.records[sub.record], sub.todo[..n], sub.todo[n]);
    SidesGrow(s.overall, sub.todo[..n], sub.todo[n]);
    hide OnRecordSide, OnOverallSide, Plus;
  }

  lemma {:induction false} IncreasesCarry(s: Books, t: nat, n: nat)
    requires t in s.submits && s.submits[t].record in s.records && n <= |s.submits[t].todo|
    ensures Carried(s, t, n, Increases(s, t, n))
  {
    hide Next;
    if n == 0 {
      var sub := s.submits[t];
      assert sub.todo[0..] == sub.todo && sub.todo[..0] == [];
      NothingPlanned(s.overall);
      NothingPlanned(s.records[sub.record]);
    } else {
      IncreasesCarry(s, t, n - 1);
      CarryOn(s, t, n - 1, Increases(s, t, n - 1));
    }
  }

  /** A submit run to its end, among any other submits: its record and the overall record gain
      exactly the increments of its way out, on their own sides, and nothing else moves. */
  lemma {:induction false} SubmitIsCounted(s: Books, t: nat, c: Client, o: Outcome)
    requires Wired(s) && t !in s.submits
    ensures var begun := Next(s, Begin(t, c, o));
            var r := GetCreate(s, c).index[KeyOf(c)];
            var end := Increases(begun, t, |Plan(o)|);
            && r in begun.records && end.submits == s.submits[t := Submit(r, [])]
            && end.records == begun.records[r := OnRecordSide(begun.records[r], Plan(o))]
            && end.overall == OnOverallSide(s.overall, Plan(o))
  {
    var begun := Next(s, Begin(t, c, o));
    var plan := Plan(o);
    GetCreateIndexes(s, c);
    CreatedIsWired(s, c);
    hide Plan, OnRecordSide, OnOverallSide, KeyOf, GetCreate;
    assert plan[|plan|..] == [] && plan[..|plan|] == plan;
    IncreasesCarry(begun, t, |plan|);
  }

  lemma CreatedIsWired(s: Books, c: Client)
    requires Wired(s)
    ensures KeyOf(c) in GetCreate(s, c).index && GetCreate(s, c).index[KeyOf(c)] in GetCreate(s, c).records
    ensures GetCreate(s, c).overall == s.overall
  {
  }
}
