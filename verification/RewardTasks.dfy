/** The reward tasks of `fetchAndUpdateReward` (src/htnstratum/share_handler.go) over the
    `block_rewards` table, as a machine in which every database statement is one step and any
    number of tasks interleave.  Steps of absent tasks do nothing, so every sequence of steps
    is a run. */
module RewardTasks {
  import opened Basics
  import opened Sums
  import opened RewardTable

  /** What the node answers about a chain block: its merge set and its coinbase payment. */
  datatype Node = Node(blues: Hash -> set<Hash>, reds: Hash -> set<Hash>, pays: (Hash, Wallet) -> nat)

  /** Each block is merged by at most one chain block. */
  ghost predicate MergedOnce(node: Node) {
    forall a, c, b {:trigger b in node.blues(a), b in node.blues(c)} ::
      b in node.blues(a) && b in node.blues(c) ==> a == c
  }

  /** ... and it is merged either as blue or as red. */
  ghost predicate MergedOneWay(node: Node) {
    forall a, c, b {:trigger b in node.blues(a), b in node.reds(c)} ::
      b in node.blues(a) ==> b !in node.reds(c)
  }

  const MAX_ATTEMPTS := 15

  /** A task by the database statement it executes next. */
  datatype Task =
    | Asking(block: Hash, attempt: nat)
    | Walking(block: Hash, attempt: nat, wallet: Wallet, chain: seq<Hash>)
    | Linking(block: Hash, wallet: Wallet, acc: Hash)
    | Booking(block: Hash, reward: nat, status: Status)

  datatype Ledger = Ledger(rows: Table, tasks: map<nat, Task>)

  /** `answer` is the non-empty selected chain, or None when the node or the row lookup failed;
      `heard` is false when the check or the fetch of the chain block failed; `ok` is false when
      the database failed for a reason of its own. */
  datatype Step =
    | Record(t: nat, block: Hash, wallet: Wallet)
    | Rerun(t: nat, block: Hash)
    | Ask(t: nat, answer: Option<seq<Hash>>)
    | Check(t: nat, heard: bool)
    | Link(t: nat, ok: bool)
    | Book(t: nat, ok: bool)
    | Crash(t: nat)

  const EMPTY: Ledger := Ledger(map[], map[])

  /** The next attempt, or the verdict "red" when there is none left. */
  function Retry(block: Hash, attempt: nat): Task {
    if attempt + 1 < MAX_ATTEMPTS then Asking(block, attempt + 1) else Booking(block, 0, Red)
  }

  function WalkOn(block: Hash, attempt: nat, wallet: Wallet, rest: seq<Hash>): Task {
    if rest == [] then Retry(block, attempt) else Walking(block, attempt, wallet, rest)
  }

  /** The decision at one chain block, given whether the payment is already booked. */
  function Decide(node: Node, task: Task, booked: bool): Task
    requires task.Walking? && task.chain != []
  {
    var acc := task.chain[0];
    if task.block in node.blues(acc) then
      if node.pays(acc, task.wallet) == 0 then Booking(task.block, 0, Blue)
      else if booked then Booking(task.block, 0, MergeDuplicate)
      else Linking(task.block, task.wallet, acc)
    else if task.block in node.reds(acc) then Booking(task.block, 0, Red)
    else WalkOn(task.block, task.attempt, task.wallet, task.chain[1..])
  }

  function Next(node: Node, s: Ledger, step: Step): Ledger {
    match step
    case Record(t, block, wallet) =>
      if t in s.tasks then s else Ledger(Inserted(s.rows, block, wallet), s.tasks[t := Asking(block, 0)])
    case Rerun(t, block) =>
      if t in s.tasks || block !in s.rows || s.rows[block].status != Pending then s
      else s.(tasks := s.tasks[t := Asking(block, 0)])
    case Ask(t, answer) =>
      if t !in s.tasks || !s.tasks[t].Asking? then s
      else
        var task := s.tasks[t];
        s.(tasks := s.tasks[t :=
          if answer.Some? && answer.value != [] && task.block in s.rows
          then Walking(task.block, task.attempt, s.rows[task.block].wallet, answer.value)
          else Retry(task.block, task.attempt)])
    case Check(t, heard) =>
      if t !in s.tasks || !s.tasks[t].Walking? || s.tasks[t].chain == [] then s
      else
        var task := s.tasks[t];
        s.(tasks := s.tasks[t :=
          if heard then Decide(node, task, OtherLinked(s.rows, task.wallet, task.chain[0], task.block))
          else WalkOn(task.block, task.attempt, task.wallet, task.chain[1..])])
    case Link(t, ok) =>
      if t !in s.tasks || !s.tasks[t].Linking? then s
      else
        var task := s.tasks[t];
        Ledger(if ok then Linked(s.rows, task.block, task.acc) else s.rows,
               s.tasks[t := Booking(task.block, node.pays(task.acc, task.wallet), Blue)])
    case Book(t, ok) =>
      if t !in s.tasks || !s.tasks[t].Booking? then s
      else
        var task := s.tasks[t];
        Ledger(if ok then Rewarded(s.rows, task.block, task.reward, task.status) else s.rows, s.tasks - {t})
    case Crash(t) => s.(tasks := s.tasks - {t})
  }

  function After(node: Node, s: Ledger, run: seq<Step>): Ledger {
    if run == [] then s else Next(node, After(node, s, run[..|run| - 1]), run[|run| - 1])
  }

  lemma {:induction false} AfterConcat(node: Node, s: Ledger, run: seq<Step>, more: seq<Step>)
    ensures After(node, s, run + more) == After(node, After(node, s, run), more)
  {
    if more == [] {
      assert run + more == run;
    } else {
      var n := |more| - 1;
      assert (run + more)[..|run + more| - 1] == run + more[..n];
      AfterConcat(node, s, run, more[..n]);
    }
  }

  // ---------- Linked rows: every interleaving ----------

  ghost predicate PaidBy(node: Node, block: Hash, wallet: Wallet, reward: nat) {
    exists acc :: block in node.blues(acc) && reward == node.pays(acc, wallet)
  }

  ghost predicate RowSound(node: Node, block: Hash, row: Row) {
    && (row.link.Some? ==> block in node.blues(row.link.value))
    && (row.reward > 0 ==> PaidBy(node, block, row.wallet, row.reward))
  }

  ghost predicate TaskSound(node: Node, rows: Table, task: Task) {
    match task
    case Asking(b, _) => b in rows
    case Walking(b, _, w, _) => b in rows && rows[b].wallet == w
    case Linking(b, w, acc) =>
      b in rows && rows[b].wallet == w && b in node.blues(acc) && node.pays(acc, w) > 0
    case Booking(b, r, _) => b in rows && (r > 0 ==> PaidBy(node, b, rows[b].wallet, r))
  }

  ghost predicate Sound(node: Node, s: Ledger) {
    && UniqueLinks(s.rows)
    && (forall b :: b in s.rows ==> RowSound(node, b, s.rows[b]))
    && (forall t :: t in s.tasks ==> TaskSound(node, s.rows, s.tasks[t]))
  }

  /** Rows are never removed and never change their wallet. */
  ghost predicate Extends(rows: Table, rows': Table) {
    forall b :: b in rows ==> b in rows' && rows'[b].wallet == rows[b].wallet
  }

  lemma StepExtends(node: Node, s: Ledger, step: Step)
    ensures Extends(s.rows, Next(node, s, step).rows)
  {
  }

  /** A step moves its own task only. */
  lemma OthersUnmoved(node: Node, s: Ledger, step: Step, t: nat)
    requires t != step.t
    ensures var s' := Next(node, s, step); (t in s'.tasks <==> t in s.tasks) && (t in s.tasks ==> s'.tasks[t] == s.tasks[t])
  {
  }

  lemma RowsStaySound(node: Node, s: Ledger, step: Step)
    requires Sound(node, s)
    ensures UniqueLinks(Next(node, s, step).rows)
    ensures forall b :: b in Next(node, s, step).rows ==> RowSound(node, b, Next(node, s, step).rows[b])
  {
    hide PaidBy;
    if step.t in s.tasks {
      assert TaskSound(node, s.rows, s.tasks[step.t]);
    }
  }

  lemma OtherTaskStaysSound(node: Node, rows: Table, rows': Table, task: Task)
    requires Extends(rows, rows') && TaskSound(node, rows, task)
    ensures TaskSound(node, rows', task)
  {
    hide PaidBy;
  }

  lemma OwnTaskStaysSound(node: Node, s: Ledger, step: Step)
    requires Sound(node, s) && step.t in Next(node, s, step).tasks
    ensures TaskSound(node, Next(node, s, step).rows, Next(node, s, step).tasks[step.t])
  {
    hide UniqueLinks;
    StepExtends(node, s, step);
    if step.t in s.tasks {
      var task := s.tasks[step.t];
      assert TaskSound(node, s.rows, task);
      OtherTaskStaysSound(node, s.rows, Next(node, s, step).rows, task);
      if step.Link? && task.Linking? {
        assert PaidBy(node, task.block, task.wallet, node.pays(task.acc, task.wallet));
      }
      hide PaidBy;
    }
  }

  lemma StepKeepsSound(node: Node, s: Ledger, step: Step)
    requires Sound(node, s)
    ensures Sound(node, Next(node, s, step))
  {
    hide Next, UniqueLinks, RowSound, TaskSound;
    var s' := Next(node, s, step);
    StepExtends(node, s, step);
    RowsStaySound(node, s, step);
    forall t | t in s'.tasks
      ensures TaskSound(node, s'.rows, s'.tasks[t])
    {
      if t == step.t {
        OwnTaskStaysSound(node, s, step);
      } else {
        OthersUnmoved(node, s, step, t);
        OtherTaskStaysSound(node, s.rows, s'.rows, s.tasks[t]);
      }
    }
  }

  lemma {:induction false} RunKeepsSound(node: Node, run: seq<Step>)
    ensures Sound(node, After(node, EMPTY, run))
  {
    if run == [] {
    } else {
      RunKeepsSound(node, run[..|run| - 1]);
      StepKeepsSound(node, After(node, EMPTY, run[..|run| - 1]), run[|run| - 1]);
    }
  }

  /** What the linked chain blocks paid to the wallet, each block counted once. */
  ghost function PaymentsOf(node: Node, rows: Table, wallet: Wallet): map<Hash, int> {
    map acc | acc in LinksOf(rows, wallet) :: node.pays(acc, wallet)
  }

  lemma LinkedReward(node: Node, b: Hash, row: Row)
    requires MergedOnce(node) && RowSound(node, b, row) && row.link.Some?
    ensures row.reward == 0 || row.reward == node.pays(row.link.value, row.wallet)
  {
  }

  /** What the linked block of each linked row paid. */
  ghost function OwedOf(node: Node, rows: Table, wallet: Wallet): map<Hash, int> {
    map b | b in LinkedRewardsOf(rows, wallet) :: node.pays(rows[b].link.value, wallet)
  }

  lemma OwedIsPayments(node: Node, rows: Table, wallet: Wallet)
    requires UniqueLinks(rows)
    ensures Total(OwedOf(node, rows, wallet)) == Total(PaymentsOf(node, rows, wallet))
  {
    var payments := PaymentsOf(node, rows, wallet);
    LinkedTotalByBlock(rows, wallet, payments);
    hide UniqueLinks, Total;
    assert OwedOf(node, rows, wallet) == map b | b in LinkedRewardsOf(rows, wallet) :: payments[rows[b].link.value];
  }

  lemma LinkedBound(node: Node, rows: Table, wallet: Wallet)
    requires MergedOnce(node) && UniqueLinks(rows)
    requires forall b :: b in rows ==> RowSound(node, b, rows[b])
    ensures Total(LinkedRewardsOf(rows, wallet)) <= Total(PaymentsOf(node, rows, wallet))
    ensures (forall b :: b in LinkedRewardsOf(rows, wallet) ==> rows[b].reward > 0)
        ==> Total(LinkedRewardsOf(rows, wallet)) == Total(PaymentsOf(node, rows, wallet))
  {
    hide Total, UniqueLinks, PaymentsOf, MergedOnce, RowSound;
    var rewards, owed := LinkedRewardsOf(rows, wallet), OwedOf(node, rows, wallet);
    OwedIsPayments(node, rows, wallet);
    forall b | b in rewards
      ensures rewards[b] == rows[b].reward && (rewards[b] == 0 || rewards[b] == owed[b]) && owed[b] >= 0
    {
      LinkedReward(node, b, rows[b]);
    }
    TotalAtMost(rewards, owed);
    if forall b :: b in rewards ==> rows[b].reward > 0 {
      assert rewards == owed;
    }
  }

  /** Over every interleaving, with crashes, re-runs, node errors and database errors: the
      rewards on a wallet's linked rows never exceed what the distinct linked blocks paid it. */
  lemma {:induction false} LinkedRowsNeverOverbooked(node: Node, run: seq<Step>, wallet: Wallet)
    requires MergedOnce(node)
    ensures var rows := After(node, EMPTY, run).rows;
            UniqueLinks(rows) && Total(LinkedRewardsOf(rows, wallet)) <= Total(PaymentsOf(node, rows, wallet))
  {
    RunKeepsSound(node, run);
    LinkedBound(node, After(node, EMPTY, run).rows, wallet);
  }

  // ---------- All rows: exactly when every link write is accepted ----------

  /** No row of the wallet carries a reward without a link. */
  ghost predicate AllBacked(rows: Table, wallet: Wallet) {
    forall b :: b in rows && rows[b].wallet == wallet && rows[b].reward > 0 ==> rows[b].link.Some?
  }

  /** Task t works on a block of wallet w. */
  ghost predicate Serves(s: Ledger, t: nat, w: Wallet) {
    t in s.tasks && s.tasks[t].block in s.rows && s.rows[s.tasks[t].block].wallet == w
  }

  /** Every reward, booked or about to be, stands on a linked row. */
  ghost predicate Backed(s: Ledger, w: Wallet) {
    && AllBacked(s.rows, w)
    && (forall t :: Serves(s, t, w) && s.tasks[t].Booking? && s.tasks[t].reward > 0 ==> s.rows[s.tasks[t].block].link.Some?)
  }

  /** The step is a link write that leaves its row without a link: the index or the database
      refuses it, and the task books the payment all the same. */
  ghost predicate LosesLink(s: Ledger, step: Step, w: Wallet) {
    && step.Link? && step.t in s.tasks && s.tasks[step.t].Linking?
    && var task := s.tasks[step.t];
       task.block in s.rows && task.wallet == w && s.rows[task.block].link.None? && (!step.ok || Refused(s.rows, task.block, task.acc))
  }

  lemma LinkKeepsBacked(node: Node, s: Ledger, step: Step, w: Wallet)
    requires Sound(node, s) && Backed(s, w)
    requires step.Link? && step.t in s.tasks && s.tasks[step.t].Linking?
    ensures Backed(Next(node, s, step), w) <==> !LosesLink(s, step, w)
  {
    hide UniqueLinks, RowSound, PaidBy;
    var s', task := Next(node, s, step), s.tasks[step.t];
    assert TaskSound(node, s.rows, task);
    assert s'.tasks[step.t] == Booking(task.block, node.pays(task.acc, task.wallet), Blue);
    hide OtherLinked;
    if LosesLink(s, step, w) {
      assert s'.rows == s.rows && Serves(s', step.t, w);
    } else {
      forall t | Serves(s', t, w) && s'.tasks[t].Booking? && s'.tasks[t].reward > 0
        ensures s'.rows[s'.tasks[t].block].link.Some?
      {
        assert t != step.t ==> Serves(s, t, w) && s'.tasks[t] == s.tasks[t];
      }
    }
  }

  lemma OtherStepsKeepLinks(node: Node, s: Ledger, step: Step, b: Hash)
    requires !step.Link? && b in s.rows
    ensures b in Next(node, s, step).rows && Next(node, s, step).rows[b].link == s.rows[b].link
  {
  }

  lemma OtherStepsBringNoReward(node: Node, s: Ledger, step: Step, t: nat)
    requires !step.Link? && t in Next(node, s, step).tasks
    requires Next(node, s, step).tasks[t].Booking? && Next(node, s, step).tasks[t].reward > 0
    ensures t in s.tasks && s.tasks[t] == Next(node, s, step).tasks[t]
  {
    if t != step.t {
      OthersUnmoved(node, s, step, t);
    }
  }

  lemma OtherStepsKeepBacked(node: Node, s: Ledger, step: Step, w: Wallet)
    requires Sound(node, s) && Backed(s, w) && !step.Link?
    ensures Backed(Next(node, s, step), w)
  {
    hide Next, UniqueLinks, RowSound;
    var s' := Next(node, s, step);
    StepExtends(node, s, step);
    forall t | Serves(s', t, w) && s'.tasks[t].Booking? && s'.tasks[t].reward > 0
      ensures s'.rows[s'.tasks[t].block].link.Some?
    {
      OtherStepsBringNoReward(node, s, step, t);
      ServedBefore(node, s, step, t, w);
      OtherStepsKeepLinks(node, s, step, s.tasks[t].block);
    }
    forall b | b in s'.rows && s'.rows[b].wallet == w && s'.rows[b].reward > 0
      ensures s'.rows[b].link.Some?
    {
      VerdictOrigin(node, s, step, b);
      if step.t in s.tasks {
        assert TaskSound(node, s.rows, s.tasks[step.t]);
      }
      OtherStepsKeepLinks(node, s, step, b);
      if s.rows[b].reward != s'.rows[b].reward {
        assert Serves(s, step.t, w);
      }
    }
  }

  /** Exactly the lost link writes break it. */
  lemma BackedExactly(node: Node, s: Ledger, step: Step, w: Wallet)
    requires Sound(node, s) && Backed(s, w)
    ensures Backed(Next(node, s, step), w) <==> !LosesLink(s, step, w)
  {
    if !step.Link? {
      OtherStepsKeepBacked(node, s, step, w);
    } else if step.t in s.tasks && s.tasks[step.t].Linking? {
      LinkKeepsBacked(node, s, step, w);
    }
  }

  ghost predicate NeverLosesLink(node: Node, run: seq<Step>, w: Wallet)
    decreases |run|
  {
    run != [] ==>
      && NeverLosesLink(node, run[..|run| - 1], w)
      && !LosesLink(After(node, EMPTY, run[..|run| - 1]), run[|run| - 1], w)
  }

  lemma {:induction false} RunKeepsBacked(node: Node, run: seq<Step>, w: Wallet)
    requires NeverLosesLink(node, run, w)
    ensures Backed(After(node, EMPTY, run), w)
  {
    if run == [] {
    } else {
      RunKeepsBacked(node, run[..|run| - 1], w);
      RunKeepsSound(node, run[..|run| - 1]);
      BackedExactly(node, After(node, EMPTY, run[..|run| - 1]), run[|run| - 1], w);
    }
  }

  /** At every moment of a run every reward stands on a linked row exactly when no link write of
      the run is lost. */
  lemma {:induction false} NeverLosesExactly(node: Node, run: seq<Step>, w: Wallet)
    ensures NeverLosesLink(node, run, w) <==> forall k :: 0 <= k <= |run| ==> Backed(After(node, EMPTY, run[..k]), w)
  {
    hide LosesLink, Backed;
    assert run[..|run|] == run;
    if run == [] {
      RunKeepsBacked(node, run, w);
    } else {
      var n := |run| - 1;
      var before := run[..n];
      NeverLosesExactly(node, before, w);
      forall k | 0 <= k <= n
        ensures run[..k] == before[..k]
      {
      }
      RunKeepsSound(node, before);
      if NeverLosesLink(node, before, w) {
        RunKeepsBacked(node, before, w);
        BackedExactly(node, After(node, EMPTY, before), run[n], w);
      }
    }
  }

  /** The total over all rows is the total over linked rows exactly when no row carries a reward
      without a link. */
  lemma AllRowsAreLinkedRows(rows: Table, wallet: Wallet)
    ensures Total(LinkedRewardsOf(rows, wallet)) <= Total(RewardsOf(rows, wallet))
    ensures Total(RewardsOf(rows, wallet)) == Total(LinkedRewardsOf(rows, wallet)) <==> AllBacked(rows, wallet)
  {
    var all, linked := RewardsOf(rows, wallet), LinkedRewardsOf(rows, wallet);
    TotalOfPart(all, linked);
    assert forall b :: b in rows && rows[b].wallet == wallet && b !in linked ==> b in all && all[b] == rows[b].reward;
  }

  /** `GetTotalAtomsByWallet` never exceeds the payments in runs where no link write is lost. */
  lemma {:induction false} AllRowsNeverOverbooked(node: Node, run: seq<Step>, wallet: Wallet)
    requires MergedOnce(node) && NeverLosesLink(node, run, wallet)
    ensures var rows := After(node, EMPTY, run).rows;
            Total(RewardsOf(rows, wallet)) <= Total(PaymentsOf(node, rows, wallet))
  {
    RunKeepsBacked(node, run, wallet);
    LinkedRowsNeverOverbooked(node, run, wallet);
    AllRowsAreLinkedRows(After(node, EMPTY, run).rows, wallet);
  }

  // ---------- Runs without races lose no link ----------

  /** A link write while a task of another block waits to link the same pair. */
  ghost predicate Races(s: Ledger, step: Step, w: Wallet) {
    && step.Link? && step.t in s.tasks && s.tasks[step.t].Linking? && s.tasks[step.t].wallet == w
    && exists u :: u in s.tasks && s.tasks[u].Linking? && s.tasks[u].block != s.tasks[step.t].block
                   && s.tasks[u].wallet == s.tasks[step.t].wallet && s.tasks[u].acc == s.tasks[step.t].acc
  }

  ghost predicate RaceFreeRun(node: Node, run: seq<Step>, w: Wallet)
    decreases |run|
  {
    run != [] ==>
      && RaceFreeRun(node, run[..|run| - 1], w)
      && !Races(After(node, EMPTY, run[..|run| - 1]), run[|run| - 1], w)
  }

  /** The database takes every link of the wallet that the index takes. */
  ghost predicate LinksWritten(node: Node, run: seq<Step>, w: Wallet)
    decreases |run|
  {
    run != [] ==>
      && LinksWritten(node, run[..|run| - 1], w)
      && LinkWritten(After(node, EMPTY, run[..|run| - 1]), run[|run| - 1], w)
  }

  ghost predicate LinkWritten(s: Ledger, step: Step, w: Wallet) {
    step.Link? && Serves(s, step.t, w) ==> step.ok
  }

  /** No pair that a task waits to link is linked by another row. */
  ghost predicate Unclaimed(s: Ledger, w: Wallet) {
    forall t :: t in s.tasks && s.tasks[t].Linking? && s.tasks[t].wallet == w ==> !OtherLinked(s.rows, s.tasks[t].wallet, s.tasks[t].acc, s.tasks[t].block)
  }

  lemma OtherTaskStaysUnclaimed(node: Node, s: Ledger, step: Step, t: nat, w: Wallet)
    requires Sound(node, s) && Unclaimed(s, w) && !Races(s, step, w) && t in s.tasks && t != step.t
    requires s.tasks[t].Linking? && s.tasks[t].wallet == w
    ensures !OtherLinked(Next(node, s, step).rows, s.tasks[t].wallet, s.tasks[t].acc, s.tasks[t].block)
  {
  }

  lemma OwnTaskStaysUnclaimed(node: Node, s: Ledger, step: Step, w: Wallet)
    requires Unclaimed(s, w) && step.t in Next(node, s, step).tasks
    requires Next(node, s, step).tasks[step.t].Linking? && Next(node, s, step).tasks[step.t].wallet == w
    ensures var s' := Next(node, s, step);
            !OtherLinked(s'.rows, s'.tasks[step.t].wallet, s'.tasks[step.t].acc, s'.tasks[step.t].block)
  {
  }

  lemma StepKeepsUnclaimed(node: Node, s: Ledger, step: Step, w: Wallet)
    requires Sound(node, s) && Unclaimed(s, w) && !Races(s, step, w)
    ensures Unclaimed(Next(node, s, step), w)
  {
    hide Next, Sound, Races, OtherLinked;
    var s' := Next(node, s, step);
    forall t | t in s'.tasks && s'.tasks[t].Linking? && s'.tasks[t].wallet == w
      ensures !OtherLinked(s'.rows, s'.tasks[t].wallet, s'.tasks[t].acc, s'.tasks[t].block)
    {
      if t == step.t {
        OwnTaskStaysUnclaimed(node, s, step, w);
      } else {
        OthersUnmoved(node, s, step, t);
        OtherTaskStaysUnclaimed(node, s, step, t, w);
      }
    }
  }

  lemma {:induction false} RunKeepsUnclaimed(node: Node, run: seq<Step>, w: Wallet)
    requires RaceFreeRun(node, run, w)
    ensures Unclaimed(After(node, EMPTY, run), w)
  {
    if run == [] {
    } else {
      RunKeepsUnclaimed(node, run[..|run| - 1], w);
      RunKeepsSound(node, run[..|run| - 1]);
      StepKeepsUnclaimed(node, After(node, EMPTY, run[..|run| - 1]), run[|run| - 1], w);
    }
  }

  lemma UnclaimedLosesNoLink(node: Node, s: Ledger, step: Step, w: Wallet)
    requires Sound(node, s) && Unclaimed(s, w) && LinkWritten(s, step, w)
    ensures !LosesLink(s, step, w)
  {
    if step.t in s.tasks {
      assert TaskSound(node, s.rows, s.tasks[step.t]);
    }
  }

  /** Without races the index refuses no link, whatever else happens in the run. */
  lemma {:induction false} RaceFreeRunsLoseNoLink(node: Node, run: seq<Step>, w: Wallet)
    requires RaceFreeRun(node, run, w) && LinksWritten(node, run, w)
    ensures NeverLosesLink(node, run, w)
  {
    if run == [] {
    } else {
      var s, step := After(node, EMPTY, run[..|run| - 1]), run[|run| - 1];
      RaceFreeRunsLoseNoLink(node, run[..|run| - 1], w);
      RunKeepsSound(node, run[..|run| - 1]);
      RunKeepsUnclaimed(node, run[..|run| - 1], w);
      UnclaimedLosesNoLink(node, s, step, w);
    }
  }

  /** No check of a task falls between the check and the link write of another task of the
      same wallet. */
  ghost predicate Undisturbed(s: Ledger, step: Step, w: Wallet) {
    step.Check? && step.t in s.tasks && s.tasks[step.t].Walking? && s.tasks[step.t].wallet == w ==>
      forall u :: u in s.tasks && u != step.t && s.tasks[u].Linking? ==> s.tasks[u].wallet != w
  }

  ghost predicate UndisturbedRun(node: Node, run: seq<Step>, w: Wallet)
    decreases |run|
  {
    run != [] ==>
      && UndisturbedRun(node, run[..|run| - 1], w)
      && Undisturbed(After(node, EMPTY, run[..|run| - 1]), run[|run| - 1], w)
  }

  ghost predicate OneLinking(s: Ledger, w: Wallet) {
    forall t, u ::
      t in s.tasks && u in s.tasks && s.tasks[t].Linking? && s.tasks[u].Linking? && s.tasks[t].wallet == w == s.tasks[u].wallet
      ==> t == u
  }

  lemma {:induction false} UndisturbedRunsNeverRace(node: Node, run: seq<Step>, step: Step, w: Wallet)
    requires UndisturbedRun(node, run, w)
    ensures OneLinking(After(node, EMPTY, run), w) && !Races(After(node, EMPTY, run), step, w)
  {
    if run == [] {
    } else {
      UndisturbedRunsNeverRace(node, run[..|run| - 1], step, w);
    }
  }

  lemma {:induction false} UndisturbedRunsAreRaceFree(node: Node, run: seq<Step>, w: Wallet)
    requires UndisturbedRun(node, run, w)
    ensures RaceFreeRun(node, run, w)
  {
    if run == [] {
    } else {
      UndisturbedRunsAreRaceFree(node, run[..|run| - 1], w);
      UndisturbedRunsNeverRace(node, run[..|run| - 1], run[|run| - 1], w);
    }
  }

  /** When no other task of the wallet falls between a task's check and its link write, the total
      over all rows never exceeds the payments: tasks may crash, give up, be re-run or fail to
      book, the run need not be over, and other wallets may race. */
  lemma UndisturbedNeverOverbooked(node: Node, run: seq<Step>, wallet: Wallet)
    requires MergedOnce(node) && UndisturbedRun(node, run, wallet) && LinksWritten(node, run, wallet)
    ensures NeverLosesLink(node, run, wallet)
    ensures var rows := After(node, EMPTY, run).rows;
            Total(RewardsOf(rows, wallet)) <= Total(PaymentsOf(node, rows, wallet))
  {
    UndisturbedRunsAreRaceFree(node, run, wallet);
    RaceFreeRunsLoseNoLink(node, run, wallet);
    AllRowsNeverOverbooked(node, run, wallet);
  }

  // ---------- Drained runs: one payee and conservation ----------

  /** No database error of its own, and no task gives up on a block that was merged. */
  ghost predicate Faultless(node: Node, s: Ledger, step: Step, w: Wallet) {
    Serves(s, step.t, w) ==>
      && (step.Link? || step.Book? ==> step.ok)
      && (var s' := Next(node, s, step);
          step.t in s'.tasks && s'.tasks[step.t].Booking? && s'.tasks[step.t].status == Red ==>
            exists acc :: s'.tasks[step.t].block in node.reds(acc))
  }

  ghost predicate FaultlessRun(node: Node, run: seq<Step>, w: Wallet)
    decreases |run|
  {
    run != [] ==>
      && FaultlessRun(node, run[..|run| - 1], w)
      && Faultless(node, After(node, EMPTY, run[..|run| - 1]), run[|run| - 1], w)
  }

  /** A verdict on a block agrees with the chain and with the links in the table.  A payment that
      was booked is linked, by the block's own row or, after a race, by another. */
  ghost predicate Justified(node: Node, rows: Table, block: Hash, reward: nat, status: Status) {
    && block in rows
    && match status
       case Pending => reward == 0
       case Red => reward == 0 && exists acc :: block in node.reds(acc)
       case Blue => (exists acc ::
                      && block in node.blues(acc) && reward == node.pays(acc, rows[block].wallet)
                      && (reward > 0 ==> rows[block].link == Some(acc) || OtherLinked(rows, rows[block].wallet, acc, block)))
       case MergeDuplicate => reward == 0 && (exists acc ::
                                block in node.blues(acc) && OtherLinked(rows, rows[block].wallet, acc, block))
  }

  ghost predicate TaskSettling(node: Node, rows: Table, task: Task) {
    task.Booking? ==> Justified(node, rows, task.block, task.reward, task.status)
  }

  /** Every verdict on a block of the wallet is justified. */
  ghost predicate Settling(node: Node, s: Ledger, w: Wallet) {
    && Sound(node, s)
    && (forall b :: b in s.rows && s.rows[b].wallet == w ==> Justified(node, s.rows, b, s.rows[b].reward, s.rows[b].status))
    && (forall t :: Serves(s, t, w) ==> TaskSettling(node, s.rows, s.tasks[t]))
  }

  /** Links are only ever added, and a linked row keeps its link. */
  ghost predicate LinksKept(rows: Table, rows': Table) {
    && Extends(rows, rows')
    && forall b :: b in rows && rows[b].link.Some? ==> rows'[b].link == rows[b].link
  }

  lemma OtherLinkedStays(rows: Table, rows': Table, wallet: Wallet, acc: Hash, b: Hash)
    requires LinksKept(rows, rows') && OtherLinked(rows, wallet, acc, b)
    ensures OtherLinked(rows', wallet, acc, b)
  {
  }

  lemma JustifiedStays(node: Node, rows: Table, rows': Table, b: Hash, r: nat, st: Status)
    requires LinksKept(rows, rows') && Justified(node, rows, b, r, st)
    ensures Justified(node, rows', b, r, st)
  {
    forall acc | OtherLinked(rows, rows[b].wallet, acc, b)
      ensures OtherLinked(rows', rows'[b].wallet, acc, b)
    {
      OtherLinkedStays(rows, rows', rows[b].wallet, acc, b);
    }
    hide OtherLinked;
    if st == Blue {
      var acc :| && b in node.blues(acc) && r == node.pays(acc, rows[b].wallet)
                 && (r > 0 ==> rows[b].link == Some(acc) || OtherLinked(rows, rows[b].wallet, acc, b));
      assert r > 0 ==> rows'[b].link == Some(acc) || OtherLinked(rows', rows'[b].wallet, acc, b);
    }
  }

  lemma StepKeepsLinks(node: Node, s: Ledger, step: Step)
    requires MergedOnce(node) && Sound(node, s)
    ensures LinksKept(s.rows, Next(node, s, step).rows)
  {
    if step.Link? && step.t in s.tasks && s.tasks[step.t].Linking? {
      assert TaskSound(node, s.rows, s.tasks[step.t]);
      assert RowSound(node, s.tasks[step.t].block, s.rows[s.tasks[step.t].block]);
    }
  }

  lemma CheckVerdict(node: Node, rows: Table, task: Task)
    requires task.Walking? && task.chain != [] && TaskSound(node, rows, task)
    ensures var d := Decide(node, task, OtherLinked(rows, task.wallet, task.chain[0], task.block));
            && d.block == task.block
            && (d.Booking? && d.status != Red ==> Justified(node, rows, d.block, d.reward, d.status))
            && (d.Booking? && d.status == Red ==> d.reward == 0)
  {
  }

  /** Either the row is linked now, or the index refused because another one is. */
  lemma LinkVerdict(node: Node, rows: Table, task: Task)
    requires task.Linking? && TaskSound(node, rows, task)
    ensures Justified(node, Linked(rows, task.block, task.acc), task.block, node.pays(task.acc, task.wallet), Blue)
  {
  }

  /** A task keeps its block, and a block its wallet. */
  lemma ServedBefore(node: Node, s: Ledger, step: Step, t: nat, w: Wallet)
    requires Sound(node, s) && t in s.tasks && Serves(Next(node, s, step), t, w)
    ensures Serves(s, t, w)
  {
    hide UniqueLinks, RowSound, PaidBy;
    assert TaskSound(node, s.rows, s.tasks[t]);
    StepExtends(node, s, step);
    if t == step.t {
      hide OtherLinked;
      assert Next(node, s, step).tasks[t].block == s.tasks[t].block;
    } else {
      OthersUnmoved(node, s, step, t);
      hide Next;
    }
  }

  /** What one step hands to its own task is justified. */
  lemma OwnTaskStaysSettling(node: Node, s: Ledger, step: Step, w: Wallet)
    requires MergedOnce(node) && Settling(node, s, w) && Faultless(node, s, step, w)
    requires Serves(Next(node, s, step), step.t, w)
    ensures TaskSettling(node, Next(node, s, step).rows, Next(node, s, step).tasks[step.t])
  {
    hide UniqueLinks, RowSound, MergedOnce;
    if step.t in s.tasks {
      ServedBefore(node, s, step, step.t, w);
      var task := s.tasks[step.t];
      assert TaskSettling(node, s.rows, task) && TaskSound(node, s.rows, task);
      if step.Check? && task.Walking? && task.chain != [] {
        CheckVerdict(node, s.rows, task);
      } else if step.Link? && task.Linking? {
        LinkVerdict(node, s.rows, task);
      }
      hide Decide, OtherLinked;
      if step.Record? {
        assert Next(node, s, step) == s;
      }
    }
  }

  /** A row's verdict only changes when a task books its own. */
  lemma VerdictOrigin(node: Node, s: Ledger, step: Step, b: Hash)
    requires b in Next(node, s, step).rows
    ensures var row := Next(node, s, step).rows[b];
            || (b in s.rows && row.reward == s.rows[b].reward && row.status == s.rows[b].status)
            || (b !in s.rows && row.reward == 0 && row.status == Pending)
            || (step.t in s.tasks && s.tasks[step.t] == Booking(b, row.reward, row.status))
  {
  }

  lemma RowsStayJustified(node: Node, s: Ledger, step: Step, b: Hash, w: Wallet)
    requires MergedOnce(node) && Settling(node, s, w) && b in Next(node, s, step).rows && Next(node, s, step).rows[b].wallet == w
    ensures var rows := Next(node, s, step).rows; Justified(node, rows, b, rows[b].reward, rows[b].status)
  {
    var s' := Next(node, s, step);
    StepKeepsLinks(node, s, step);
    VerdictOrigin(node, s, step, b);
    StepExtends(node, s, step);
    if step.t in s.tasks {
      assert TaskSound(node, s.rows, s.tasks[step.t]);
    }
    var reward, status := s'.rows[b].reward, s'.rows[b].status;
    hide Next, Sound, LinksKept;
    if b in s.rows || (step.t in s.tasks && s.tasks[step.t] == Booking(b, reward, status)) {
      assert Justified(node, s.rows, b, reward, status) by {
        if step.t in s.tasks && s.tasks[step.t] == Booking(b, reward, status) {
          assert TaskSettling(node, s.rows, s.tasks[step.t]);
        }
      }
      hide Justified;
      JustifiedStays(node, s.rows, s'.rows, b, reward, status);
    }
  }

  lemma OtherTasksStaySettling(node: Node, s: Ledger, step: Step, t: nat, w: Wallet)
    requires MergedOnce(node) && Settling(node, s, w)
    requires Serves(s, t, w) && t != step.t
    ensures TaskSettling(node, Next(node, s, step).rows, s.tasks[t])
  {
    StepKeepsLinks(node, s, step);
    hide Next, Sound, Justified;
    if s.tasks[t].Booking? {
      JustifiedStays(node, s.rows, Next(node, s, step).rows, s.tasks[t].block, s.tasks[t].reward, s.tasks[t].status);
    }
  }

  lemma StepKeepsSettling(node: Node, s: Ledger, step: Step, w: Wallet)
    requires MergedOnce(node) && Settling(node, s, w) && Faultless(node, s, step, w)
    ensures Settling(node, Next(node, s, step), w)
  {
    hide Next, Sound, Faultless, TaskSettling, Justified;
    var s' := Next(node, s, step);
    StepKeepsSound(node, s, step);
    forall b | b in s'.rows && s'.rows[b].wallet == w
      ensures Justified(node, s'.rows, b, s'.rows[b].reward, s'.rows[b].status)
    {
      RowsStayJustified(node, s, step, b, w);
    }
    forall t | Serves(s', t, w)
      ensures TaskSettling(node, s'.rows, s'.tasks[t])
    {
      if t == step.t {
        OwnTaskStaysSettling(node, s, step, w);
      } else {
        OthersUnmoved(node, s, step, t);
        ServedBefore(node, s, step, t, w);
        OtherTasksStaySettling(node, s, step, t, w);
      }
    }
  }

  lemma {:induction false} RunKeepsSettling(node: Node, run: seq<Step>, w: Wallet)
    requires MergedOnce(node) && FaultlessRun(node, run, w)
    ensures Settling(node, After(node, EMPTY, run), w)
  {
    if run == [] {
    } else {
      RunKeepsSettling(node, run[..|run| - 1], w);
      StepKeepsSettling(node, After(node, EMPTY, run[..|run| - 1]), run[|run| - 1], w);
    }
  }

  /** The wallet's work is done: no task serves it and no row of it is pending. */
  ghost predicate Drained(s: Ledger, w: Wallet) {
    && (forall t :: !Serves(s, t, w))
    && (forall b :: b in s.rows && s.rows[b].wallet == w ==> s.rows[b].status != Pending)
  }

  /** The recorded blocks of the wallet that the chain block merged as blue. */
  ghost predicate Earned(node: Node, rows: Table, wallet: Wallet, acc: Hash, block: Hash) {
    block in rows && rows[block].wallet == wallet && block in node.blues(acc)
  }

  /** The row that the payment was booked on. */
  ghost predicate Payee(node: Node, rows: Table, wallet: Wallet, acc: Hash, block: Hash) {
    && Earned(node, rows, wallet, acc, block)
    && rows[block] == Row(wallet, node.pays(acc, wallet), Blue, Some(acc))
  }

  /** All other blue blocks of the pair are merge duplicates with nothing. */
  ghost predicate Duplicates(node: Node, rows: Table, wallet: Wallet, acc: Hash, payee: Hash) {
    forall b :: Earned(node, rows, wallet, acc, b) && b != payee ==> rows[b] == Row(wallet, 0, MergeDuplicate, None)
  }

  /** A blue block of a paid pair in a settled table: the payee, a duplicate with nothing, or the
      loser of a race with the full payment and no link. */
  lemma VerdictOfEarned(node: Node, s: Ledger, wallet: Wallet, acc: Hash, block: Hash)
    requires MergedOnce(node) && MergedOneWay(node) && Settling(node, s, wallet) && Drained(s, wallet)
    requires Earned(node, s.rows, wallet, acc, block) && node.pays(acc, wallet) > 0
    ensures s.rows[block].link.Some? ==> Payee(node, s.rows, wallet, acc, block)
    ensures s.rows[block].link.None? ==>
              && OtherLinked(s.rows, wallet, acc, block)
              && (s.rows[block] == Row(wallet, 0, MergeDuplicate, None)
                  || s.rows[block] == Row(wallet, node.pays(acc, wallet), Blue, None))
  {
    assert Justified(node, s.rows, block, s.rows[block].reward, s.rows[block].status);
    assert RowSound(node, block, s.rows[block]);
  }

  lemma EarnedHasPayee(node: Node, s: Ledger, wallet: Wallet, acc: Hash, block: Hash) returns (payee: Hash)
    requires MergedOnce(node) && MergedOneWay(node) && Settling(node, s, wallet) && Drained(s, wallet)
    requires Earned(node, s.rows, wallet, acc, block) && node.pays(acc, wallet) > 0
    ensures Payee(node, s.rows, wallet, acc, payee)
  {
    VerdictOfEarned(node, s, wallet, acc, block);
    if s.rows[block].link.Some? {
      payee := block;
    } else {
      payee :| payee in s.rows && s.rows[payee].wallet == wallet && s.rows[payee].link == Some(acc);
      assert RowSound(node, payee, s.rows[payee]);
      VerdictOfEarned(node, s, wallet, acc, payee);
    }
  }

  lemma OnlyPayeeIsLinked(node: Node, s: Ledger, wallet: Wallet, acc: Hash, payee: Hash, b: Hash)
    requires MergedOnce(node) && Sound(node, s) && Payee(node, s.rows, wallet, acc, payee)
    requires Earned(node, s.rows, wallet, acc, b) && b != payee
    ensures s.rows[b].link.None?
  {
    assert RowSound(node, b, s.rows[b]);
  }

  /** Any task order, any crash, any re-run of pending rows and any race: once drained, each paid
      pair has exactly one linked payee.  All its other blue blocks are merge duplicates with
      reward 0 unless the run lost a link write, and then some carry the payment once more. */
  lemma OnePayeePerPayment(node: Node, run: seq<Step>, wallet: Wallet, acc: Hash, block: Hash)
    returns (payee: Hash)
    requires MergedOnce(node) && MergedOneWay(node) && FaultlessRun(node, run, wallet) && Drained(After(node, EMPTY, run), wallet)
    requires Earned(node, After(node, EMPTY, run).rows, wallet, acc, block) && node.pays(acc, wallet) > 0
    ensures var rows := After(node, EMPTY, run).rows;
            && Payee(node, rows, wallet, acc, payee)
            && (forall b :: Earned(node, rows, wallet, acc, b) && b != payee ==>
                  rows[b] == Row(wallet, 0, MergeDuplicate, None) || rows[b] == Row(wallet, node.pays(acc, wallet), Blue, None))
            && (NeverLosesLink(node, run, wallet) ==> Duplicates(node, rows, wallet, acc, payee))
  {
    hide NeverLosesLink, FaultlessRun;
    var s := After(node, EMPTY, run);
    RunKeepsSettling(node, run, wallet);
    payee := EarnedHasPayee(node, s, wallet, acc, block);
    forall b | Earned(node, s.rows, wallet, acc, b) && b != payee
      ensures s.rows[b] == Row(wallet, 0, MergeDuplicate, None) || s.rows[b] == Row(wallet, node.pays(acc, wallet), Blue, None)
    {
      OnlyPayeeIsLinked(node, s, wallet, acc, payee, b);
      VerdictOfEarned(node, s, wallet, acc, b);
    }
    if NeverLosesLink(node, run, wallet) {
      RunKeepsBacked(node, run, wallet);
    }
  }

  /** Conservation, races included: once drained, the wallet's linked total is exactly what the
      linked blocks paid, and every block that paid it for a recorded blue block is among them.
      Races only ever overbook: the total over all rows is at least the payments, and equal
      exactly when no rewarded row lacks its link. */
  lemma {:induction false} DrainedTotalIsPayments(node: Node, run: seq<Step>, wallet: Wallet)
    requires MergedOnce(node) && MergedOneWay(node) && FaultlessRun(node, run, wallet) && Drained(After(node, EMPTY, run), wallet)
    ensures var rows := After(node, EMPTY, run).rows;
            var payments := Total(PaymentsOf(node, rows, wallet));
            && Total(LinkedRewardsOf(rows, wallet)) == payments
            && Total(RewardsOf(rows, wallet)) >= payments
            && (Total(RewardsOf(rows, wallet)) == payments <==> AllBacked(rows, wallet))
            && (NeverLosesLink(node, run, wallet) ==> AllBacked(rows, wallet))
    ensures var rows := After(node, EMPTY, run).rows;
            forall acc, b :: Earned(node, rows, wallet, acc, b) && node.pays(acc, wallet) > 0 ==> acc in LinksOf(rows, wallet)
  {
    hide NeverLosesLink, FaultlessRun;
    var s := After(node, EMPTY, run);
    RunKeepsSettling(node, run, wallet);
    forall b | b in s.rows && s.rows[b].wallet == wallet && s.rows[b].link.Some?
      ensures s.rows[b].reward > 0
    {
      RunLinksPay(node, run, b);
      VerdictOfEarned(node, s, wallet, s.rows[b].link.value, b);
    }
    AllRowsAreLinkedRows(s.rows, wallet);
    LinkedBound(node, s.rows, wallet);
    if NeverLosesLink(node, run, wallet) {
      RunKeepsBacked(node, run, wallet);
    }
    forall acc, b | Earned(node, s.rows, wallet, acc, b) && node.pays(acc, wallet) > 0
      ensures acc in LinksOf(s.rows, wallet)
    {
      var payee := EarnedHasPayee(node, s, wallet, acc, b);
    }
  }

  lemma {:induction false} FaultlessLinksWritten(node: Node, run: seq<Step>, w: Wallet)
    requires FaultlessRun(node, run, w)
    ensures LinksWritten(node, run, w)
  {
    if run == [] {
    } else {
      FaultlessLinksWritten(node, run[..|run| - 1], w);
    }
  }

  /** When no other task of the wallet falls between a task's check and its link write and every
      task of the wallet finds its block, whatever befalls other wallets: each paid pair ends with exactly one row that carries the full payment
      and merge duplicates with 0, and the wallet's total is what the chain paid. */
  lemma {:induction false} UndisturbedRunsSettleExactly(node: Node, run: seq<Step>, wallet: Wallet)
    requires MergedOnce(node) && MergedOneWay(node) && UndisturbedRun(node, run, wallet)
    requires FaultlessRun(node, run, wallet) && Drained(After(node, EMPTY, run), wallet)
    ensures var rows := After(node, EMPTY, run).rows;
            Total(RewardsOf(rows, wallet)) == Total(PaymentsOf(node, rows, wallet))
    ensures var rows := After(node, EMPTY, run).rows;
            forall acc, block :: Earned(node, rows, wallet, acc, block) && node.pays(acc, wallet) > 0 ==>
              exists payee :: Payee(node, rows, wallet, acc, payee) && Duplicates(node, rows, wallet, acc, payee)
  {
    hide *;
    var rows := After(node, EMPTY, run).rows;
    FaultlessLinksWritten(node, run, wallet);
    UndisturbedNeverOverbooked(node, run, wallet);
    DrainedTotalIsPayments(node, run, wallet);
    forall acc, block | Earned(node, rows, wallet, acc, block) && node.pays(acc, wallet) > 0
      ensures exists payee :: Payee(node, rows, wallet, acc, payee) && Duplicates(node, rows, wallet, acc, payee)
    {
      var payee := OnePayeePerPayment(node, run, wallet, acc, block);
    }
  }

  lemma StepLinksPay(node: Node, s: Ledger, step: Step, b: Hash)
    requires Sound(node, s)
    requires b in s.rows && s.rows[b].link.Some? ==> node.pays(s.rows[b].link.value, s.rows[b].wallet) > 0
    ensures var rows := Next(node, s, step).rows;
            b in rows && rows[b].link.Some? ==> node.pays(rows[b].link.value, rows[b].wallet) > 0
  {
    hide UniqueLinks, RowSound, PaidBy, Refused, Decide;
    if step.t in s.tasks {
      assert TaskSound(node, s.rows, s.tasks[step.t]);
    }
  }

  /** A link is only written for a block that pays the wallet. */
  lemma {:induction false} RunLinksPay(node: Node, run: seq<Step>, b: Hash)
    ensures var rows := After(node, EMPTY, run).rows;
            b in rows && rows[b].link.Some? ==> b in node.blues(rows[b].link.value) && node.pays(rows[b].link.value, rows[b].wallet) > 0
  {
    RunKeepsSound(node, run);
    if run == [] {
    } else {
      hide Next;
      RunLinksPay(node, run[..|run| - 1], b);
      RunKeepsSound(node, run[..|run| - 1]);
      StepLinksPay(node, After(node, EMPTY, run[..|run| - 1]), run[|run| - 1], b);
    }
  }

  // ---------- The race ----------

  lemma {:induction false} Unfold(node: Node, steps: seq<Step>, k: nat)
    requires k < |steps|
    ensures After(node, EMPTY, steps[..k + 1]) == Next(node, After(node, EMPTY, steps[..k]), steps[k])
  {
    assert steps[..k + 1][..k] == steps[..k];
  }

  /** Two tasks of one wallet that both pass the check before either writes its link. */
  ghost function RaceRun(payer: Hash, one: Hash, two: Hash, w: Wallet): seq<Step> {
    [Record(1, one, w), Record(2, two, w), Ask(1, Some([payer])), Ask(2, Some([payer])),
     Check(1, true), Check(2, true), Link(1, true), Link(2, true), Book(1, true), Book(2, true)]
  }

  ghost predicate Contested(node: Node, payer: Hash, one: Hash, two: Hash, w: Wallet) {
    one != two && {one, two} <= node.blues(payer) && node.pays(payer, w) > 0
  }

  ghost function Fresh(w: Wallet): Row { Row(w, 0, Pending, None) }

  lemma RaceToAsking(node: Node, payer: Hash, one: Hash, two: Hash, w: Wallet)
    requires Contested(node, payer, one, two, w)
    ensures After(node, EMPTY, RaceRun(payer, one, two, w)[..2])
         == Ledger(map[one := Fresh(w), two := Fresh(w)], map[1 := Asking(one, 0), 2 := Asking(two, 0)])
  {
    var run := RaceRun(payer, one, two, w);
    assert run[..0] == [];
    assert After(node, EMPTY, run[..0]) == EMPTY;
    hide After;
    Unfold(node, run, 0);
    assert After(node, EMPTY, run[..1]) == Ledger(map[one := Fresh(w)], map[1 := Asking(one, 0)]);
    Unfold(node, run, 1);
  }

  lemma RaceToWalking(node: Node, payer: Hash, one: Hash, two: Hash, w: Wallet)
    requires Contested(node, payer, one, two, w)
    ensures After(node, EMPTY, RaceRun(payer, one, two, w)[..4]) == Ledger(map[one := Fresh(w), two := Fresh(w)],
              map[1 := Walking(one, 0, w, [payer]), 2 := Walking(two, 0, w, [payer])])
  {
    hide After;
    var run := RaceRun(payer, one, two, w);
    var rows: Table := map[one := Fresh(w), two := Fresh(w)];
    RaceToAsking(node, payer, one, two, w);
    Unfold(node, run, 2);
    assert After(node, EMPTY, run[..3]) == Ledger(rows, map[1 := Walking(one, 0, w, [payer]), 2 := Asking(two, 0)]);
    Unfold(node, run, 3);
  }

  lemma RaceToLinking(node: Node, payer: Hash, one: Hash, two: Hash, w: Wallet)
    requires Contested(node, payer, one, two, w)
    ensures After(node, EMPTY, RaceRun(payer, one, two, w)[..6]) == Ledger(map[one := Fresh(w), two := Fresh(w)],
              map[1 := Linking(one, w, payer), 2 := Linking(two, w, payer)])
  {
    hide After;
    var run := RaceRun(payer, one, two, w);
    var rows: Table := map[one := Fresh(w), two := Fresh(w)];
    RaceToWalking(node, payer, one, two, w);
    Unfold(node, run, 4);
    assert After(node, EMPTY, run[..5]) == Ledger(rows, map[1 := Linking(one, w, payer), 2 := Walking(two, 0, w, [payer])]);
    Unfold(node, run, 5);
  }

  lemma RaceToBooking(node: Node, payer: Hash, one: Hash, two: Hash, w: Wallet)
    requires Contested(node, payer, one, two, w)
    ensures var run := RaceRun(payer, one, two, w);
            && After(node, EMPTY, run[..8])
               == Ledger(map[one := Fresh(w).(link := Some(payer)), two := Fresh(w)],
                         map[1 := Booking(one, node.pays(payer, w), Blue), 2 := Booking(two, node.pays(payer, w), Blue)])
            && LosesLink(After(node, EMPTY, run[..7]), run[7], w)
  {
    hide After;
    var run := RaceRun(payer, one, two, w);
    var rows: Table := map[one := Fresh(w).(link := Some(payer)), two := Fresh(w)];
    RaceToLinking(node, payer, one, two, w);
    Unfold(node, run, 6);
    assert After(node, EMPTY, run[..7])
        == Ledger(rows, map[1 := Booking(one, node.pays(payer, w), Blue), 2 := Linking(two, w, payer)]);
    assert Refused(rows, two, payer) by {
      assert rows[one].link == Some(payer);
    }
    hide Refused;
    Unfold(node, run, 7);
  }

  lemma RaceToEnd(node: Node, payer: Hash, one: Hash, two: Hash, w: Wallet)
    requires Contested(node, payer, one, two, w)
    ensures var paid := Row(w, node.pays(payer, w), Blue, None);
            var s := After(node, EMPTY, RaceRun(payer, one, two, w));
            s == Ledger(map[one := paid.(link := Some(payer)), two := paid], map[]) && Drained(s, w)
  {
    hide After;
    var run, amount := RaceRun(payer, one, two, w), node.pays(payer, w);
    var paid := Row(w, amount, Blue, None);
    RaceToBooking(node, payer, one, two, w);
    Unfold(node, run, 8);
    assert After(node, EMPTY, run[..9])
        == Ledger(map[one := paid.(link := Some(payer)), two := Fresh(w)], map[2 := Booking(two, amount, Blue)]);
    Unfold(node, run, 9);
    assert run[..10] == run;
  }

  lemma {:induction false} LostLinkStaysLost(node: Node, run: seq<Step>, k: nat, w: Wallet)
    requires k <= |run| && !NeverLosesLink(node, run[..k], w)
    ensures !NeverLosesLink(node, run, w)
  {
    if k == |run| {
      assert run[..k] == run;
    } else {
      assert run[..|run| - 1][..k] == run[..k];
      LostLinkStaysLost(node, run[..|run| - 1], k, w);
    }
  }

  lemma RaceTotals(node: Node, rows: Table, payer: Hash, one: Hash, two: Hash, w: Wallet)
    requires Contested(node, payer, one, two, w)
    requires var paid := Row(w, node.pays(payer, w), Blue, None);
             rows == map[one := paid.(link := Some(payer)), two := paid]
    ensures Total(RewardsOf(rows, w)) == 2 * node.pays(payer, w)
    ensures Total(PaymentsOf(node, rows, w)) == node.pays(payer, w)
  {
    var amount: int := node.pays(payer, w);
    TotalUpdate(map[], one, amount);
    TotalUpdate(map[][one := amount], two, amount);
    assert RewardsOf(rows, w) == map[][one := amount][two := amount];
    assert rows[one].link == Some(payer);
    assert LinksOf(rows, w) == {payer};
    TotalUpdate(map[], payer, amount);
    assert PaymentsOf(node, rows, w) == map[][payer := amount];
  }

  /** Whenever a chain block merges two recorded blocks of a wallet and pays it, that race is
      possible: the index refuses the second link, the reward is booked all the same, and the
      wallet's total over all rows ends at twice what the chain paid. */
  lemma {:induction false} DoubleBooking(node: Node, payer: Hash, one: Hash, two: Hash, w: Wallet)
    requires Contested(node, payer, one, two, w)
    ensures var s := After(node, EMPTY, RaceRun(payer, one, two, w));
            && !NeverLosesLink(node, RaceRun(payer, one, two, w), w)
            && Drained(s, w)
            && Total(RewardsOf(s.rows, w)) == 2 * Total(PaymentsOf(node, s.rows, w))
            && Total(PaymentsOf(node, s.rows, w)) == node.pays(payer, w)
  {
    var run := RaceRun(payer, one, two, w);
    RaceToBooking(node, payer, one, two, w);
    assert !NeverLosesLink(node, run, w) by {
      assert run[..8][..7] == run[..7];
      LostLinkStaysLost(node, run, 8, w);
    }
    hide *;
    var paid := Row(w, node.pays(payer, w), Blue, None);
    RaceToEnd(node, payer, one, two, w);
    RaceTotals(node, map[one := paid.(link := Some(payer)), two := paid], payer, one, two, w);
  }

  /** Such a node exists: a chain block that merges two blocks and pays 100 atoms. */
  lemma DoubleBookingExample() returns (node: Node)
    ensures MergedOnce(node) && MergedOneWay(node) && Contested(node, "payer", "one", "two", "wallet")
    ensures Total(RewardsOf(After(node, EMPTY, RaceRun("payer", "one", "two", "wallet")).rows, "wallet")) == 200
  {
    node := Node((acc: Hash) => if acc == "payer" then {"one", "two"} else {}, (acc: Hash) => {},
                 (acc: Hash, wallet: Wallet) => if acc == "payer" then 100 else 0);
    assert "one"[0] != "two"[0];
    DoubleBooking(node, "payer", "one", "two", "wallet");
  }
}
