/** One reward task as `fetchAndUpdateReward` (src/htnstratum/share_handler.go) writes it: what
    its loops leave in the table, and the steps of the machine in RewardTasks that they perform. */
module RewardFetch {
  import opened Basics
  import opened RewardTable
  import opened RewardTasks

  /** What the world answers.  `answers` holds the selected chain of each attempt, None when the
      node failed; `heard(a, i)` is false when the check or the fetch of chain block i failed in
      attempt a; `linkOk` and `bookOk` are false when the database fails the link or the final
      update for a reason of its own. */
  datatype World = World(answers: seq<Option<seq<Hash>>>, heard: (nat, nat) -> bool, linkOk: bool, bookOk: bool)

  ghost predicate Complete(world: World) { |world.answers| == MAX_ATTEMPTS }

  // ---------- What a task decides ----------

  predicate Merged(node: Node, block: Hash, acc: Hash) {
    block in node.blues(acc) || block in node.reds(acc)
  }

  /** Chain block i is the first that the task hears of and that merged its block. */
  ghost predicate FirstMerge(node: Node, world: World, a: nat, block: Hash, chain: seq<Hash>, i: nat) {
    && i < |chain| && world.heard(a, i) && Merged(node, block, chain[i])
    && forall j :: 0 <= j < i && world.heard(a, j) ==> !Merged(node, block, chain[j])
  }

  /** `link` is the link to write. */
  datatype Verdict = Verdict(reward: nat, status: Status, link: Option<Hash>)

  const NOT_FOUND := Verdict(0, Red, None)

  ghost function VerdictAt(node: Node, rows: Table, block: Hash, wallet: Wallet, acc: Hash): Verdict {
    if block !in node.blues(acc) then Verdict(0, Red, None)
    else if node.pays(acc, wallet) == 0 then Verdict(0, Blue, None)
    else if OtherLinked(rows, wallet, acc, block) then Verdict(0, MergeDuplicate, None)
    else Verdict(node.pays(acc, wallet), Blue, Some(acc))
  }

  /** The table after the link write alone. */
  ghost function WithLink(rows: Table, block: Hash, world: World, v: Verdict): Table {
    if block in rows && v.link.Some? && world.linkOk then rows[block := rows[block].(link := v.link)] else rows
  }

  /** The table when the task is over: its own row changes and no other. */
  ghost function Settled(rows: Table, block: Hash, world: World, v: Verdict): Table {
    if block !in rows then rows
    else
      var row := rows[block];
      rows[block := Row(row.wallet,
                        if world.bookOk then v.reward else row.reward,
                        if world.bookOk then v.status else row.status,
                        if v.link.Some? && world.linkOk then v.link else row.link)]
  }

  /** The attempt has a chain to walk. */
  predicate Answered(world: World, rows: Table, block: Hash, a: nat) {
    && a < |world.answers| && world.answers[a].Some? && world.answers[a].value != []
    && block in rows
  }

  /** The first attempt and the first chain block in it that settle the task. */
  ghost predicate FoundAt(node: Node, world: World, rows: Table, block: Hash, a: nat, i: nat) {
    && Answered(world, rows, block, a) && FirstMerge(node, world, a, block, world.answers[a].value, i)
    && NotBefore(node, world, rows, block, a)
  }

  /** No attempt before a settles the task. */
  ghost predicate NotBefore(node: Node, world: World, rows: Table, block: Hash, a: nat) {
    forall b: nat, j: nat :: b < a && Answered(world, rows, block, b) ==>
      !FirstMerge(node, world, b, block, world.answers[b].value, j)
  }

  lemma FoundOnce(node: Node, world: World, rows: Table, block: Hash, a: nat, i: nat, b: nat, j: nat)
    requires FoundAt(node, world, rows, block, a, i) && FoundAt(node, world, rows, block, b, j)
    ensures a == b && i == j
  {
  }

  // ---------- The steps that a task performs ----------

  ghost function WalkSteps(node: Node, world: World, t: nat, a: nat, block: Hash, wallet: Wallet, rows: Table, chain: seq<Hash>, i: nat): seq<Step>
    decreases |chain| - i
  {
    if i >= |chain| then []
    else
      [Check(t, world.heard(a, i))] +
      if world.heard(a, i) && Merged(node, block, chain[i])
      then (if VerdictAt(node, rows, block, wallet, chain[i]).link.Some? then [Link(t, world.linkOk)] else [])
      else WalkSteps(node, world, t, a, block, wallet, rows, chain, i + 1)
  }

  /** What the walk from chain block i on decides. */
  ghost function WalkEnd(node: Node, world: World, a: nat, block: Hash, wallet: Wallet, rows: Table, chain: seq<Hash>, i: nat): Option<Verdict>
    decreases |chain| - i
  {
    if i >= |chain| then None
    else if world.heard(a, i) && Merged(node, block, chain[i]) then Some(VerdictAt(node, rows, block, wallet, chain[i]))
    else WalkEnd(node, world, a, block, wallet, rows, chain, i + 1)
  }

  /** The steps from attempt a to the end. */
  ghost function TaskSteps(node: Node, world: World, t: nat, block: Hash, rows: Table, a: nat): seq<Step>
    requires Complete(world)
    decreases MAX_ATTEMPTS - a
  {
    if a >= MAX_ATTEMPTS then [Book(t, world.bookOk)]
    else
      [Ask(t, world.answers[a])] +
      if !Answered(world, rows, block, a) then TaskSteps(node, world, t, block, rows, a + 1)
      else
        var chain, wallet := world.answers[a].value, rows[block].wallet;
        WalkSteps(node, world, t, a, block, wallet, rows, chain, 0) +
        if WalkEnd(node, world, a, block, wallet, rows, chain, 0).Some? then [Book(t, world.bookOk)]
        else TaskSteps(node, world, t, block, rows, a + 1)
  }

  lemma {:induction false} WalkEndsAtFirstMerge(node: Node, world: World, a: nat, block: Hash, wallet: Wallet, rows: Table,
                                                chain: seq<Hash>, i: nat, k: nat)
    requires k <= |chain| && forall j :: 0 <= j < k && world.heard(a, j) ==> !Merged(node, block, chain[j])
    ensures var end := WalkEnd(node, world, a, block, wallet, rows, chain, k);
            && (FirstMerge(node, world, a, block, chain, i) ==> end == Some(VerdictAt(node, rows, block, wallet, chain[i])))
            && (end.Some? ==> exists j: nat :: FirstMerge(node, world, a, block, chain, j))
    decreases |chain| - k
  {
    if k == |chain| {
    } else if world.heard(a, k) && Merged(node, block, chain[k]) {
      assert FirstMerge(node, world, a, block, chain, k);
    } else {
      WalkEndsAtFirstMerge(node, world, a, block, wallet, rows, chain, i, k + 1);
    }
  }

  // ---------- ... are the steps of the machine ----------

  lemma OneStep(node: Node, s: Ledger, step: Step, more: seq<Step>)
    ensures After(node, s, [step] + more) == After(node, Next(node, s, step), more)
  {
    AfterConcat(node, s, [step], more);
    assert [step][..0] == [];
    assert After(node, s, [step]) == Next(node, After(node, s, []), step);
  }

  lemma OnlyStep(node: Node, s: Ledger, step: Step)
    ensures After(node, s, [step]) == Next(node, s, step)
  {
    OneStep(node, s, step, []);
    assert [step] + [] == [step];
  }

  lemma CheckDecides(node: Node, t: nat, rest: map<nat, Task>, rows: Table, task: Task, heard: bool)
    requires task.Walking? && task.chain != []
    ensures var acc := task.chain[0];
            Next(node, Ledger(rows, rest[t := task]), Check(t, heard)) == Ledger(rows, rest[t :=
              if heard && Merged(node, task.block, acc) then
                var v := VerdictAt(node, rows, task.block, task.wallet, acc);
                if v.link.Some? then Linking(task.block, task.wallet, acc) else Booking(task.block, v.reward, v.status)
              else WalkOn(task.block, task.attempt, task.wallet, task.chain[1..])])
  {
    hide OtherLinked;
  }

  lemma LinkWrites(node: Node, t: nat, rest: map<nat, Task>, rows: Table, world: World, block: Hash, acc: Hash)
    requires block in rows
    requires VerdictAt(node, rows, block, rows[block].wallet, acc).link.Some?
    ensures var wallet := rows[block].wallet;
            var v := VerdictAt(node, rows, block, wallet, acc);
            Next(node, Ledger(rows, rest[t := Linking(block, wallet, acc)]), Link(t, world.linkOk))
            == Ledger(WithLink(rows, block, world, v), rest[t := Booking(block, v.reward, v.status)])
  {
  }

  /** The machine after the walk from chain block i on. */
  ghost function Walked(t: nat, rest: map<nat, Task>, rows: Table, block: Hash, a: nat, world: World, end: Option<Verdict>): Ledger {
    if end.Some? then Ledger(WithLink(rows, block, world, end.value), rest[t := Booking(block, end.value.reward, end.value.status)])
    else Ledger(rows, rest[t := Retry(block, a)])
  }

  lemma {:induction false} WalkFollowsMachine(node: Node, world: World, t: nat, rest: map<nat, Task>, a: nat, block: Hash, rows: Table, chain: seq<Hash>, i: nat)
    requires block in rows && i <= |chain|
    ensures var wallet := rows[block].wallet;
            After(node, Ledger(rows, rest[t := WalkOn(block, a, wallet, chain[i..])]), WalkSteps(node, world, t, a, block, wallet, rows, chain, i))
            == Walked(t, rest, rows, block, a, world, WalkEnd(node, world, a, block, wallet, rows, chain, i))
    decreases |chain| - i
  {
    var wallet := rows[block].wallet;
    if i == |chain| {
      assert chain[i..] == [];
    } else {
      var acc, heard := chain[i], world.heard(a, i);
      var task := Walking(block, a, wallet, chain[i..]);
      var more := WalkSteps(node, world, t, a, block, wallet, rows, chain, i)[1..];
      assert task.chain[0] == acc && task.chain[1..] == chain[i + 1..];
      assert WalkSteps(node, world, t, a, block, wallet, rows, chain, i) == [Check(t, heard)] + more;
      OneStep(node, Ledger(rows, rest[t := task]), Check(t, heard), more);
      CheckDecides(node, t, rest, rows, task, heard);
      if heard && Merged(node, block, acc) {
        hide After, Next;
        if VerdictAt(node, rows, block, wallet, acc).link.Some? {
          assert more == [Link(t, world.linkOk)];
          OnlyStep(node, Ledger(rows, rest[t := Linking(block, wallet, acc)]), Link(t, world.linkOk));
          LinkWrites(node, t, rest, rows, world, block, acc);
        } else {
          assert more == [];
          NoStep(node, Next(node, Ledger(rows, rest[t := task]), Check(t, heard)));
        }
      } else {
        hide After, Next;
        assert more == WalkSteps(node, world, t, a, block, wallet, rows, chain, i + 1);
        WalkFollowsMachine(node, world, t, rest, a, block, rows, chain, i + 1);
      }
    }
  }

  lemma NoStep(node: Node, s: Ledger)
    ensures After(node, s, []) == s
  {
  }

  /** The table that the steps from attempt a on leave. */
  ghost function TaskEnd(node: Node, world: World, block: Hash, rows: Table, a: nat): Verdict
    requires Complete(world)
    decreases MAX_ATTEMPTS - a
  {
    if a >= MAX_ATTEMPTS then NOT_FOUND
    else if !Answered(world, rows, block, a) then TaskEnd(node, world, block, rows, a + 1)
    else
      var end := WalkEnd(node, world, a, block, rows[block].wallet, rows, world.answers[a].value, 0);
      if end.Some? then end.value else TaskEnd(node, world, block, rows, a + 1)
  }

  /** The ledger at the start of attempt a. */
  ghost function AtAttempt(t: nat, rest: map<nat, Task>, rows: Table, block: Hash, a: nat): Ledger {
    Ledger(rows, rest[t := if a < MAX_ATTEMPTS then Asking(block, a) else Booking(block, 0, Red)])
  }

  lemma AskAnswers(node: Node, world: World, t: nat, rest: map<nat, Task>, block: Hash, rows: Table, a: nat)
    requires Complete(world) && a < MAX_ATTEMPTS
    ensures Next(node, AtAttempt(t, rest, rows, block, a), Ask(t, world.answers[a]))
         == if Answered(world, rows, block, a)
            then Ledger(rows, rest[t := Walking(block, a, rows[block].wallet, world.answers[a].value)])
            else AtAttempt(t, rest, rows, block, a + 1)
  {
  }

  lemma BookEnds(node: Node, world: World, t: nat, rest: map<nat, Task>, block: Hash, rows: Table, v: Verdict)
    requires t !in rest
    ensures Next(node, Ledger(WithLink(rows, block, world, v), rest[t := Booking(block, v.reward, v.status)]), Book(t, world.bookOk))
         == Ledger(Settled(rows, block, world, v), rest)
  {
  }

  /** Once a walk has decided, the final update is all that is left. */
  lemma DecidedFollowsMachine(node: Node, world: World, t: nat, rest: map<nat, Task>, block: Hash, rows: Table, a: nat, steps: seq<Step>, v: Verdict)
    requires Complete(world) && a < MAX_ATTEMPTS && Answered(world, rows, block, a) && t !in rest
    requires After(node, Ledger(rows, rest[t := Walking(block, a, rows[block].wallet, world.answers[a].value)]), steps)
          == Walked(t, rest, rows, block, a, world, Some(v))
    ensures After(node, AtAttempt(t, rest, rows, block, a), [Ask(t, world.answers[a])] + (steps + [Book(t, world.bookOk)]))
         == Ledger(Settled(rows, block, world, v), rest)
  {
    hide After, Next;
    var s := Ledger(rows, rest[t := Walking(block, a, rows[block].wallet, world.answers[a].value)]);
    OneStep(node, AtAttempt(t, rest, rows, block, a), Ask(t, world.answers[a]), steps + [Book(t, world.bookOk)]);
    AskAnswers(node, world, t, rest, block, rows, a);
    AfterConcat(node, s, steps, [Book(t, world.bookOk)]);
    OnlyStep(node, Walked(t, rest, rows, block, a, world, Some(v)), Book(t, world.bookOk));
    BookEnds(node, world, t, rest, block, rows, v);
  }

  /** A task's own steps, and no others, take the machine from its first attempt to its end. */
  lemma {:induction false} TaskFollowsMachine(node: Node, world: World, t: nat, rest: map<nat, Task>, block: Hash, rows: Table, a: nat)
    requires Complete(world) && a <= MAX_ATTEMPTS && t !in rest
    ensures After(node, AtAttempt(t, rest, rows, block, a), TaskSteps(node, world, t, block, rows, a))
         == Ledger(Settled(rows, block, world, TaskEnd(node, world, block, rows, a)), rest)
    decreases MAX_ATTEMPTS - a
  {
    hide After, Next;
    if a == MAX_ATTEMPTS {
      OnlyStep(node, AtAttempt(t, rest, rows, block, a), Book(t, world.bookOk));
      BookEnds(node, world, t, rest, block, rows, NOT_FOUND);
    } else if !Answered(world, rows, block, a) {
      OneStep(node, AtAttempt(t, rest, rows, block, a), Ask(t, world.answers[a]), TaskSteps(node, world, t, block, rows, a + 1));
      AskAnswers(node, world, t, rest, block, rows, a);
      TaskFollowsMachine(node, world, t, rest, block, rows, a + 1);
    } else {
      var chain, wallet := world.answers[a].value, rows[block].wallet;
      var walk := WalkSteps(node, world, t, a, block, wallet, rows, chain, 0);
      var end := WalkEnd(node, world, a, block, wallet, rows, chain, 0);
      var s := Ledger(rows, rest[t := Walking(block, a, wallet, chain)]);
      assert chain[0..] == chain;
      WalkFollowsMachine(node, world, t, rest, a, block, rows, chain, 0);
      if end.Some? {
        DecidedFollowsMachine(node, world, t, rest, block, rows, a, walk, end.value);
      } else {
        var later := TaskSteps(node, world, t, block, rows, a + 1);
        OneStep(node, AtAttempt(t, rest, rows, block, a), Ask(t, world.answers[a]), walk + later);
        AskAnswers(node, world, t, rest, block, rows, a);
        AfterConcat(node, s, walk, later);
        TaskFollowsMachine(node, world, t, rest, block, rows, a + 1);
      }
    }
  }

  // ---------- Every row gets its verdict, crashes or not ----------

  /** A new record and its task, among any other tasks, settle the row. */
  lemma {:induction false} RecordSettles(node: Node, world: World, s: Ledger, t: nat, block: Hash, wallet: Wallet)
    requires Complete(world) && t !in s.tasks
    ensures var rows := Inserted(s.rows, block, wallet);
            && block in rows
            && After(node, s, [Record(t, block, wallet)] + TaskSteps(node, world, t, block, rows, 0))
               == Ledger(Settled(rows, block, world, TaskEnd(node, world, block, rows, 0)), s.tasks)
  {
    var rows := Inserted(s.rows, block, wallet);
    OneStep(node, s, Record(t, block, wallet), TaskSteps(node, world, t, block, rows, 0));
    hide After;
    TaskFollowsMachine(node, world, t, s.tasks, block, rows, 0);
  }

  /** The re-run of a pending row, from any ledger: the task finds the row as it was left and gives
      it the verdict of the chain, and everything else stays as it was. */
  lemma RerunSettles(node: Node, world: World, s: Ledger, t: nat, block: Hash)
    requires Complete(world) && t !in s.tasks && block in s.rows && s.rows[block].status == Pending
    ensures After(node, s, [Rerun(t, block)] + TaskSteps(node, world, t, block, s.rows, 0))
         == Ledger(Settled(s.rows, block, world, TaskEnd(node, world, block, s.rows, 0)), s.tasks)
  {
    OneStep(node, s, Rerun(t, block), TaskSteps(node, world, t, block, s.rows, 0));
    hide After;
    TaskFollowsMachine(node, world, t, s.tasks, block, s.rows, 0);
  }

  /** The row of the block, in the words of the design: the payment and its link, a merge duplicate,
      blue without payment, or red; a link that is there stays there. */
  ghost predicate RowDecided(node: Node, rows: Table, block: Hash, acc: Hash, row: Row)
    requires block in rows
  {
    var was := rows[block];
    if block !in node.blues(acc) then row == Row(was.wallet, 0, Red, was.link)
    else if node.pays(acc, was.wallet) == 0 then row == Row(was.wallet, 0, Blue, was.link)
    else if OtherLinked(rows, was.wallet, acc, block) then row == Row(was.wallet, 0, MergeDuplicate, was.link)
    else row == Row(was.wallet, node.pays(acc, was.wallet), Blue, Some(acc))
  }

  lemma SettledIsDecided(node: Node, world: World, rows: Table, block: Hash, acc: Hash)
    requires block in rows && world.linkOk && world.bookOk
    ensures var rows' := Settled(rows, block, world, VerdictAt(node, rows, block, rows[block].wallet, acc));
            && rows'.Keys == rows.Keys && RowDecided(node, rows, block, acc, rows'[block])
            && forall b :: b in rows && b != block ==> rows'[b] == rows[b]
  {
    hide OtherLinked;
  }

  /** Crash recovery.  Whatever task t was doing for a pending row, once it has crashed a re-run with
      a working database books the verdict of the first merging chain block that it finds, and no
      other row changes.  In particular a crash between the link and the final update costs nothing:
      the row ends with the full payment and its link. */
  lemma CrashRecovers(node: Node, world: World, s: Ledger, t: nat, block: Hash, a: nat, i: nat)
    requires Complete(world) && world.linkOk && world.bookOk
    requires block in s.rows && s.rows[block].status == Pending && FoundAt(node, world, s.rows, block, a, i)
    ensures var end := After(node, s, [Crash(t)] + ([Rerun(t, block)] + TaskSteps(node, world, t, block, s.rows, 0)));
            && end.tasks == s.tasks - {t} && end.rows.Keys == s.rows.Keys
            && RowDecided(node, s.rows, block, world.answers[a].value[i], end.rows[block])
            && forall b :: b in s.rows && b != block ==> end.rows[b] == s.rows[b]
  {
    var s1 := Next(node, s, Crash(t));
    assert s1 == Ledger(s.rows, s.tasks - {t});
    OneStep(node, s, Crash(t), [Rerun(t, block)] + TaskSteps(node, world, t, block, s.rows, 0));
    assert Answered(world, s.rows, block, a) && i < |world.answers[a].value|;
    hide After, Next, TaskEnd, FoundAt, TaskSteps, RowDecided, Settled, VerdictAt;
    RerunSettles(node, world, s1, t, block);
    EndIsFound(node, world, block, s.rows);
    SettledIsDecided(node, world, s.rows, block, world.answers[a].value[i]);
  }

  lemma {:induction false} TaskEndsWhereFound(node: Node, world: World, block: Hash, rows: Table, a: nat, b: nat, i: nat)
    requires Complete(world) && a <= MAX_ATTEMPTS && NotBefore(node, world, rows, block, a)
    ensures FoundAt(node, world, rows, block, b, i) ==>
              TaskEnd(node, world, block, rows, a)
              == VerdictAt(node, rows, block, rows[block].wallet, world.answers[b].value[i])
    ensures TaskEnd(node, world, block, rows, a) == NOT_FOUND || exists b, i :: FoundAt(node, world, rows, block, b, i)
    decreases MAX_ATTEMPTS - a
  {
    hide VerdictAt, Merged;
    if a == MAX_ATTEMPTS {
    } else if !Answered(world, rows, block, a) {
      TaskEndsWhereFound(node, world, block, rows, a + 1, b, i);
    } else {
      var chain, wallet := world.answers[a].value, rows[block].wallet;
      WalkEndsAtFirstMerge(node, world, a, block, wallet, rows, chain, i, 0);
      if WalkEnd(node, world, a, block, wallet, rows, chain, 0).Some? {
        var j: nat :| FirstMerge(node, world, a, block, chain, j);
        assert FoundAt(node, world, rows, block, a, j);
        WalkEndsAtFirstMerge(node, world, a, block, wallet, rows, chain, j, 0);
        if FoundAt(node, world, rows, block, b, i) {
          FoundOnce(node, world, rows, block, a, j, b, i);
        }
      } else {
        forall j: nat
          ensures !FirstMerge(node, world, a, block, chain, j)
        {
          WalkEndsAtFirstMerge(node, world, a, block, wallet, rows, chain, j, 0);
        }
        TaskEndsWhereFound(node, world, block, rows, a + 1, b, i);
      }
    }
  }

  // ---------- The code as written ----------

  /** The scan over the chain of one attempt. */
  method WalkChain(db: MiningDB, node: Node, world: World, a: nat, block: Hash, wallet: Wallet, chain: seq<Hash>)
    returns (found: bool, reward: nat, status: Status)
    requires UniqueLinks(db.rows) && block in db.rows && db.rows[block].wallet == wallet
    modifies db
    ensures UniqueLinks(db.rows)
    ensures found <==> exists i: nat :: FirstMerge(node, world, a, block, chain, i)
    ensures forall i: nat :: FirstMerge(node, world, a, block, chain, i) ==>
              var v := VerdictAt(node, old(db.rows), block, wallet, chain[i]);
              reward == v.reward && status == v.status && db.rows == WithLink(old(db.rows), block, world, v)
    ensures !found ==> reward == 0 && status == Red && db.rows == old(db.rows)
  {
    found, reward, status := false, 0, Red;
    for i := 0 to |chain|
      invariant db.rows == old(db.rows) && !found && reward == 0 && status == Red
      invariant forall j :: 0 <= j < i && world.heard(a, j) ==> !Merged(node, block, chain[j])
    {
      var acc := chain[i];
      var booked := db.HasAcceptingBlockForWalletExcluding(wallet, acc, block);
      if !world.heard(a, i) {
        continue;
      }
      if block !in node.blues(acc) && block !in node.reds(acc) {
        continue;
      }
      assert FirstMerge(node, world, a, block, chain, i);
      MergesOnce(node, world, a, block, chain, i);
      if block !in node.blues(acc) {
        return true, 0, Red;
      }
      var totalAmount := node.pays(acc, wallet);
      if totalAmount == 0 {
        return true, 0, Blue;
      }
      if booked {
        return true, 0, MergeDuplicate;
      }
      if world.linkOk {
        var _ := db.SetAcceptingBlockHash(block, acc);
      }
      return true, totalAmount, Blue;
    }
  }

  lemma MergesOnce(node: Node, world: World, a: nat, block: Hash, chain: seq<Hash>, i: nat)
    requires FirstMerge(node, world, a, block, chain, i)
    ensures forall j: nat :: FirstMerge(node, world, a, block, chain, j) ==> j == i
  {
  }

  /** `fetchAndUpdateReward`: the verdict of the first chain block that the task hears of and that
      merged its block goes into its row, "red" with 0 when there is none, and no other row
      changes.  The machine, given the task's own steps, ends in the same table. */
  method FetchAndUpdateReward(db: MiningDB, node: Node, world: World, block: Hash)
    requires UniqueLinks(db.rows) && Complete(world)
    modifies db
    ensures UniqueLinks(db.rows)
    ensures forall a: nat, i: nat :: FoundAt(node, world, old(db.rows), block, a, i) ==>
              var wallet := old(db.rows)[block].wallet;
              var v := VerdictAt(node, old(db.rows), block, wallet, world.answers[a].value[i]);
              db.rows == Settled(old(db.rows), block, world, v)
    ensures (forall a: nat, i: nat :: !FoundAt(node, world, old(db.rows), block, a, i)) ==>
              db.rows == Settled(old(db.rows), block, world, NOT_FOUND)
    ensures After(node, Ledger(old(db.rows), map[0 := Asking(block, 0)]), TaskSteps(node, world, 0, block, old(db.rows), 0))
         == Ledger(db.rows, map[])
  {
    hide After, TaskSteps, FoundAt, FirstMerge, VerdictAt, UniqueLinks;
    var status, reward, found := Red, 0, false;
    ghost var rows := db.rows;
    ghost var verdict := NOT_FOUND;
    var attempt := 0;
    while attempt < MAX_ATTEMPTS && !found
      invariant 0 <= attempt <= MAX_ATTEMPTS && UniqueLinks(db.rows)
      invariant reward == verdict.reward && status == verdict.status && db.rows == WithLink(rows, block, world, verdict)
      invariant found ==> TaskEnd(node, world, block, rows, 0) == verdict
      invariant !found ==> verdict == NOT_FOUND && TaskEnd(node, world, block, rows, 0) == TaskEnd(node, world, block, rows, attempt)
    {
      var answer := world.answers[attempt];
      var origRecord := db.GetBlock(block);
      if answer.Some? && answer.value != [] && origRecord.Some? {
        found, reward, status := WalkChain(db, node, world, attempt, block, origRecord.value.wallet, answer.value);
        verdict := WalkVerdict(node, world, block, rows, attempt);
      }
      attempt := attempt + 1;
    }
    if world.bookOk {
      db.UpdateReward(block, reward, status);
    }
    EndIsFound(node, world, block, rows);
    TaskFollowsMachine(node, world, 0, map[], block, rows, 0);
  }

  /** What the walk of one attempt means for the task. */
  lemma WalkVerdict(node: Node, world: World, block: Hash, rows: Table, a: nat) returns (v: Verdict)
    requires Complete(world) && a < MAX_ATTEMPTS && Answered(world, rows, block, a)
    ensures var chain := world.answers[a].value;
            if exists i: nat :: FirstMerge(node, world, a, block, chain, i)
            then v == TaskEnd(node, world, block, rows, a)
                 && exists i: nat :: FirstMerge(node, world, a, block, chain, i)
                                     && v == VerdictAt(node, rows, block, rows[block].wallet, chain[i])
            else v == NOT_FOUND && TaskEnd(node, world, block, rows, a) == TaskEnd(node, world, block, rows, a + 1)
  {
    var chain, wallet := world.answers[a].value, rows[block].wallet;
    WalkEndsAtFirstMerge(node, world, a, block, wallet, rows, chain, 0, 0);
    if i: nat :| FirstMerge(node, world, a, block, chain, i) {
      WalkEndsAtFirstMerge(node, world, a, block, wallet, rows, chain, i, 0);
      v := VerdictAt(node, rows, block, wallet, chain[i]);
    } else {
      v := NOT_FOUND;
    }
  }

  lemma EndIsFound(node: Node, world: World, block: Hash, rows: Table)
    requires Complete(world)
    ensures forall a: nat, i: nat :: FoundAt(node, world, rows, block, a, i) ==>
              TaskEnd(node, world, block, rows, 0) == VerdictAt(node, rows, block, rows[block].wallet, world.answers[a].value[i])
    ensures (forall a: nat, i: nat :: !FoundAt(node, world, rows, block, a, i)) ==> TaskEnd(node, world, block, rows, 0) == NOT_FOUND
  {
    TaskEndsWhereFound(node, world, block, rows, 0, 0, 0);
    forall a: nat, i: nat | FoundAt(node, world, rows, block, a, i)
      ensures TaskEnd(node, world, block, rows, 0) == VerdictAt(node, rows, block, rows[block].wallet, world.answers[a].value[i])
    {
      TaskEndsWhereFound(node, world, block, rows, 0, a, i);
    }
  }
}
