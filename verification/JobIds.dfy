/** How `AddJob` (src/htnstratum/mining_state.go) draws its id.  The increment and the read of
    `jobCounter` come before the lock, and the block notifier adds jobs of one client from many
    goroutines (src/htnstratum/client_handler.go), so load, store and second load are three steps
    that interleave. */
module JobIds {

  /** An addition by what it has done to the counter. */
  datatype Pc = Entered | Loaded(v: nat) | Stored | Drawn(id: nat)

  datatype State = State(counter: nat, calls: map<nat, Pc>)

  datatype Step = Enter(t: nat) | Do(t: nat)

  const EMPTY: State := State(0, map[])

  function Next(s: State, step: Step): State {
    match step
    case Enter(t) => if t in s.calls then s else s.(calls := s.calls[t := Entered])
    case Do(t) =>
      if t !in s.calls then s
      else
        match s.calls[t]
        case Entered => s.(calls := s.calls[t := Loaded(s.counter)])
        case Loaded(v) => State(v + 1, s.calls[t := Stored])
        case Stored => s.(calls := s.calls[t := Drawn(s.counter)])
        case Drawn(_) => s
  }

  function After(s: State, run: seq<Step>): State {
    if run == [] then s else Next(After(s, run[..|run| - 1]), run[|run| - 1])
  }

  lemma {:induction false} AfterConcat(s: State, run: seq<Step>, more: seq<Step>)
    ensures After(s, run + more) == After(After(s, run), more)
  {
    hide Next;
    if more == [] {
      assert run + more == run;
    } else {
      var n := |more| - 1;
      assert (run + more)[..|run + more| - 1] == run + more[..n];
      AfterConcat(s, run, more[..n]);
    }
  }

  lemma OnlyStep(s: State, step: Step)
    ensures After(s, [step]) == Next(s, step)
  {
    assert [step][..0] == [];
  }

  // ---------- One at a time ----------

  predicate Between(pc: Pc) { pc.Loaded? || pc.Stored? }

  /** An addition starts on the counter only while no other is between its load and its id. */
  ghost predicate Serial(s: State, step: Step) {
    step.Do? && step.t in s.calls && s.calls[step.t].Entered? ==> forall u :: u in s.calls ==> !Between(s.calls[u])
  }

  ghost predicate SerialRun(run: seq<Step>)
    decreases |run|
  {
    run != [] ==> SerialRun(run[..|run| - 1]) && Serial(After(EMPTY, run[..|run| - 1]), run[|run| - 1])
  }

  ghost predicate DistinctIds(s: State) {
    forall t, u :: t in s.calls && u in s.calls && t != u && s.calls[t].Drawn? ==> s.calls[t] != s.calls[u]
  }

  ghost predicate Orderly(s: State) {
    && DistinctIds(s)
    && (forall t, u :: t in s.calls && u in s.calls && Between(s.calls[t]) && Between(s.calls[u]) ==> t == u)
    && (forall t :: t in s.calls && s.calls[t].Loaded? ==> s.calls[t].v == s.counter)
    && (forall t :: t in s.calls && s.calls[t].Drawn? ==> s.calls[t].id <= s.counter)
    && (forall t, u :: t in s.calls && u in s.calls && s.calls[t].Stored? && s.calls[u].Drawn? ==> s.calls[u].id < s.counter)
  }

  lemma StepKeepsOrderly(s: State, step: Step)
    requires Orderly(s) && Serial(s, step)
    ensures Orderly(Next(s, step))
  {
  }

  /** One addition at a time: no two ever share an id. */
  lemma {:induction false} SerialIdsDiffer(run: seq<Step>)
    requires SerialRun(run)
    ensures Orderly(After(EMPTY, run)) && DistinctIds(After(EMPTY, run))
  {
    if run == [] {
    } else {
      SerialIdsDiffer(run[..|run| - 1]);
      StepKeepsOrderly(After(EMPTY, run[..|run| - 1]), run[|run| - 1]);
    }
  }

  // ---------- Two at a time ----------

  ghost predicate UnderWay(s: State, t: nat) { t in s.calls && !s.calls[t].Drawn? }

  ghost predicate OnlyDoes(run: seq<Step>) {
    forall i :: 0 <= i < |run| ==> run[i].Do?
  }

  /** Some schedule of the additions that have begun gives two of them one id. */
  ghost predicate CanShare(s: State) {
    exists run :: OnlyDoes(run) && !DistinctIds(After(s, run))
  }

  /** The addition can be brought to the point before it reads its id, with the others at rest. */
  lemma BringToStored(s: State, t: nat) returns (run: seq<Step>)
    requires UnderWay(s, t)
    ensures OnlyDoes(run) && t in After(s, run).calls && After(s, run).calls[t].Stored?
    ensures forall u :: u in s.calls && u != t ==> u in After(s, run).calls && After(s, run).calls[u] == s.calls[u]
  {
    OnlyStep(s, Do(t));
    var s1 := Next(s, Do(t));
    OnlyStep(s1, Do(t));
    if s.calls[t].Stored? {
      run := [];
    } else if s.calls[t].Loaded? {
      run := [Do(t)];
    } else {
      run := [Do(t)] + [Do(t)];
      AfterConcat(s, [Do(t)], [Do(t)]);
    }
  }

  lemma BothRead(s: State, t: nat, u: nat)
    requires t in s.calls && u in s.calls && t != u && s.calls[t].Stored? && s.calls[u].Stored?
    ensures !DistinctIds(After(s, [Do(t)] + [Do(u)]))
  {
    AfterConcat(s, [Do(t)], [Do(u)]);
    OnlyStep(s, Do(t));
    OnlyStep(Next(s, Do(t)), Do(u));
    hide After;
    var end := Next(Next(s, Do(t)), Do(u));
    assert end.calls[t] == Drawn(s.counter) && end.calls[u] == Drawn(s.counter);
  }

  lemma OverlapShares(s: State, t: nat, u: nat)
    requires UnderWay(s, t) && UnderWay(s, u) && t != u
    ensures CanShare(s)
  {
    var first := BringToStored(s, t);
    var s1 := After(s, first);
    var second := BringToStored(s1, u);
    var s2 := After(s1, second);
    hide After;
    BothRead(s2, t, u);
    AfterConcat(s, first, second);
    AfterConcat(s, first + second, [Do(t)] + [Do(u)]);
    assert OnlyDoes(first + second + ([Do(t)] + [Do(u)]));
  }

  ghost predicate Alone(s: State) {
    forall t, u :: UnderWay(s, t) && UnderWay(s, u) ==> t == u
  }

  lemma {:induction false} AloneNeverShares(s: State, run: seq<Step>)
    requires Orderly(s) && Alone(s) && OnlyDoes(run)
    ensures Orderly(After(s, run)) && Alone(After(s, run))
  {
    if run == [] {
    } else {
      AloneNeverShares(s, run[..|run| - 1]);
      AloneStaysAlone(After(s, run[..|run| - 1]), run[|run| - 1]);
    }
  }

  lemma AloneStaysAlone(s: State, step: Step)
    requires Orderly(s) && Alone(s) && step.Do?
    ensures Orderly(Next(s, step)) && Alone(Next(s, step))
  {
    if step.t in s.calls && s.calls[step.t].Entered? {
      forall u | u in s.calls
        ensures !Between(s.calls[u])
      {
        assert UnderWay(s, step.t);
        assert Between(s.calls[u]) ==> UnderWay(s, u);
      }
    }
    StepKeepsOrderly(s, step);
    var s' := Next(s, step);
    assert forall t :: UnderWay(s', t) ==> UnderWay(s, t);
  }

  /** From an orderly state, two additions can come to share an id exactly when two of them are
      under way at once. */
  lemma SharingExactly(s: State)
    requires Orderly(s)
    ensures CanShare(s) <==> exists t, u :: UnderWay(s, t) && UnderWay(s, u) && t != u
  {
    if t, u :| UnderWay(s, t) && UnderWay(s, u) && t != u {
      OverlapShares(s, t, u);
    } else {
      assert Alone(s);
      forall run | OnlyDoes(run)
        ensures DistinctIds(After(s, run))
      {
        AloneNeverShares(s, run);
      }
    }
  }
}
