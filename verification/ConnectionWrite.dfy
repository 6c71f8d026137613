/** The write and disconnect protocol of one connection, after `write`, `writeWithBackoff`,
    `Send`, `Reply` and `Disconnect` in src/gostratum/stratum_context.go.  Any number of
    goroutines interleave; every atomic operation is one step. */
module ConnectionWrite {

  const ATTEMPTS := 3

  datatype Result = Success | Disconnected | Error

  /** A `Send` or `Reply` by the atomic operation it performs next. */
  datatype Pc =
    | Begun
    | Trying(attempt: nat)
    | SettingDeadline
    | Writing
    | Releasing(result: Result)
    | Returned(result: Result)

  /** `late` records that the connection was already disconnecting when the call began. */
  datatype Call = Call(pc: Pc, late: bool, writes: nat)

  datatype DisconnectPc = Racing | Closing | Notifying | Finished

  datatype State = State(writeLock: bool, disconnecting: bool, notices: nat, calls: map<nat, Call>,
                         disconnects: map<nat, DisconnectPc>)

  const IDLE: State := State(false, false, 0, map[], map[])

  /** Do and Advance execute the next operation of one goroutine.  `ok` is what the outside world
      answers: the encoder, the deadline, the socket, the presence of a notice channel. */
  datatype Step = Enter(t: nat) | Do(t: nat, ok: bool) | EnterDisconnect(d: nat) | Advance(d: nat, ok: bool)

  /** One operation of a call, given the two flags as it sees them. */
  function Moved(pc: Pc, writeLock: bool, disconnecting: bool, ok: bool): Pc {
    match pc
    case Begun => if disconnecting then Returned(Disconnected) else if ok then Trying(0) else Returned(Error)
    case Trying(k) =>
      if !writeLock then SettingDeadline
      else if k + 1 < ATTEMPTS then Trying(k + 1)
      else Returned(Error)
    case SettingDeadline => if ok then Writing else Releasing(Error)
    case Writing => Releasing(if ok then Success else Error)
    case Releasing(r) => Returned(r)
    case Returned(_) => pc
  }

  function Next(s: State, step: Step): State {
    match step
    case Enter(t) =>
      if t in s.calls then s else s.(calls := s.calls[t := Call(Begun, s.disconnecting, 0)])
    case Do(t, ok) =>
      if t !in s.calls then s
      else
        var call := s.calls[t];
        var pc := Moved(call.pc, s.writeLock, s.disconnecting, ok);
        s.(writeLock := if call.pc.Trying? then true else if call.pc.Releasing? then false else s.writeLock,
           calls := s.calls[t := Call(pc, call.late, call.writes + if call.pc.Writing? then 1 else 0)])
    case EnterDisconnect(d) =>
      if d in s.disconnects then s else s.(disconnects := s.disconnects[d := Racing])
    case Advance(d, ok) =>
      if d !in s.disconnects then s
      else
        match s.disconnects[d]
        case Racing =>
          s.(disconnecting := true, disconnects := s.disconnects[d := if s.disconnecting then Finished else Closing])
        case Closing => s.(disconnects := s.disconnects[d := Notifying])
        case Notifying =>
          s.(notices := s.notices + if ok then 1 else 0, disconnects := s.disconnects[d := Finished])
        case Finished => s
  }

  function After(run: seq<Step>): State {
    if run == [] then IDLE else Next(After(run[..|run| - 1]), run[|run| - 1])
  }

  // ---------- The invariant ----------

  predicate Inside(pc: Pc) { pc.SettingDeadline? || pc.Writing? || pc.Releasing? }

  ghost predicate CallSound(call: Call, disconnecting: bool) {
    && (match call.pc
        case Releasing(r) => (r == Success ==> call.writes == 1) && call.writes <= 1 && r != Disconnected
        case Returned(r) => (r == Success ==> call.writes == 1) && (r == Disconnected ==> call.writes == 0) && call.writes <= 1
        case Trying(k) => k < ATTEMPTS && call.writes == 0
        case _ => call.writes == 0)
    && (call.late ==> disconnecting && (call.pc == Begun || call.pc == Returned(Disconnected)))
  }

  /** The lock is held exactly while one goroutine is inside. */
  ghost predicate Exclusive(s: State) {
    && (forall t, u :: t in s.calls && u in s.calls && Inside(s.calls[t].pc) && Inside(s.calls[u].pc) ==> t == u)
    && (s.writeLock <==> exists t :: t in s.calls && Inside(s.calls[t].pc))
  }

  predicate Winner(pc: DisconnectPc) { pc.Closing? || pc.Notifying? }

  /** At most one goroutine wins the disconnect, and it has not notified yet. */
  ghost predicate OneWinner(s: State) {
    && (forall d, e :: d in s.disconnects && e in s.disconnects && Winner(s.disconnects[d]) && Winner(s.disconnects[e]) ==> d == e)
    && (forall d :: d in s.disconnects && Winner(s.disconnects[d]) ==> s.notices == 0 && s.disconnecting)
    && s.notices <= 1
    && (s.notices == 1 ==> s.disconnecting)
  }

  ghost predicate Sound(s: State) {
    && (forall t :: t in s.calls ==> CallSound(s.calls[t], s.disconnecting))
    && Exclusive(s)
    && OneWinner(s)
  }

  lemma DoKeepsExclusive(s: State, t: nat, ok: bool)
    requires Exclusive(s) && t in s.calls
    ensures Exclusive(Next(s, Do(t, ok)))
  {
    var s' := Next(s, Do(t, ok));
    var pc, pc' := s.calls[t].pc, s'.calls[t].pc;
    assert forall u :: u in s'.calls && u != t ==> s'.calls[u] == s.calls[u];
    if exists u :: u in s.calls && Inside(s.calls[u].pc) {
      var u :| u in s.calls && Inside(s.calls[u].pc);
      if u != t {
        assert Inside(s'.calls[u].pc);
      }
    }
    if Inside(pc') {
      assert t in s'.calls;
    }
  }

  lemma OtherStepsKeepExclusive(s: State, step: Step)
    requires Exclusive(s) && (step.Do? ==> step.t !in s.calls)
    ensures Exclusive(Next(s, step))
  {
    var s' := Next(s, step);
    assert s'.writeLock == s.writeLock;
    assert forall t :: t in s.calls ==> t in s'.calls && s'.calls[t] == s.calls[t];
    assert forall t :: t in s'.calls && Inside(s'.calls[t].pc) ==> t in s.calls;
  }

  lemma StepKeepsSound(s: State, step: Step)
    requires Sound(s)
    ensures Sound(Next(s, step))
  {
    if step.Do? && step.t in s.calls {
      DoKeepsExclusive(s, step.t, step.ok);
    } else {
      OtherStepsKeepExclusive(s, step);
    }
    StepKeepsCalls(s, step);
    StepKeepsOneWinner(s, step);
  }

  lemma StepKeepsCalls(s: State, step: Step)
    requires forall t :: t in s.calls ==> CallSound(s.calls[t], s.disconnecting)
    ensures var s' := Next(s, step); forall t :: t in s'.calls ==> CallSound(s'.calls[t], s'.disconnecting)
  {
    var s' := Next(s, step);
    forall t | t in s'.calls
      ensures CallSound(s'.calls[t], s'.disconnecting)
    {
      if t in s.calls {
        assert CallSound(s.calls[t], s.disconnecting);
      }
    }
  }

  lemma StepKeepsOneWinner(s: State, step: Step)
    requires OneWinner(s)
    ensures OneWinner(Next(s, step))
  {
  }

  lemma {:induction false} RunKeepsSound(run: seq<Step>)
    ensures Sound(After(run))
  {
    if run == [] {
    } else {
      RunKeepsSound(run[..|run| - 1]);
      StepKeepsSound(After(run[..|run| - 1]), run[|run| - 1]);
    }
  }

  // ---------- The guarantees ----------

  /** Over every interleaving of any number of goroutines: at most one is inside the connection
      write, and the disconnect notice goes out at most once. */
  lemma {:induction false} WriteIsExclusive(run: seq<Step>, t: nat, u: nat)
    ensures var s := After(run);
            && s.notices <= 1
            && (t in s.calls && u in s.calls && Inside(s.calls[t].pc) && Inside(s.calls[u].pc) ==> t == u)
  {
    RunKeepsSound(run);
  }

  /** A call writes at most once, exactly once when it returns nil, and not at all when it began
      after the disconnect. */
  lemma {:induction false} WritesAtMostOnce(run: seq<Step>, t: nat)
    requires t in After(run).calls
    ensures var call := After(run).calls[t];
            && call.writes <= 1
            && (call.pc == Returned(Success) ==> call.writes == 1)
            && (call.pc == Returned(Disconnected) ==> call.writes == 0)
            && (call.late ==> call.writes == 0 && (call.pc == Begun || call.pc == Returned(Disconnected)))
  {
    RunKeepsSound(run);
    assert CallSound(After(run).calls[t], After(run).disconnecting);
  }

  /** Operations left before a call returns, at most. */
  function Rank(pc: Pc): nat {
    match pc
    case Begun => 7
    case Trying(k) => if k < ATTEMPTS then 6 - k else 4
    case SettingDeadline => 3
    case Writing => 2
    case Releasing(_) => 1
    case Returned(_) => 0
  }

  lemma EveryOperationProgresses(pc: Pc, writeLock: bool, disconnecting: bool, ok: bool)
    ensures pc.Returned? || Rank(Moved(pc, writeLock, disconnecting, ok)) < Rank(pc)
  {
  }

  /** Operations that the call has performed. */
  ghost function Performed(run: seq<Step>, t: nat): nat {
    if run == [] then 0
    else
      var before, last := run[..|run| - 1], run[|run| - 1];
      Performed(before, t) + if last.Do? && last.t == t && t in After(before).calls then 1 else 0
  }

  lemma {:induction false} RankBound(run: seq<Step>, t: nat)
    ensures t !in After(run).calls ==> Performed(run, t) == 0
    ensures t in After(run).calls && !After(run).calls[t].pc.Returned? ==> Rank(After(run).calls[t].pc) + Performed(run, t) <= 7
  {
    if run == [] {
    } else {
      var before, last := run[..|run| - 1], run[|run| - 1];
      var s := After(before);
      RankBound(before, t);
      if t in s.calls {
        EveryOperationProgresses(s.calls[t].pc, s.writeLock, s.disconnecting, last.Do? && last.ok);
      }
    }
  }

  /** Bounded retry: whatever the other goroutines do, a call returns after at most seven of its
      own operations. */
  lemma {:induction false} CallsAlwaysReturn(run: seq<Step>, t: nat)
    requires Performed(run, t) >= 7
    ensures t in After(run).calls && After(run).calls[t].pc.Returned?
  {
    RankBound(run, t);
  }

  // ---------- Calls and disconnects that nobody disturbs ----------

  /** The state after the first n operations of call t that succeed, from its entry. */
  function Undisturbed(s: State, t: nat, n: nat): State {
    if n == 0 then Next(s, Enter(t)) else Next(Undisturbed(s, t, n - 1), Do(t, true))
  }

  /** To a connected client and with the lock free, a call writes once, returns nil after six
      operations, leaves the lock free, and touches nothing else. */
  lemma UndisturbedCallWrites(s: State, t: nat)
    requires !s.disconnecting && !s.writeLock && t !in s.calls
    ensures Undisturbed(s, t, 5) == s.(calls := s.calls[t := Call(Returned(Success), false, 1)])
  {
    assert Undisturbed(s, t, 0) == s.(calls := s.calls[t := Call(Begun, false, 0)]);
    assert Undisturbed(s, t, 1) == s.(calls := s.calls[t := Call(Trying(0), false, 0)]);
    assert Undisturbed(s, t, 2) == s.(writeLock := true, calls := s.calls[t := Call(SettingDeadline, false, 0)]);
    assert Undisturbed(s, t, 3) == s.(writeLock := true, calls := s.calls[t := Call(Writing, false, 0)]);
    assert Undisturbed(s, t, 4) == s.(writeLock := true, calls := s.calls[t := Call(Releasing(Success), false, 1)]);
  }

  /** With the lock in other hands all the time, it gives up after three attempts without a write. */
  lemma BlockedCallGivesUp(s: State, t: nat)
    requires !s.disconnecting && s.writeLock && t !in s.calls
    ensures Undisturbed(s, t, 4) == s.(calls := s.calls[t := Call(Returned(Error), false, 0)])
  {
    assert Undisturbed(s, t, 0) == s.(calls := s.calls[t := Call(Begun, false, 0)]);
    assert Undisturbed(s, t, 1) == s.(calls := s.calls[t := Call(Trying(0), false, 0)]);
    assert Undisturbed(s, t, 2) == s.(calls := s.calls[t := Call(Trying(1), false, 0)]);
    assert Undisturbed(s, t, 3) == s.(calls := s.calls[t := Call(Trying(2), false, 0)]);
  }

  lemma LateCallIsRefused(s: State, t: nat)
    requires s.disconnecting && t !in s.calls
    ensures Undisturbed(s, t, 1) == s.(calls := s.calls[t := Call(Returned(Disconnected), true, 0)])
  {
    assert Undisturbed(s, t, 0) == s.(calls := s.calls[t := Call(Begun, true, 0)]);
  }

  /** A refused deadline and a failing socket: an error, with and without a write, and the lock is
      released either way. */
  lemma FailuresRelease(s: State, t: nat)
    requires t in s.calls && s.writeLock
    ensures s.calls[t].pc.SettingDeadline? ==>
              Next(Next(s, Do(t, false)), Do(t, true))
              == s.(writeLock := false, calls := s.calls[t := s.calls[t].(pc := Returned(Error))])
    ensures s.calls[t].pc.Writing? ==>
              Next(Next(s, Do(t, false)), Do(t, true))
              == s.(writeLock := false, calls := s.calls[t := s.calls[t].(pc := Returned(Error), writes := s.calls[t].writes + 1)])
  {
  }

  /** The first disconnect takes the flag, closes, and notifies when there is a channel; a later one
      changes nothing. */
  lemma DisconnectNotifies(s: State, d: nat, ok: bool)
    requires d !in s.disconnects
    ensures !s.disconnecting ==>
              Next(Next(Next(Next(s, EnterDisconnect(d)), Advance(d, true)), Advance(d, true)), Advance(d, ok))
              == s.(disconnecting := true, notices := s.notices + (if ok then 1 else 0), disconnects := s.disconnects[d := Finished])
    ensures s.disconnecting ==>
              Next(Next(s, EnterDisconnect(d)), Advance(d, ok)) == s.(disconnects := s.disconnects[d := Finished])
  {
    var s1 := Next(s, EnterDisconnect(d));
    assert s1 == s.(disconnects := s.disconnects[d := Racing]);
    if !s.disconnecting {
      var s2 := Next(s1, Advance(d, true));
      assert s2 == s.(disconnecting := true, disconnects := s.disconnects[d := Closing]);
      assert Next(s2, Advance(d, true)) == s.(disconnecting := true, disconnects := s.disconnects[d := Notifying]);
    }
  }

  // ---------- The retry loop as written ----------

  /** What one attempt meets: the lock in other hands, the deadline refused, the socket failing. */
  datatype Weather = Weather(busy: bool, deadline: bool, socket: bool)

  /** A call's path through the flags and answers that it sees, one pair per operation. */
  ghost function Follow(pc: Pc, seen: seq<(bool, bool)>): Pc {
    if seen == [] then pc
    else
      var last := seen[|seen| - 1];
      Moved(Follow(pc, seen[..|seen| - 1]), last.0, false, last.1)
  }

  lemma FollowNothing(pc: Pc)
    ensures Follow(pc, []) == pc
  {
  }

  lemma FollowOneMore(pc: Pc, seen: seq<(bool, bool)>, next: (bool, bool))
    ensures Follow(pc, seen + [next]) == Moved(Follow(pc, seen), next.0, false, next.1)
  {
    assert (seen + [next])[..|seen|] == seen;
  }

  /** What the operations of an attempt see: the lock, then the deadline, the socket and the
      release. */
  ghost function Operations(w: Weather): seq<(bool, bool)> {
    [(w.busy, true)] +
    if w.busy then []
    else [(true, w.deadline)] + ((if w.deadline then [(true, w.socket)] else []) + [(true, true)])
  }

  /** What the call sees from attempt k on: it goes on to the next attempt exactly when the lock
      is taken. */
  ghost function Path(weather: seq<Weather>, k: nat): seq<(bool, bool)>
    decreases |weather| - k
  {
    if k >= |weather| then []
    else Operations(weather[k]) + if weather[k].busy then Path(weather, k + 1) else []
  }

  lemma PathGoesOn(weather: seq<Weather>, seen: seq<(bool, bool)>, k: nat)
    requires k < |weather|
    ensures seen + Path(weather, k)
         == seen + Operations(weather[k]) + if weather[k].busy then Path(weather, k + 1) else []
  {
    hide Operations;
  }

  /** Where an attempt leads: the lock, then the deadline, the socket and the release. */
  ghost function Outcome(k: nat, w: Weather): Pc {
    if w.busy then (if k + 1 < ATTEMPTS then Trying(k + 1) else Returned(Error))
    else Returned(if w.deadline && w.socket then Success else Error)
  }

  lemma FollowAttempt(pc: Pc, seen: seq<(bool, bool)>, k: nat, w: Weather)
    requires Follow(pc, seen) == Trying(k)
    ensures Follow(pc, seen + Operations(w)) == Outcome(k, w)
  {
    hide Follow;
    var seen' := seen + [(w.busy, true)];
    FollowOneMore(pc, seen, (w.busy, true));
    if !w.busy {
      FollowOneMore(pc, seen', (true, w.deadline));
      seen' := seen' + [(true, w.deadline)];
      if w.deadline {
        FollowOneMore(pc, seen', (true, w.socket));
        seen' := seen' + [(true, w.socket)];
      }
      FollowOneMore(pc, seen', (true, true));
      seen' := seen' + [(true, true)];
    }
    assert seen' == seen + Operations(w);
  }

  /** Attempt k is the first that finds the lock free. */
  ghost predicate FirstFree(weather: seq<Weather>, k: nat) {
    k < |weather| && !weather[k].busy && forall i :: 0 <= i < k ==> weather[i].busy
  }

  /** Some attempt is the first to find the lock free, unless all find it taken. */
  lemma {:induction false} SomeFirstFree(weather: seq<Weather>, n: nat)
    requires n <= |weather| && exists k :: 0 <= k < n && !weather[k].busy
    ensures exists k: nat :: FirstFree(weather, k)
  {
    if n == 0 {
    } else if exists k :: 0 <= k < n - 1 && !weather[k].busy {
      SomeFirstFree(weather, n - 1);
    } else {
      assert FirstFree(weather, n - 1);
    }
  }

  lemma SuccessNeedsFree(weather: seq<Weather>)
    ensures (exists k: nat :: FirstFree(weather, k)) || forall k :: 0 <= k < |weather| ==> weather[k].busy
  {
    if exists k :: 0 <= k < |weather| && !weather[k].busy {
      SomeFirstFree(weather, |weather|);
    }
  }

  class Connection {
    var writeLock: bool
    var disconnecting: bool
    var written: nat
    var closed: bool
    var notices: nat

    constructor ()
      ensures !writeLock && !disconnecting && !closed && written == notices == 0
    {
      writeLock, disconnecting, written, closed, notices := false, false, 0, false, 0;
    }

    /** `Send` and `Reply`: nothing after the disconnect, an error when the encoding fails, and
        otherwise the retry loop. */
    method Send(encodes: bool, weather: seq<Weather>) returns (result: Result)
      requires |weather| == ATTEMPTS
      modifies this`writeLock, this`written
      ensures disconnecting ==> result == Disconnected && written == old(written)
      ensures !disconnecting && !encodes ==> result == Error && written == old(written)
      ensures !disconnecting && encodes ==>
                && Follow(Trying(0), Path(weather, 0)) == Returned(result)
                && (result == Success ==> written == old(written) + 1)
                && forall k: nat :: FirstFree(weather, k) ==> (result == Success <==> weather[k].deadline && weather[k].socket)
    {
      if disconnecting {
        return Disconnected;
      }
      if !encodes {
        return Error;
      }
      hide Follow, Path;
      result := WriteWithBackoff(weather);
      if result == Success {
        SuccessNeedsFree(weather);
      }
    }

    /** `Disconnect`: the first one closes the connection and, if there is a channel, notifies; any
        other does nothing. */
    method Disconnect(hasChannel: bool)
      modifies this`disconnecting, this`closed, this`notices
      ensures disconnecting
      ensures old(disconnecting) ==> closed == old(closed) && notices == old(notices)
      ensures !old(disconnecting) ==> closed && notices == old(notices) + if hasChannel then 1 else 0
    {
      if !disconnecting {
        disconnecting := true;
        closed := true;
        if hasChannel {
          notices := notices + 1;
        }
      }
    }

    /** `write`: one attempt.  The swap fails when another goroutine holds the lock; otherwise the
        lock is free again at the end, whatever the deadline and the socket say. */
    method Write(deadline: bool, socket: bool) returns (blocked: bool, result: Result)
      modifies this`writeLock, this`written
      ensures blocked <==> old(writeLock)
      ensures writeLock == old(writeLock) && result != Disconnected
      ensures written == old(written) + if !blocked && deadline then 1 else 0
      ensures result == Success <==> !blocked && deadline && socket
    {
      if writeLock {
        return true, Error;
      }
      writeLock := true;
      if !deadline {
        writeLock := false;
        return false, Error;
      }
      written := written + 1;
      writeLock := false;
      return false, if socket then Success else Error;
    }

    /** What the other goroutines do to the lock before an attempt. */
    method Interfere(busy: bool)
      modifies this`writeLock
      ensures writeLock == busy
    {
      writeLock := busy;
    }

    /** `writeWithBackoff` follows the machine from the first attempt to its return. */
    method WriteWithBackoff(weather: seq<Weather>) returns (result: Result)
      requires |weather| == ATTEMPTS
      modifies this`writeLock, this`written
      ensures Follow(Trying(0), Path(weather, 0)) == Returned(result)
      ensures forall k: nat :: FirstFree(weather, k) ==>
                && written == old(written) + (if weather[k].deadline then 1 else 0)
                && (result == Success <==> weather[k].deadline && weather[k].socket)
      ensures (forall k :: 0 <= k < ATTEMPTS ==> weather[k].busy) ==> result == Error && written == old(written)
      ensures result != Disconnected
    {
      hide Operations, Follow;
      ghost var seen := [];
      FollowNothing(Trying(0));
      for k := 0 to ATTEMPTS
        invariant written == old(written) && forall i :: 0 <= i < k ==> weather[i].busy
        invariant Path(weather, 0) == seen + Path(weather, k)
        invariant Follow(Trying(0), seen) == if k < ATTEMPTS then Trying(k) else Returned(Error)
      {
        Interfere(weather[k].busy);
        var blocked, r := Write(weather[k].deadline, weather[k].socket);
        PathGoesOn(weather, seen, k);
        FollowAttempt(Trying(0), seen, k, weather[k]);
        seen := seen + Operations(weather[k]);
        if !blocked {
          assert seen + [] == seen;
          assert FirstFree(weather, k);
          assert forall i: nat :: FirstFree(weather, i) ==> i == k;
          return r;
        }
      }
      assert seen + [] == seen;
      result := Error;
    }
  }
}
