/** The variable-difficulty tracker of one worker, after `startVardiffThread`, `updateVarDiff`,
    `startVarDiff` and `setClientVardiff` in src/htnstratum/share_handler.go.  Real arithmetic
    stands for float64, and times are minutes.  One pass of the thread over one worker is one
    atomic step. */
module VarDiff {
  import opened Basics

  const WINDOWS: seq<nat> := [1, 3, 10, 30, 60, 240, 0]
  const TOLERANCES: seq<real> := [1.0, 0.5, 0.25, 0.15, 0.1, 0.05, 0.05]
  const LEAST_DIFF := 0.00001

  datatype Tracker = Tracker(start: Option<real>, window: nat, shares: nat, minDiff: real)

  function Abs(x: real): real { if x < 0.0 then -x else x }
  function Max(x: real, y: real): real { if x < y then y else x }

  // ---------- The operations on one tracker ----------

  /** New difficulty, and the tracker stops. */
  function Updated(t: Tracker, minDiff: real): Tracker {
    t.(start := None, window := 0, minDiff := minDiff)
  }

  /** A stopped tracker starts with no shares counted. */
  function Started(t: Tracker, now: real): Tracker {
    if t.start.None? then t.(shares := 0, start := Some(now)) else t
  }

  function SetByClient(t: Tracker, minDiff: real, now: real): Tracker {
    Started(Updated(t, Max(minDiff, LEAST_DIFF)), now)
  }

  /** Shares per minute over the expected rate. */
  function Ratio(shares: nat, elapsed: real, rate: nat): real
    requires elapsed > 0.0 && rate > 0
  {
    shares as real / elapsed / rate as real
  }

  /** The ratio lies outside the tolerance of a window cleared earlier. */
  predicate Breached(ratio: real, window: nat)
    requires window <= 6
  {
    exists i :: 1 <= i < window && Abs(1.0 - ratio) >= TOLERANCES[i]
  }

  predicate TooMany(shares: nat, window: nat, rate: nat)
    requires window <= 6
  {
    shares as real >= (WINDOWS[window] * rate) as real * (1.0 + TOLERANCES[window])
  }

  predicate TooFew(shares: nat, window: nat, rate: nat)
    requires window <= 6
  {
    shares as real <= (WINDOWS[window] * rate) as real * (1.0 - TOLERANCES[window])
  }

  function Ticked(t: Tracker, now: real, rate: nat): Tracker
    requires rate > 0 && t.window <= 6 && (t.start.Some? ==> now > t.start.value)
  {
    if t.start.None? then t
    else
      var elapsed := now - t.start.value;
      var ratio := Ratio(t.shares, elapsed, rate);
      if t.window == 6 then
        if Abs(1.0 - ratio) >= TOLERANCES[6] then Updated(t, t.minDiff * ratio) else t
      else if Breached(ratio, t.window) || TooMany(t.shares, t.window, rate) then Updated(t, t.minDiff * ratio)
      else if elapsed < WINDOWS[t.window] as real then t
      else if TooFew(t.shares, t.window, rate) then Updated(t, t.minDiff * Max(ratio, 0.1))
      else t.(window := t.window + 1)
  }

  // ---------- The thread and the client handler as written ----------

  /** The tracker's fields in the source's `WorkStats`. */
  class VarDiffStats {
    var varDiffStartTime: Option<real>
    var varDiffSharesFound: nat
    var varDiffWindow: nat
    var minDiff: real

    ghost function View(): Tracker
      reads this
    {
      Tracker(varDiffStartTime, varDiffWindow, varDiffSharesFound, minDiff)
    }

    constructor ()
      ensures View() == Tracker(None, 0, 0, 0.0)
    {
      varDiffStartTime, varDiffWindow, varDiffSharesFound, minDiff := None, 0, 0, 0.0;
    }

    method UpdateVarDiff(newDiff: real) returns (previousMinDiff: real)
      modifies this
      ensures varDiffStartTime.None? && varDiffWindow == 0 && minDiff == newDiff
      ensures varDiffSharesFound == old(varDiffSharesFound)
      ensures View() == Updated(old(View()), newDiff) && previousMinDiff == old(minDiff)
    {
      varDiffStartTime := None;
      varDiffWindow := 0;
      previousMinDiff := minDiff;
      minDiff := newDiff;
    }

    method StartVarDiff(now: real)
      modifies this
      ensures old(varDiffStartTime).None? ==> varDiffStartTime == Some(now) && varDiffSharesFound == 0
      ensures old(varDiffStartTime).Some? ==> View() == old(View())
      ensures varDiffWindow == old(varDiffWindow) && minDiff == old(minDiff)
      ensures View() == Started(old(View()), now)
    {
      if varDiffStartTime.None? {
        varDiffSharesFound := 0;
        varDiffStartTime := Some(now);
      }
    }

    method SetClientVardiff(newDiff: real, now: real) returns (previousMinDiff: real)
      modifies this
      ensures varDiffStartTime == Some(now) && varDiffWindow == 0 && varDiffSharesFound == 0
      ensures minDiff >= newDiff && minDiff >= 0.00001 && (minDiff == newDiff || minDiff == 0.00001)
      ensures View() == SetByClient(old(View()), newDiff, now) && previousMinDiff == old(minDiff)
    {
      previousMinDiff := UpdateVarDiff(Max(newDiff, LEAST_DIFF));
      StartVarDiff(now);
    }

    /** The body of the thread's loop for one worker. */
    method Tick(now: real, expectedShareRate: nat)
      requires expectedShareRate > 0 && varDiffWindow <= 6
      requires varDiffStartTime.Some? ==> now > varDiffStartTime.value
      modifies this
      ensures View() == Ticked(old(View()), now, expectedShareRate)
    {
      hide Ratio;
      hide Breached;
      hide TooMany;
      hide TooFew;
      if varDiffStartTime.None? {
        return;
      }
      var diff := minDiff;
      var shares := varDiffSharesFound;
      var duration := now - varDiffStartTime.value;
      var shareRateRatio := Ratio(shares, duration, expectedShareRate);
      var window := WINDOWS[varDiffWindow];
      if window == 0 {
        if Abs(1.0 - shareRateRatio) >= TOLERANCES[varDiffWindow] {
          var _ := UpdateVarDiff(diff * shareRateRatio);
        }
        return;
      }
      var i := FirstBreach(shareRateRatio, varDiffWindow);
      if i < varDiffWindow {
        var _ := UpdateVarDiff(diff * shareRateRatio);
        return;
      }
      if TooMany(shares, varDiffWindow, expectedShareRate) {
        var _ := UpdateVarDiff(diff * shareRateRatio);
        return;
      }
      if duration >= window as real {
        if TooFew(shares, varDiffWindow, expectedShareRate) {
          var _ := UpdateVarDiff(diff * Max(shareRateRatio, 0.1));
          return;
        }
        varDiffWindow := varDiffWindow + 1;
      }
    }
  }

  /** The scan over the windows cleared earlier; it stops at the first breach. */
  method FirstBreach(ratio: real, window: nat) returns (i: nat)
    requires window <= 6
    ensures i < window <==> Breached(ratio, window)
  {
    i := 1;
    while i < window && Abs(1.0 - ratio) < TOLERANCES[i]
      invariant 1 <= i && (i <= window || i == 1)
      invariant forall k :: 1 <= k < i ==> Abs(1.0 - ratio) < TOLERANCES[k]
    {
      i := i + 1;
    }
  }

  // ---------- Runs ----------

  /** Share is the environment's step: nothing in the repository counts shares into the tracker. */
  datatype Action = Share | Tick | Restart | SetDiff(minDiff: real)

  /** An action and the positive time that passes before it. */
  datatype Event = Event(gap: real, action: Action)

  datatype Clocked = Clocked(tracker: Tracker, clock: real)

  ghost predicate Sane(c: Clocked) {
    var t := c.tracker;
    && t.window <= 6
    && (t.start.None? ==> t.window == 0)
    && (t.start.Some? ==> t.start.value <= c.clock)
    && (t.window > 0 ==> t.shares >= 1)
  }

  ghost function Next(c: Clocked, e: Event, rate: nat): Clocked
    requires rate > 0 && e.gap > 0.0 && Sane(c)
  {
    var now := c.clock + e.gap;
    match e.action
    case Share => Clocked(c.tracker.(shares := c.tracker.shares + 1), now)
    case Tick => Clocked(Ticked(c.tracker, now, rate), now)
    case Restart => Clocked(Started(c.tracker, now), now)
    case SetDiff(minDiff) => Clocked(SetByClient(c.tracker, minDiff, now), now)
  }

  /** The only way out of window 0 is a counted share. */
  lemma StepKeepsSane(c: Clocked, e: Event, rate: nat)
    requires rate > 0 && e.gap > 0.0 && Sane(c)
    ensures Sane(Next(c, e, rate))
  {
    if e.action.Tick? && c.tracker.window == 0 && c.tracker.shares == 0 {
      assert TooFew(0, 0, rate) by {
        assert (WINDOWS[0] * rate) as real * (1.0 - TOLERANCES[0]) == 0.0;
      }
    }
  }

  ghost function Run(c: Clocked, events: seq<Event>, rate: nat): (r: Clocked)
    requires rate > 0 && Sane(c) && forall i :: 0 <= i < |events| ==> events[i].gap > 0.0
    ensures Sane(r)
  {
    if events == [] then c
    else
      var before := Run(c, events[..|events| - 1], rate);
      StepKeepsSane(before, events[|events| - 1], rate);
      Next(before, events[|events| - 1], rate)
  }

  lemma RatioPositive(shares: nat, elapsed: real, rate: nat)
    requires elapsed > 0.0 && rate > 0
    ensures shares > 0 ==> Ratio(shares, elapsed, rate) > 0.0
  {
    if shares > 0 {
      var perMinute := shares as real / elapsed;
      assert perMinute > 0.0;
    }
  }

  lemma TooManyIsSome(shares: nat, window: nat, rate: nat)
    requires window < 6 && rate > 0 && TooMany(shares, window, rate)
    ensures shares > 0
  {
    var expected := (WINDOWS[window] * rate) as real;
    assert WINDOWS[window] >= 1;
    assert WINDOWS[window] * rate >= 1;
    assert expected * (1.0 + TOLERANCES[window]) >= expected;
  }

  lemma BreachedLater(ratio: real, window: nat)
    requires window <= 6 && Breached(ratio, window)
    ensures window > 1
  {
  }

  /** Every adjustment multiplies the difficulty by a positive factor. */
  lemma TickScales(t: Tracker, now: real, rate: nat) returns (factor: real)
    requires rate > 0 && t.window <= 6 && (t.start.Some? ==> now > t.start.value) && (t.window > 0 ==> t.shares >= 1)
    ensures factor > 0.0 && Ticked(t, now, rate).minDiff == t.minDiff * factor
  {
    hide Ratio, Breached, TooMany, TooFew;
    factor := 1.0;
    if t.start.Some? {
      var elapsed := now - t.start.value;
      var ratio := Ratio(t.shares, elapsed, rate);
      RatioPositive(t.shares, elapsed, rate);
      if t.window == 6 {
        factor := if Abs(1.0 - ratio) >= TOLERANCES[6] then ratio else 1.0;
      } else if Breached(ratio, t.window) {
        BreachedLater(ratio, t.window);
        factor := ratio;
      } else if TooMany(t.shares, t.window, rate) {
        TooManyIsSome(t.shares, t.window, rate);
        factor := ratio;
      } else if elapsed >= WINDOWS[t.window] as real && TooFew(t.shares, t.window, rate) {
        factor := Max(ratio, 0.1);
      }
    }
  }

  lemma ScalingKeepsSign(x: real, factor: real)
    requires factor > 0.0
    ensures x * factor > 0.0 <==> x > 0.0
    ensures x >= 0.0 ==> x * factor >= 0.0
  {
    if x <= 0.0 {
      assert (-x) * factor >= 0.0;
    }
  }

  lemma StepSign(c: Clocked, e: Event, rate: nat)
    requires rate > 0 && e.gap > 0.0 && Sane(c) && c.tracker.minDiff >= 0.0
    ensures var diff := Next(c, e, rate).tracker.minDiff;
            diff >= 0.0 && (diff > 0.0 <==> c.tracker.minDiff > 0.0 || e.action.SetDiff?)
  {
    if e.action.Tick? {
      hide Ticked;
      var factor := TickScales(c.tracker, c.clock + e.gap, rate);
      ScalingKeepsSign(c.tracker.minDiff, factor);
    }
  }

  lemma SetInPrefixOrLast(events: seq<Event>)
    requires events != []
    ensures var n := |events| - 1;
            (exists i :: 0 <= i < |events| && events[i].action.SetDiff?)
            <==> events[n].action.SetDiff? || exists i :: 0 <= i < n && events[..n][i].action.SetDiff?
  {
    var n := |events| - 1;
    if i :| 0 <= i < n && events[..n][i].action.SetDiff? {
      assert events[i].action.SetDiff?;
    }
    if i :| 0 <= i < |events| && events[i].action.SetDiff? {
      assert i < n ==> events[..n][i].action.SetDiff?;
    }
  }

  /** Over every run: the difficulty is positive exactly when it was positive at the start or the
      client handler has set it since. */
  lemma {:induction false} DifficultyPositive(c: Clocked, events: seq<Event>, rate: nat)
    requires rate > 0 && Sane(c) && (forall i :: 0 <= i < |events| ==> events[i].gap > 0.0)
    requires c.tracker.minDiff >= 0.0
    ensures var diff := Run(c, events, rate).tracker.minDiff;
            && diff >= 0.0
            && (diff > 0.0 <==> c.tracker.minDiff > 0.0 || exists i :: 0 <= i < |events| && events[i].action.SetDiff?)
  {
    hide Next, Sane;
    if events == [] {
    } else {
      var n := |events| - 1;
      var prefix, last := events[..n], events[n];
      DifficultyPositive(c, prefix, rate);
      SetInPrefixOrLast(events);
      StepSign(Run(c, prefix, rate), last, rate);
    }
  }

  /** The fresh tracker of a new worker: window, stop and share invariants over every run. */
  lemma {:induction false} RunsStaySane(events: seq<Event>, rate: nat, clock: real)
    requires rate > 0 && forall i :: 0 <= i < |events| ==> events[i].gap > 0.0
    ensures var newborn := Clocked(Tracker(None, 0, 0, 0.0), clock);
            && Sane(newborn)
            && var t := Run(newborn, events, rate).tracker;
               && 0 <= t.window <= 6
               && (t.start.None? ==> t.window == 0)
               && (t.window > 0 ==> t.shares >= 1)
               && (t.minDiff > 0.0 <==> exists i :: 0 <= i < |events| && events[i].action.SetDiff?)
  {
    DifficultyPositive(Clocked(Tracker(None, 0, 0, 0.0), clock), events, rate);
  }

  // ---------- No share is ever counted ----------

  lemma RatioOfNone(elapsed: real, rate: nat)
    requires elapsed > 0.0 && rate > 0
    ensures Ratio(0, elapsed, rate) == 0.0
  {
    assert 0.0 / elapsed == 0.0;
  }

  /** Without the environment's shares the tracker never leaves window 0, and the first tick a
      minute or more after its start cuts the difficulty to a tenth and stops it. */
  lemma {:induction false} ShareFreeRuns(c: Clocked, events: seq<Event>, rate: nat, now: real)
    requires rate > 0 && Sane(c) && c.tracker.shares == 0
    requires forall i :: 0 <= i < |events| ==> events[i].gap > 0.0 && !events[i].action.Share?
    ensures var t := Run(c, events, rate).tracker;
            && t.shares == 0 && t.window == 0
            && (t.start.Some? && now > t.start.value ==>
                  Ticked(t, now, rate) == if now - t.start.value < 1.0 then t else Updated(t, t.minDiff * 0.1))
  {
    if events == [] {
    } else {
      ShareFreeRuns(c, events[..|events| - 1], rate, now);
    }
    var t := Run(c, events, rate).tracker;
    assert t.shares == 0 && t.window == 0;
    if t.start.Some? && now > t.start.value {
      var elapsed := now - t.start.value;
      RatioOfNone(elapsed, rate);
      assert TooFew(0, 0, rate) by {
        assert (WINDOWS[0] * rate) as real * (1.0 - TOLERANCES[0]) == 0.0;
      }
      FewIsNotMany(0, 0, rate);
    }
  }

  /** The difficulty that the client handler set last, or the one at the start. */
  function LastSet(c: Clocked, events: seq<Event>): real {
    if events == [] then c.tracker.minDiff
    else
      var last := events[|events| - 1].action;
      if last.SetDiff? then Max(last.minDiff, LEAST_DIFF) else LastSet(c, events[..|events| - 1])
  }

  /** The ticks since then that found the tracker a minute or more old. */
  ghost function Cuts(c: Clocked, events: seq<Event>, rate: nat): nat
    requires rate > 0 && Sane(c) && forall i :: 0 <= i < |events| ==> events[i].gap > 0.0
  {
    if events == [] then 0
    else
      var n := |events| - 1;
      if events[n].action.SetDiff? then 0
      else Cuts(c, events[..n], rate) + if events[n].action.Tick? && Due(Run(c, events[..n], rate), events[n].gap) then 1 else 0
  }

  /** The tracker runs, and is a minute old once the gap has passed. */
  predicate Due(c: Clocked, gap: real) {
    c.tracker.start.Some? && c.clock + gap - c.tracker.start.value >= 1.0
  }

  function Tenths(k: nat): (r: real)
    ensures r > 0.0
  {
    if k == 0 then 1.0 else Tenths(k - 1) * 0.1
  }

  lemma ShareFreeStep(c: Clocked, e: Event, rate: nat)
    requires rate > 0 && e.gap > 0.0 && Sane(c) && c.tracker.shares == 0 && !e.action.Share?
    ensures var t := Next(c, e, rate).tracker;
            && t.shares == 0
            && t.minDiff == match e.action
                            case SetDiff(d) => Max(d, LEAST_DIFF)
                            case Tick => if Due(c, e.gap) then c.tracker.minDiff * 0.1 else c.tracker.minDiff
                            case _ => c.tracker.minDiff
  {
    if e.action.Tick? {
      ShareFreeRuns(c, [], rate, c.clock + e.gap);
      hide Ticked;
    }
  }

  lemma TenthMore(x: real, k: nat)
    ensures x * Tenths(k) * 0.1 == x * Tenths(k + 1)
  {
  }

  /** After any share-free run the difficulty is the last one set, cut to a tenth once for every
      tick since then that found the tracker a minute old. */
  lemma {:induction false} ShareFreeDifficulty(c: Clocked, events: seq<Event>, rate: nat)
    requires rate > 0 && Sane(c) && c.tracker.shares == 0
    requires forall i :: 0 <= i < |events| ==> events[i].gap > 0.0 && !events[i].action.Share?
    ensures Run(c, events, rate).tracker.shares == 0
    ensures Run(c, events, rate).tracker.minDiff == LastSet(c, events) * Tenths(Cuts(c, events, rate))
  {
    hide Next, Sane, Due;
    if events == [] {
      TenthsOfNone(c.tracker.minDiff);
    } else {
      var n := |events| - 1;
      var before := Run(c, events[..n], rate);
      ShareFreeDifficulty(c, events[..n], rate);
      ShareFreeStep(before, events[n], rate);
      hide Tenths;
      if events[n].action.SetDiff? {
        TenthsOfNone(Max(events[n].action.minDiff, LEAST_DIFF));
      } else {
        TenthMore(LastSet(c, events[..n]), Cuts(c, events[..n], rate));
      }
    }
  }

  lemma TenthsOfNone(x: real)
    ensures x * Tenths(0) == x
  {
  }

  /** Started at the floor, cut and restarted k times. */
  ghost function CutRun(k: nat): (events: seq<Event>)
    ensures forall i :: 0 <= i < |events| ==> events[i].gap > 0.0 && !events[i].action.Share?
    ensures events != []
  {
    if k == 0 then [Event(1.0, SetDiff(LEAST_DIFF))]
    else CutRun(k - 1) + [Event(1.0, Tick)] + [Event(1.0, Restart)]
  }

  lemma RunOneMore(c: Clocked, events: seq<Event>, e: Event, rate: nat)
    requires rate > 0 && Sane(c) && e.gap > 0.0 && forall i :: 0 <= i < |events| ==> events[i].gap > 0.0
    ensures Run(c, events + [e], rate) == Next(Run(c, events, rate), e, rate)
  {
    assert (events + [e])[..|events|] == events;
  }

  lemma CutAndRestart(c: Clocked, rate: nat)
    requires rate > 0 && Sane(c) && c.tracker.shares == 0 && c.tracker.start == Some(c.clock)
    ensures var ticked := Next(c, Event(1.0, Tick), rate);
            && Sane(ticked)
            && var end := Next(ticked, Event(1.0, Restart), rate);
               && end.tracker.start == Some(end.clock) && end.tracker.shares == 0
               && end.tracker.minDiff == c.tracker.minDiff * 0.1
  {
    ShareFreeRuns(c, [], rate, c.clock + 1.0);
    StepKeepsSane(c, Event(1.0, Tick), rate);
    hide Ticked;
  }

  /** Running, with no shares, and at the given difficulty. */
  ghost predicate RunsAt(c: Clocked, diff: real) {
    c.tracker.start == Some(c.clock) && c.tracker.shares == 0 && c.tracker.minDiff == diff
  }

  lemma CutOnce(c: Clocked, events: seq<Event>, rate: nat, diff: real)
    requires rate > 0 && Sane(c) && forall i :: 0 <= i < |events| ==> events[i].gap > 0.0
    requires RunsAt(Run(c, events, rate), diff)
    ensures RunsAt(Run(c, events + [Event(1.0, Tick)] + [Event(1.0, Restart)], rate), diff * 0.1)
  {
    RunOneMore(c, events, Event(1.0, Tick), rate);
    RunOneMore(c, events + [Event(1.0, Tick)], Event(1.0, Restart), rate);
    hide Run, Next;
    CutAndRestart(Run(c, events, rate), rate);
  }

  lemma StartsAtFloor(c: Clocked, rate: nat)
    requires rate > 0 && Sane(c)
    ensures RunsAt(Run(c, CutRun(0), rate), LEAST_DIFF)
  {
    assert CutRun(0) == [] + [Event(1.0, SetDiff(LEAST_DIFF))];
    RunOneMore(c, [], Event(1.0, SetDiff(LEAST_DIFF)), rate);
  }

  /** The floor of the client handler is not kept: for every k some share-free run ends at the floor
      times 0.1 to the k. */
  lemma {:induction false} FloorIsNotKept(c: Clocked, rate: nat, k: nat)
    requires rate > 0 && Sane(c) && c.tracker.shares == 0
    ensures RunsAt(Run(c, CutRun(k), rate), LEAST_DIFF * Tenths(k))
  {
    hide Run, Next, Sane, Tenths, RunsAt;
    if k == 0 {
      StartsAtFloor(c, rate);
      TenthsOfNone(LEAST_DIFF);
    } else {
      FloorIsNotKept(c, rate, k - 1);
      TenthMore(LEAST_DIFF, k - 1);
      CutOnce(c, CutRun(k - 1), rate, LEAST_DIFF * Tenths(k - 1));
    }
  }

  // ---------- The size of a lower adjustment ----------

  lemma QuotientAtMost(a: real, b: real, c: real)
    requires b > 0.0 && a <= c * b
    ensures a / b <= c
  {
  }

  lemma ProductNotNegative(a: real, b: real)
    requires a >= 0.0 && b >= 0.0
    ensures a * b >= 0.0
  {
  }

  lemma Reordered(w: real, r: real, slack: real)
    ensures (w * r) * slack == (slack * r) * w
  {
  }

  lemma GrowsWith(k: real, a: real, b: real)
    requires k >= 0.0 && a <= b
    ensures k * a <= k * b
  {
    ProductNotNegative(k, b - a);
  }

  lemma SmallQuotient(s: real, w: real, r: real, slack: real, e: real)
    requires w > 0.0 && r > 0.0 && slack >= 0.0 && e >= w && s <= (w * r) * slack
    ensures s / e / r <= slack
  {
    ProductNotNegative(slack, r);
    Reordered(w, r, slack);
    GrowsWith(slack * r, w, e);
    QuotientAtMost(s, e, slack * r);
    QuotientAtMost(s / e, r, slack);
  }

  lemma ProductAsReal(a: nat, b: nat)
    ensures (a * b) as real == a as real * b as real
  {
  }

  lemma FewSharesSmallRatio(shares: nat, window: nat, elapsed: real, rate: nat)
    requires window < 6 && rate > 0 && elapsed >= WINDOWS[window] as real && TooFew(shares, window, rate)
    ensures elapsed > 0.0 && Ratio(shares, elapsed, rate) <= 1.0 - TOLERANCES[window]
  {
    var w, slack := WINDOWS[window], 1.0 - TOLERANCES[window];
    assert w >= 1 && slack >= 0.0;
    ProductAsReal(w, rate);
    SmallQuotient(shares as real, w as real, rate as real, slack, elapsed);
  }

  /** Too few shares for a full window: the difficulty falls to between a tenth and 95 percent. */
  lemma LowerAdjustment(t: Tracker, now: real, rate: nat)
    requires rate > 0 && t.window < 6 && t.start.Some? && now > t.start.value && t.minDiff >= 0.0
    requires now - t.start.value >= WINDOWS[t.window] as real && TooFew(t.shares, t.window, rate)
    requires !Breached(Ratio(t.shares, now - t.start.value, rate), t.window)
    ensures var t' := Ticked(t, now, rate);
            t'.start.None? && t.minDiff / 10.0 <= t'.minDiff <= 0.95 * t.minDiff
  {
    var elapsed := now - t.start.value;
    var factor := Max(Ratio(t.shares, elapsed, rate), 0.1);
    FewSharesSmallRatio(t.shares, t.window, elapsed, rate);
    assert !TooMany(t.shares, t.window, rate) by {
      FewIsNotMany(t.shares, t.window, rate);
    }
    assert 0.1 <= factor <= 0.95;
    ProductNotNegative(t.minDiff, factor - 0.1);
    ProductNotNegative(t.minDiff, 0.95 - factor);
  }

  lemma QuotientAtLeast(a: real, b: real, c: real)
    requires b > 0.0 && a >= c * b
    ensures a / b >= c
  {
  }

  lemma LargeQuotient(s: real, w: real, r: real, excess: real, e: real)
    requires e > 0.0 && r > 0.0 && excess >= 0.0 && e <= w && s >= (w * r) * excess
    ensures s / e / r >= excess
  {
    ProductNotNegative(excess, r);
    Reordered(w, r, excess);
    GrowsWith(excess * r, e, w);
    QuotientAtLeast(s, e, excess * r);
    QuotientAtLeast(s / e, r, excess);
  }

  lemma ManySharesLargeRatio(shares: nat, window: nat, elapsed: real, rate: nat)
    requires window < 6 && rate > 0 && 0.0 < elapsed <= WINDOWS[window] as real && TooMany(shares, window, rate)
    ensures Ratio(shares, elapsed, rate) >= 1.0 + TOLERANCES[window]
  {
    var w := WINDOWS[window];
    ProductAsReal(w, rate);
    LargeQuotient(shares as real, w as real, rate as real, 1.0 + TOLERANCES[window], elapsed);
  }

  /** Too many shares before the window is over: the difficulty rises by its tolerance or more. */
  lemma UpperAdjustment(t: Tracker, now: real, rate: nat)
    requires rate > 0 && t.window < 6 && t.start.Some? && now > t.start.value && t.minDiff >= 0.0
    requires now - t.start.value <= WINDOWS[t.window] as real && TooMany(t.shares, t.window, rate)
    ensures var t' := Ticked(t, now, rate);
            t'.start.None? && t'.minDiff >= t.minDiff * (1.0 + TOLERANCES[t.window])
  {
    var elapsed := now - t.start.value;
    ManySharesLargeRatio(t.shares, t.window, elapsed, rate);
    hide Ratio, TooMany, Breached, TooFew;
    GrowsWith(t.minDiff, 1.0 + TOLERANCES[t.window], Ratio(t.shares, elapsed, rate));
  }

  lemma FewIsNotMany(shares: nat, window: nat, rate: nat)
    requires window < 6 && rate > 0 && TooFew(shares, window, rate)
    ensures !TooMany(shares, window, rate)
  {
    var expected, tolerance := (WINDOWS[window] * rate) as real, TOLERANCES[window];
    assert WINDOWS[window] * rate >= 1 by {
      assert WINDOWS[window] >= 1;
    }
    assert expected * tolerance > 0.0;
    assert expected * (1.0 - tolerance) == expected - expected * tolerance;
    assert expected * (1.0 + tolerance) == expected + expected * tolerance;
  }

  // ---------- What a tick does, case by case ----------

  /** The tracker is running and the tick comes after its start. */
  ghost predicate Running(t: Tracker, now: real, rate: nat) {
    rate > 0 && t.window <= 6 && t.start.Some? && now > t.start.value
  }

  /** How far the rate is off, 0 being the expected one. */
  ghost function Deviation(t: Tracker, now: real, rate: nat): real
    requires Running(t, now, rate)
  {
    Abs(1.0 - Ratio(t.shares, now - t.start.value, rate))
  }

  ghost function Expected(w: nat, rate: nat): real
    requires w <= 6
  {
    (WINDOWS[w] * rate) as real
  }

  /** A window cleared within its bounds is left for the next, and nothing else changes. */
  lemma ClearedWindowAdvances(t: Tracker, now: real, rate: nat)
    requires Running(t, now, rate) && t.window < 6 && now - t.start.value >= WINDOWS[t.window] as real
    requires forall i :: 1 <= i < t.window ==> Deviation(t, now, rate) < TOLERANCES[i]
    requires Expected(t.window, rate) * (1.0 - TOLERANCES[t.window]) < t.shares as real
    requires t.shares as real < Expected(t.window, rate) * (1.0 + TOLERANCES[t.window])
    ensures Ticked(t, now, rate) == Tracker(t.start, t.window + 1, t.shares, t.minDiff)
  {
    hide Ratio;
  }

  /** An unfinished window without an excess waits. */
  lemma UnfinishedWindowWaits(t: Tracker, now: real, rate: nat)
    requires Running(t, now, rate) && t.window < 6 && now - t.start.value < WINDOWS[t.window] as real
    requires forall i :: 1 <= i < t.window ==> Deviation(t, now, rate) < TOLERANCES[i]
    requires t.shares as real < Expected(t.window, rate) * (1.0 + TOLERANCES[t.window])
    ensures Ticked(t, now, rate) == t
  {
    hide Ratio;
  }

  /** A breach of an earlier window, or an excess in this one, rescales by the ratio and stops. */
  lemma BreachRescales(t: Tracker, now: real, rate: nat)
    requires Running(t, now, rate) && t.window < 6
    requires || (exists i :: 1 <= i < t.window && Deviation(t, now, rate) >= TOLERANCES[i])
             || t.shares as real >= Expected(t.window, rate) * (1.0 + TOLERANCES[t.window])
    ensures Ticked(t, now, rate) == Tracker(None, 0, t.shares, t.minDiff * Ratio(t.shares, now - t.start.value, rate))
  {
    hide Ratio;
  }

  /** The final stage rescales exactly when the rate is off by five percent or more. */
  lemma FinalStage(t: Tracker, now: real, rate: nat)
    requires Running(t, now, rate) && t.window == 6
    ensures Ticked(t, now, rate)
         == if Deviation(t, now, rate) < 0.05 then t
            else Tracker(None, 0, t.shares, t.minDiff * Ratio(t.shares, now - t.start.value, rate))
  {
    hide Ratio;
  }

  // ---------- Workers on rate ----------

  lemma QuotientAbove(a: real, b: real, c: real)
    requires b > 0.0 && a / b > c
    ensures a > c * b
  {
  }

  lemma ProductAbove(s: real, w: real, r: real, e: real, slack: real)
    requires w > 0.0 && r > 0.0 && e >= w && slack <= 0.95 && s / e / r > 0.95
    ensures s > (w * r) * slack
  {
    QuotientAbove(s / e, r, 0.95);
    QuotientAbove(s, e, 0.95 * r);
    GrowsWith(0.95 * r, w, e);
    Reordered(w, r, 0.95);
    ProductNotNegative(w, r);
    GrowsWith(w * r, slack, 0.95);
  }

  lemma EnoughShares(shares: nat, window: nat, elapsed: real, rate: nat)
    requires window < 6 && rate > 0 && elapsed >= WINDOWS[window] as real && elapsed > 0.0
    requires Abs(1.0 - Ratio(shares, elapsed, rate)) < 0.05
    ensures shares as real > Expected(window, rate) * (1.0 - TOLERANCES[window])
  {
    var w, slack := WINDOWS[window], 1.0 - TOLERANCES[window];
    assert w >= 1 && slack <= 0.95;
    ProductAsReal(w, rate);
    ProductAbove(shares as real, w as real, rate as real, elapsed, slack);
  }

  /** The rate is within five percent, and the window's excess is not reached. */
  ghost predicate OnRate(t: Tracker, now: real, rate: nat) {
    && Running(t, now, rate) && Deviation(t, now, rate) < 0.05
    && (t.window < 6 ==> t.shares as real < Expected(t.window, rate) * (1.0 + TOLERANCES[t.window]))
  }

  /** On rate, a tick only ever moves the window, and moves it exactly when its time is up. */
  lemma OnRateTick(t: Tracker, now: real, rate: nat)
    requires OnRate(t, now, rate)
    ensures Ticked(t, now, rate)
         == t.(window := if t.window < 6 && now - t.start.value >= WINDOWS[t.window] as real then t.window + 1 else t.window)
  {
    hide Ticked, Deviation, Expected;
    assert forall i :: 1 <= i < t.window ==> Deviation(t, now, rate) < TOLERANCES[i];
    if t.window == 6 {
      FinalStage(t, now, rate);
    } else if now - t.start.value >= WINDOWS[t.window] as real {
      DeviationIsRatio(t, now, rate);
      EnoughShares(t.shares, t.window, now - t.start.value, rate);
      ClearedWindowAdvances(t, now, rate);
    } else {
      UnfinishedWindowWaits(t, now, rate);
    }
  }

  lemma DeviationIsRatio(t: Tracker, now: real, rate: nat)
    requires Running(t, now, rate)
    ensures Deviation(t, now, rate) == Abs(1.0 - Ratio(t.shares, now - t.start.value, rate))
  {
  }

  /** Every tick of the run finds the worker on rate, and nobody restarts or sets anything. */
  ghost predicate OnRateRun(c: Clocked, events: seq<Event>, rate: nat)
    requires rate > 0 && Sane(c) && forall i :: 0 <= i < |events| ==> events[i].gap > 0.0
    decreases |events|
  {
    events != [] ==>
      var n := |events| - 1;
      && OnRateRun(c, events[..n], rate)
      && (events[n].action.Share? || events[n].action.Tick?)
      && (var before := Run(c, events[..n], rate);
          events[n].action.Tick? ==> OnRate(before.tracker, before.clock + events[n].gap, rate))
  }

  /** A worker on rate is left alone: through any run its start and its difficulty stay, and its
      window never falls. */
  lemma {:induction false} OnRateKeepsDifficulty(c: Clocked, events: seq<Event>, rate: nat)
    requires rate > 0 && Sane(c) && forall i :: 0 <= i < |events| ==> events[i].gap > 0.0
    requires OnRateRun(c, events, rate)
    ensures var t := Run(c, events, rate).tracker;
            t.start == c.tracker.start && t.minDiff == c.tracker.minDiff && t.window >= c.tracker.window
  {
    hide OnRate, Ticked;
    if events == [] {
    } else {
      var n := |events| - 1;
      var before := Run(c, events[..n], rate);
      OnRateKeepsDifficulty(c, events[..n], rate);
      if events[n].action.Tick? {
        OnRateTick(before.tracker, before.clock + events[n].gap, rate);
      }
    }
  }

  // ---------- A worker at the expected rate ----------

  /** The windows whose time is up after n minutes. */
  function Level(n: nat): nat {
    if n < 1 then 0 else if n < 3 then 1 else if n < 10 then 2 else if n < 30 then 3
    else if n < 60 then 4 else if n < 240 then 5 else 6
  }

  /** The even distance at which `rate` shares and a tick fill a minute. */
  function Beat(rate: nat): (g: real)
    ensures g > 0.0
  {
    1.0 / (rate + 1) as real
  }

  lemma BeatsFillMinute(rate: nat)
    ensures rate as real * Beat(rate) + Beat(rate) == 1.0
  {
    var d := (rate + 1) as real;
    assert d * (1.0 / d) == 1.0;
  }

  ghost function ShareBeats(rate: nat, k: nat): (events: seq<Event>)
    ensures |events| == k && forall i :: 0 <= i < k ==> events[i] == Event(Beat(rate), Share)
  {
    seq(k, i => Event(Beat(rate), Share))
  }

  ghost function Minute(rate: nat): (events: seq<Event>)
    ensures forall i :: 0 <= i < |events| ==> events[i].gap > 0.0
  {
    ShareBeats(rate, rate) + [Event(Beat(rate), Tick)]
  }

  lemma BeatMore(k: nat, g: real)
    ensures (k + 1) as real * g == k as real * g + g
  {
  }

  lemma {:induction false} SharesCounted(c: Clocked, rate: nat, k: nat)
    requires rate > 0 && Sane(c)
    ensures Run(c, ShareBeats(rate, k), rate)
         == Clocked(c.tracker.(shares := c.tracker.shares + k), c.clock + k as real * Beat(rate))
  {
    hide Beat;
    if k == 0 {
    } else {
      SharesCounted(c, rate, k - 1);
      assert ShareBeats(rate, k) == ShareBeats(rate, k - 1) + [Event(Beat(rate), Share)];
      RunOneMore(c, ShareBeats(rate, k - 1), Event(Beat(rate), Share), rate);
      BeatMore(k - 1, Beat(rate));
    }
  }

  lemma MinuteRuns(c: Clocked, rate: nat)
    requires rate > 0 && Sane(c)
    ensures var t := c.tracker.(shares := c.tracker.shares + rate);
            && (t.start.Some? ==> c.clock + 1.0 > t.start.value)
            && Run(c, Minute(rate), rate) == Clocked(Ticked(t, c.clock + 1.0, rate), c.clock + 1.0)
  {
    BeatsFillMinute(rate);
    hide Beat, Ticked;
    var g, b := Beat(rate), rate as real * Beat(rate);
    assert c.clock + b + g == c.clock + 1.0;
    SharesCounted(c, rate, rate);
    var mid := Run(c, ShareBeats(rate, rate), rate);
    assert mid.clock + g == c.clock + 1.0;
    RunOneMore(c, ShareBeats(rate, rate), Event(g, Tick), rate);
    hide Run;
  }

  ghost function Minutes(rate: nat, n: nat): (events: seq<Event>)
    ensures forall i :: 0 <= i < |events| ==> events[i].gap > 0.0
  {
    if n == 0 then [] else Minutes(rate, n - 1) + Minute(rate)
  }

  lemma {:induction false} RunConcat(c: Clocked, a: seq<Event>, b: seq<Event>, rate: nat)
    requires rate > 0 && Sane(c)
    requires (forall i :: 0 <= i < |a| ==> a[i].gap > 0.0) && (forall i :: 0 <= i < |b| ==> b[i].gap > 0.0)
    ensures Run(c, a + b, rate) == Run(Run(c, a, rate), b, rate)
  {
    hide Next, Sane;
    if b == [] {
      assert a + b == a;
    } else {
      var n := |b| - 1;
      assert (a + b)[..|a + b| - 1] == a + b[..n];
      RunConcat(c, a, b[..n], rate);
    }
  }

  lemma QuotientOfProduct(a: real, r: real)
    requires a > 0.0 && r > 0.0
    ensures (a * r) / a / r == 1.0
  {
    assert (a * r) / a == r;
  }

  lemma RatioIsOne(m: nat, rate: nat)
    requires m > 0 && rate > 0
    ensures Ratio(m * rate, m as real, rate) == 1.0
  {
    ProductAsReal(m, rate);
    QuotientOfProduct(m as real, rate as real);
  }

  lemma BelowExcess(m: nat, w: nat, rate: nat)
    requires w < 6 && rate > 0 && m <= WINDOWS[w]
    ensures (m * rate) as real < Expected(w, rate) * (1.0 + TOLERANCES[w])
  {
    var expected := Expected(w, rate);
    assert WINDOWS[w] >= 1 && TOLERANCES[w] > 0.0;
    assert m * rate <= WINDOWS[w] * rate && WINDOWS[w] * rate >= 1;
    assert expected * (1.0 + TOLERANCES[w]) == expected + expected * TOLERANCES[w];
    assert expected * TOLERANCES[w] > 0.0;
  }

  lemma ExpectedTick(t: Tracker, start: real, rate: nat, n: nat)
    requires rate > 0 && t.start == Some(start) && t.window == Level(n) && t.shares == (n + 1) * rate
    ensures start + (n + 1) as real > start
    ensures Ticked(t, start + (n + 1) as real, rate) == t.(window := Level(n + 1))
  {
    var now := start + (n + 1) as real;
    RatioIsOne(n + 1, rate);
    if t.window < 6 {
      BelowExcess(n + 1, t.window, rate);
    }
    hide Ratio, Expected, Ticked;
    assert now - start == (n + 1) as real;
    DeviationIsRatio(t, now, rate);
    OnRateTick(t, now, rate);
  }

  lemma SharesOfMinutes(n: nat, rate: nat)
    ensures n * rate + rate == (n + 1) * rate
  {
  }

  /** A worker that keeps the expected rate: after n minutes it is in the window that n minutes
      clear, the last one from minute 240 on, with its start and its difficulty unchanged. */
  lemma {:induction false} ExpectedRateReachesLastWindow(c: Clocked, rate: nat, n: nat)
    requires rate > 0 && c.tracker.start == Some(c.clock) && c.tracker.window == 0 && c.tracker.shares == 0
    ensures Sane(c)
    ensures Run(c, Minutes(rate, n), rate)
         == Clocked(Tracker(Some(c.clock), Level(n), n * rate, c.tracker.minDiff), c.clock + n as real)
    ensures n >= 240 ==> Run(c, Minutes(rate, n), rate).tracker.window == 6
  {
    hide Ticked, Next;
    if n == 0 {
    } else {
      ExpectedRateReachesLastWindow(c, rate, n - 1);
      var before := Run(c, Minutes(rate, n - 1), rate);
      RunConcat(c, Minutes(rate, n - 1), Minute(rate), rate);
      MinuteRuns(before, rate);
      SharesOfMinutes(n - 1, rate);
      ExpectedTick(before.tracker.(shares := n * rate), c.clock, rate, n - 1);
      assert before.clock + 1.0 == c.clock + n as real;
    }
  }
}
