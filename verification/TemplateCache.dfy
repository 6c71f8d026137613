/** The block-template cache, after `GetBlockTemplate`, `invalidateGBTCache` and the sweep of
    `startCacheCleanupThread` in src/htnstratum/htnapi.go.  Lookups, node calls, stores,
    invalidations and sweeps of any number of goroutines interleave as atomic steps.  The payout
    address is an input: choosing between miner and bridge is not part of this model. */
module TemplateCache {
  import opened Basics

  /** The three texts for the extra data field, by what goes into them. */
  datatype ExtraData =
    | Voted(address: Wallet, worker: string, poll: int, vote: int)
    | Shared(address: Wallet)
    | PerWorker(address: Wallet, worker: string)

  datatype Request = Request(address: Wallet, extraData: ExtraData)

  /** A node answer, with the request that it answers and the number of invalidations before that
      request was sent. */
  datatype Template = Template(request: Request, content: nat, asked: nat)

  datatype Caller = Caller(address: Wallet, worker: string, poll: int, vote: int)

  function ExtraDataOf(ttl: nat, c: Caller): ExtraData {
    if c.poll != 0 && c.vote != 0 then Voted(c.address, c.worker, c.poll, c.vote)
    else if ttl > 0 then Shared(c.address)
    else PerWorker(c.address, c.worker)
  }

  /** What the caller would itself ask the node. */
  function RequestOf(ttl: nat, c: Caller): Request { Request(c.address, ExtraDataOf(ttl, c)) }

  predicate Votes(c: Caller) { c.poll != 0 && c.vote != 0 }

  /** Which callers ask the node the same: those of one address, unless they vote differently or,
      with the cache off, are different workers. */
  lemma RequestsCoincide(ttl: nat, c: Caller, d: Caller)
    ensures RequestOf(ttl, c) == RequestOf(ttl, d)
       <==> && c.address == d.address && (Votes(c) <==> Votes(d))
            && (Votes(c) ==> c.worker == d.worker && c.poll == d.poll && c.vote == d.vote)
            && (!Votes(c) && ttl == 0 ==> c.worker == d.worker)
  {
  }

  /** The decimal verb. */
  function Decimal(n: int): string
    decreases if n < 0 then 1 - n else n
  {
    if n < 0 then "-" + Decimal(-n)
    else if n < 10 then ["0123456789"[n]]
    else Decimal(n / 10) + ["0123456789"[n % 10]]
  }

  /** The three texts. */
  function TextOf(e: ExtraData, version: string): string {
    match e
    case Voted(a, w, p, v) =>
      "Mined by " + a + " via htn-stratum-bridge_" + version + " as worker " + w + " poll " + Decimal(p) + " vote " + Decimal(v)
    case Shared(a) => "Mined by " + a + " via htn-stratum-bridge version " + version
    case PerWorker(a, w) => "Mined by " + a + " via htn-stratum-bridge_" + version + " as worker " + w
  }

  /** The text as the branches build it. */
  method BuildExtraData(ttl: nat, c: Caller, version: string) returns (text: string)
    ensures text == TextOf(ExtraDataOf(ttl, c), version)
  {
    hide Decimal;
    if ttl > 0 {
      if c.poll != 0 && c.vote != 0 {
        text := "Mined by " + c.address + " via htn-stratum-bridge_" + version + " as worker " + c.worker
          + " poll " + Decimal(c.poll) + " vote " + Decimal(c.vote);
      } else {
        text := "Mined by " + c.address + " via htn-stratum-bridge version " + version;
      }
    } else {
      if c.poll != 0 && c.vote != 0 {
        text := "Mined by " + c.address + " via htn-stratum-bridge_" + version + " as worker " + c.worker
          + " poll " + Decimal(c.poll) + " vote " + Decimal(c.vote);
      } else {
        text := "Mined by " + c.address + " via htn-stratum-bridge_" + version + " as worker " + c.worker;
      }
    }
  }

  predicate UsesCache(ttl: nat, c: Caller) { ttl > 0 && c.poll == 0 && c.vote == 0 }

  datatype Entry = Entry(template: Template, fetchedAt: nat)

  type Cache = map<Wallet, Entry>

  /** The entry that a lookup at time `now` hits. */
  function Hit(ttl: nat, cache: Cache, address: Wallet, now: nat): Option<Entry> {
    if address in cache && now - cache[address].fetchedAt < ttl then Some(cache[address]) else None
  }

  function Swept(ttl: nat, cache: Cache, now: nat): Cache {
    map a | a in cache && now - cache[a].fetchedAt < ttl :: cache[a]
  }

  // ---------- The steps ----------

  datatype Call =
    | Looking(c: Caller)
    | Asking(c: Caller)
    | Awaiting(c: Caller, asked: nat)
    | Storing(c: Caller, template: Template)
    | Served(c: Caller, template: Template, hit: Option<Entry>, at: nat)
    | Failed(c: Caller)

  /** `nodeBusy` is the mutex around node calls, `epoch` the number of invalidations so far. */
  datatype State = State(now: nat, cache: Cache, calls: map<nat, Call>, nodeBusy: bool, epoch: nat)

  datatype Step =
    | Begin(t: nat, c: Caller)
    | Lookup(t: nat)
    | Ask(t: nat)
    | Answer(t: nat, content: Option<nat>)
    | Store(t: nat)
    | Invalidate
    | Sweep
    | Tick(d: nat)

  function Next(ttl: nat, s: State, step: Step): State {
    match step
    case Begin(t, c) =>
      if t in s.calls then s
      else s.(calls := s.calls[t := if UsesCache(ttl, c) then Looking(c) else Asking(c)])
    case Lookup(t) =>
      if t !in s.calls || !s.calls[t].Looking? then s
      else
        var c := s.calls[t].c;
        var hit := Hit(ttl, s.cache, c.address, s.now);
        s.(calls := s.calls[t := if hit.Some? then Served(c, hit.value.template, hit, s.now) else Asking(c)])
    case Ask(t) =>
      if t !in s.calls || !s.calls[t].Asking? || s.nodeBusy then s
      else s.(calls := s.calls[t := Awaiting(s.calls[t].c, s.epoch)], nodeBusy := true)
    case Answer(t, content) =>
      if t !in s.calls || !s.calls[t].Awaiting? then s
      else
        var c := s.calls[t].c;
        s.(nodeBusy := false, calls := s.calls[t :=
          if content.None? then Failed(c)
          else
            var template := Template(RequestOf(ttl, c), content.value, s.calls[t].asked);
            if UsesCache(ttl, c) then Storing(c, template) else Served(c, template, None, s.now)])
    case Store(t) =>
      if t !in s.calls || !s.calls[t].Storing? then s
      else
        var c, template := s.calls[t].c, s.calls[t].template;
        s.(cache := s.cache[c.address := Entry(template, s.now)], calls := s.calls[t := Served(c, template, None, s.now)])
    case Invalidate => if ttl == 0 then s else s.(cache := map[], epoch := s.epoch + 1)
    case Sweep => if ttl == 0 then s else s.(cache := Swept(ttl, s.cache, s.now))
    case Tick(d) => s.(now := s.now + d)
  }

  function After(ttl: nat, s: State, run: seq<Step>): State {
    if run == [] then s else Next(ttl, After(ttl, s, run[..|run| - 1]), run[|run| - 1])
  }

  const EMPTY: State := State(0, map[], map[], false, 0)

  lemma {:induction false} AfterFirst(ttl: nat, s: State, step: Step, more: seq<Step>)
    ensures After(ttl, s, [step] + more) == After(ttl, Next(ttl, s, step), more)
  {
    hide Next;
    if more == [] {
      assert [step] + more == [step] && [step][..0] == [];
    } else {
      var n := |more| - 1;
      assert ([step] + more)[..n + 1] == [step] + more[..n];
      AfterFirst(ttl, s, step, more[..n]);
    }
  }

  // ---------- Every template answers its caller's own request ----------

  ghost predicate CacheSound(ttl: nat, cache: Cache, now: nat) {
    forall a :: a in cache ==> cache[a].template.request == Request(a, Shared(a)) && cache[a].fetchedAt <= now && ttl > 0
  }

  ghost predicate CallSound(ttl: nat, call: Call, epoch: nat) {
    match call
    case Looking(c) => UsesCache(ttl, c)
    case Awaiting(_, asked) => asked <= epoch
    case Storing(c, template) => UsesCache(ttl, c) && template.request == RequestOf(ttl, c) && template.asked <= epoch
    case Served(c, template, hit, at) =>
      && template.request == RequestOf(ttl, c)
      && (hit.Some? ==> hit.value.template == template && hit.value.fetchedAt <= at < hit.value.fetchedAt + ttl)
    case _ => true
  }

  ghost predicate Sound(ttl: nat, s: State) {
    CacheSound(ttl, s.cache, s.now) && forall t :: t in s.calls ==> CallSound(ttl, s.calls[t], s.epoch)
  }

  lemma StepKeepsSound(ttl: nat, s: State, step: Step)
    requires Sound(ttl, s)
    ensures Sound(ttl, Next(ttl, s, step))
  {
    if step.Lookup? && step.t in s.calls && s.calls[step.t].Looking? {
      assert CallSound(ttl, s.calls[step.t], s.epoch);
    }
  }

  lemma {:induction false} RunKeepsSound(ttl: nat, s: State, run: seq<Step>)
    requires Sound(ttl, s)
    ensures Sound(ttl, After(ttl, s, run))
  {
    if run == [] {
    } else {
      RunKeepsSound(ttl, s, run[..|run| - 1]);
      StepKeepsSound(ttl, After(ttl, s, run[..|run| - 1]), run[|run| - 1]);
    }
  }

  /** Over every interleaving: a template handed out answers exactly the request that its caller
      would itself have sent, and a hit was stored less than one TTL before. */
  lemma {:induction false} ServedAnswersOwnRequest(ttl: nat, run: seq<Step>, t: nat)
    requires t in After(ttl, EMPTY, run).calls && After(ttl, EMPTY, run).calls[t].Served?
    ensures var call := After(ttl, EMPTY, run).calls[t];
            && call.template.request == RequestOf(ttl, call.c)
            && call.template.request.address == call.c.address
            && (call.hit.Some? ==>
                  && call.hit.value.template == call.template
                  && 0 <= call.at - call.hit.value.fetchedAt < ttl
                  && WasStored(ttl, EMPTY, run, call.c.address, call.hit.value))
  {
    RunKeepsSound(ttl, EMPTY, run);
    HitsWereStored(ttl, EMPTY, run);
  }

  /** Some step of the run stored the entry under the address, at the entry's own time. */
  ghost predicate WasStored(ttl: nat, s: State, run: seq<Step>, a: Wallet, e: Entry) {
    exists n :: 0 <= n < |run| && Stores(After(ttl, s, run[..n]), run[n], a, e)
  }

  ghost predicate Stores(s: State, step: Step, a: Wallet, e: Entry) {
    && step.Store? && step.t in s.calls && s.calls[step.t].Storing?
    && s.calls[step.t].c.address == a && e == Entry(s.calls[step.t].template, s.now)
  }

  /** The entry was there at the start, or the run stored it. */
  ghost predicate Known(ttl: nat, s: State, run: seq<Step>, a: Wallet, e: Entry) {
    (a in s.cache && s.cache[a] == e) || WasStored(ttl, s, run, a, e)
  }

  lemma KnownStaysKnown(ttl: nat, s: State, run: seq<Step>, a: Wallet, e: Entry)
    requires run != [] && Known(ttl, s, run[..|run| - 1], a, e)
    ensures Known(ttl, s, run, a, e)
  {
    var prefix := run[..|run| - 1];
    if n :| 0 <= n < |prefix| && Stores(After(ttl, s, prefix[..n]), prefix[n], a, e) {
      assert run[..n] == prefix[..n] && run[n] == prefix[n];
    }
  }

  lemma StoredNow(ttl: nat, s: State, run: seq<Step>, a: Wallet, e: Entry)
    requires run != [] && Stores(After(ttl, s, run[..|run| - 1]), run[|run| - 1], a, e)
    ensures WasStored(ttl, s, run, a, e)
  {
    assert 0 <= |run| - 1 < |run|;
  }

  ghost predicate OldCall(s: State, end: State, t: nat) {
    t in s.calls && t in end.calls && s.calls[t] == end.calls[t]
  }

  /** Every entry, and every hit served since the start, is known. */
  ghost predicate AllKnown(ttl: nat, s: State, run: seq<Step>, end: State) {
    && (forall a :: a in end.cache ==> Known(ttl, s, run, a, end.cache[a]))
    && (forall t :: t in end.calls && end.calls[t].Served? && end.calls[t].hit.Some? ==>
          OldCall(s, end, t) || Known(ttl, s, run, end.calls[t].c.address, end.calls[t].hit.value))
  }

  /** An entry after a step was there before, or the step stored it. */
  lemma EntryOrigin(ttl: nat, s: State, step: Step, a: Wallet)
    requires a in Next(ttl, s, step).cache
    ensures var e := Next(ttl, s, step).cache[a]; (a in s.cache && s.cache[a] == e) || Stores(s, step, a, e)
  {
  }

  /** A hit after a step was served before, or the step found it in the cache. */
  lemma HitOrigin(ttl: nat, s: State, step: Step, t: nat)
    requires var s' := Next(ttl, s, step); t in s'.calls && s'.calls[t].Served? && s'.calls[t].hit.Some?
    ensures var call := Next(ttl, s, step).calls[t];
            (t in s.calls && s.calls[t] == call) || (call.c.address in s.cache && s.cache[call.c.address] == call.hit.value)
  {
  }

  lemma {:induction false} HitsWereStored(ttl: nat, s: State, run: seq<Step>)
    ensures AllKnown(ttl, s, run, After(ttl, s, run))
  {
    hide Next, WasStored;
    if run == [] {
    } else {
      var prefix, last := run[..|run| - 1], run[|run| - 1];
      var before := After(ttl, s, prefix);
      var end := Next(ttl, before, last);
      HitsWereStored(ttl, s, prefix);
      hide After;
      forall a | a in end.cache
        ensures Known(ttl, s, run, a, end.cache[a])
      {
        EntryOrigin(ttl, before, last, a);
        if Stores(before, last, a, end.cache[a]) {
          StoredNow(ttl, s, run, a, end.cache[a]);
        } else {
          KnownStaysKnown(ttl, s, run, a, end.cache[a]);
        }
      }
      forall t | t in end.calls && end.calls[t].Served? && end.calls[t].hit.Some?
        ensures OldCall(s, end, t) || Known(ttl, s, run, end.calls[t].c.address, end.calls[t].hit.value)
      {
        HitOrigin(ttl, before, last, t);
        if !OldCall(s, end, t) {
          KnownStaysKnown(ttl, s, run, end.calls[t].c.address, end.calls[t].hit.value);
        }
      }
    }
  }

  // ---------- Invalidation ----------

  /** Whatever is served as a hit after an invalidation was stored after it. */
  lemma {:induction false} HitsAfterInvalidation(ttl: nat, s: State, run: seq<Step>, t: nat)
    requires ttl > 0
    requires var end := After(ttl, Next(ttl, s, Invalidate), run);
             t in end.calls && end.calls[t].Served? && end.calls[t].hit.Some? && t !in s.calls
    ensures var start := Next(ttl, s, Invalidate);
            var call := After(ttl, start, run).calls[t];
            WasStored(ttl, start, run, call.c.address, call.hit.value)
  {
    hide WasStored, After;
    HitsWereStored(ttl, Next(ttl, s, Invalidate), run);
  }

  /** The node has the call's request and the cache does not have its answer yet: the cache lock
      is free all that time. */
  predicate InFlight(ttl: nat, call: Call) { (call.Awaiting? || call.Storing?) && UsesCache(ttl, call.c) }

  /** A call begun after the invalidation is served, as a hit, a template that was requested before
      it. */
  ghost predicate StaleHit(ttl: nat, s: State, run: seq<Step>, t: nat) {
    var end := After(ttl, Next(ttl, s, Invalidate), run);
    && t in end.calls && t !in s.calls && end.calls[t].Served? && end.calls[t].hit.Some?
    && end.calls[t].hit.value.template.asked <= s.epoch
  }

  /** Nothing requested in epoch e or before is in the cache, on its way to it, or was handed out as
      a hit to a call that had not begun by then. */
  ghost predicate Renewed(ttl: nat, s: State, e: nat, begun: set<nat>) {
    && s.epoch > e
    && (forall a :: a in s.cache ==> s.cache[a].template.asked > e)
    && (forall t :: t in s.calls ==> CallRenewed(ttl, s.calls[t], e, t in begun))
  }

  ghost predicate CallRenewed(ttl: nat, call: Call, e: nat, was: bool) {
    match call
    case Awaiting(c, asked) => UsesCache(ttl, c) ==> asked > e
    case Storing(_, template) => template.asked > e
    case Served(_, _, hit, _) => !was && hit.Some? ==> hit.value.template.asked > e
    case _ => true
  }

  lemma StepKeepsRenewed(ttl: nat, s: State, step: Step, e: nat, begun: set<nat>)
    requires Renewed(ttl, s, e, begun)
    ensures Renewed(ttl, Next(ttl, s, step), e, begun)
  {
    hide RequestOf;
  }

  lemma {:induction false} RunKeepsRenewed(ttl: nat, s: State, run: seq<Step>, e: nat, begun: set<nat>)
    requires Renewed(ttl, s, e, begun)
    ensures Renewed(ttl, After(ttl, s, run), e, begun)
  {
    if run == [] {
    } else {
      RunKeepsRenewed(ttl, s, run[..|run| - 1], e, begun);
      StepKeepsRenewed(ttl, After(ttl, s, run[..|run| - 1]), run[|run| - 1], e, begun);
    }
  }

  /** When no request is in flight, whatever is served as a hit from then on was requested after
      the invalidation. */
  lemma NoFlightNoStale(ttl: nat, s: State, run: seq<Step>, t: nat)
    requires Sound(ttl, s) && forall u :: u in s.calls ==> !InFlight(ttl, s.calls[u])
    ensures !StaleHit(ttl, s, run, t)
  {
    var start := Next(ttl, s, Invalidate);
    if ttl == 0 {
      StepKeepsSound(ttl, s, Invalidate);
      RunKeepsSound(ttl, start, run);
    } else {
      forall u | u in start.calls
        ensures CallRenewed(ttl, start.calls[u], s.epoch, u in s.calls.Keys)
      {
        assert CallSound(ttl, s.calls[u], s.epoch);
      }
      RunKeepsRenewed(ttl, start, run, s.epoch, s.calls.Keys);
    }
  }

  /** What a call stores, the next caller of the address is served until one TTL later, and not from
      then on. */
  lemma StoredIsServed(ttl: nat, s: State, t: nat, u: nat, d: nat)
    requires t in s.calls && s.calls[t].Storing? && UsesCache(ttl, s.calls[t].c) && u !in s.calls
    ensures var c := s.calls[t].c;
            var entry := Entry(s.calls[t].template, s.now);
            var end := After(ttl, s, [Store(t)] + ([Tick(d)] + ([Begin(u, c)] + ([Lookup(u)] + []))));
            u in end.calls && end.calls[u] == if d < ttl then Served(c, entry.template, Some(entry), s.now + d) else Asking(c)
  {
    var c := s.calls[t].c;
    var s1 := Next(ttl, s, Store(t));
    var s2 := Next(ttl, s1, Tick(d));
    var s3 := Next(ttl, s2, Begin(u, c));
    var s4 := Next(ttl, s3, Lookup(u));
    assert After(ttl, s4, []) == s4;
    hide After;
    AfterFirst(ttl, s3, Lookup(u), []);
    AfterFirst(ttl, s2, Begin(u, c), [Lookup(u)] + []);
    AfterFirst(ttl, s1, Tick(d), [Begin(u, c)] + ([Lookup(u)] + []));
    AfterFirst(ttl, s, Store(t), [Tick(d)] + ([Begin(u, c)] + ([Lookup(u)] + [])));
  }

  lemma FlightGoesStale(ttl: nat, s: State, t: nat, u: nat) returns (run: seq<Step>)
    requires Sound(ttl, s) && t in s.calls && InFlight(ttl, s.calls[t]) && u !in s.calls
    ensures StaleHit(ttl, s, run, u)
  {
    var start := Next(ttl, s, Invalidate);
    var c := s.calls[t].c;
    var tail := [Store(t)] + ([Tick(0)] + ([Begin(u, c)] + ([Lookup(u)] + [])));
    assert CallSound(ttl, s.calls[t], s.epoch);
    if s.calls[t].Storing? {
      run := tail;
      StoredIsServed(ttl, start, t, u, 0);
    } else {
      run := [Answer(t, Some(0))] + tail;
      var answered := Next(ttl, start, Answer(t, Some(0)));
      AfterFirst(ttl, start, Answer(t, Some(0)), tail);
      StoredIsServed(ttl, answered, t, u, 0);
    }
    hide After;
  }

  lemma {:induction false} UnusedName(names: set<nat>) returns (u: nat)
    ensures forall t :: t in names ==> t < u
    decreases |names|
  {
    if names == {} {
      u := 0;
    } else {
      var t :| t in names;
      var v := UnusedName(names - {t});
      u := if v <= t then t + 1 else v;
      forall x | x in names
        ensures x < u
      {
        assert x == t || x in names - {t};
      }
    }
  }

  /** Such a call is reachable: it has missed and asked, and the node has answered. */
  lemma FlightIsReachable(ttl: nat, c: Caller, content: nat)
    requires UsesCache(ttl, c)
    ensures var s := After(ttl, EMPTY, [Begin(0, c)] + ([Lookup(0)] + ([Ask(0)] + ([Answer(0, Some(content))] + []))));
            Sound(ttl, s) && 0 in s.calls && s.calls[0].Storing? && InFlight(ttl, s.calls[0])
  {
    var rest := [Answer(0, Some(content))] + [];
    var s1 := Next(ttl, EMPTY, Begin(0, c));
    var s2 := Next(ttl, s1, Lookup(0));
    var s3 := Next(ttl, s2, Ask(0));
    var s4 := Next(ttl, s3, Answer(0, Some(content)));
    assert After(ttl, s4, []) == s4;
    hide After;
    AfterFirst(ttl, s3, Answer(0, Some(content)), []);
    AfterFirst(ttl, s2, Ask(0), rest);
    AfterFirst(ttl, s1, Lookup(0), [Ask(0)] + rest);
    AfterFirst(ttl, EMPTY, Begin(0, c), [Lookup(0)] + ([Ask(0)] + rest));
    RunKeepsSound(ttl, EMPTY, [Begin(0, c)] + ([Lookup(0)] + ([Ask(0)] + rest)));
  }

  /** The invalidation race, exactly: a template requested before an invalidation can be served as
      a hit to a call begun after it if and only if, at the invalidation, the node has the request
      of some cached call whose answer is not stored yet. */
  lemma StaleHitsExactly(ttl: nat, s: State)
    requires Sound(ttl, s)
    ensures (exists run, u :: StaleHit(ttl, s, run, u)) <==> exists t :: t in s.calls && InFlight(ttl, s.calls[t])
  {
    if t :| t in s.calls && InFlight(ttl, s.calls[t]) {
      var u := UnusedName(s.calls.Keys);
      var run := FlightGoesStale(ttl, s, t, u);
    } else {
      forall run, u
        ensures !StaleHit(ttl, s, run, u)
      {
        NoFlightNoStale(ttl, s, run, u);
      }
    }
  }

  // ---------- Node calls are serial ----------

  /** The mutex is held exactly while one call awaits the node. */
  ghost predicate OneAwaiting(s: State) {
    && (forall t, u :: t in s.calls && u in s.calls && s.calls[t].Awaiting? && s.calls[u].Awaiting? ==> t == u)
    && (s.nodeBusy <==> exists t :: t in s.calls && s.calls[t].Awaiting?)
  }

  lemma StepKeepsOneAwaiting(ttl: nat, s: State, step: Step)
    requires OneAwaiting(s)
    ensures OneAwaiting(Next(ttl, s, step))
  {
    hide RequestOf, Hit, UsesCache, Swept;
    var s' := Next(ttl, s, step);
    if s.nodeBusy {
      var t :| t in s.calls && s.calls[t].Awaiting?;
      assert t in s'.calls && (s'.calls[t].Awaiting? || step.Answer?);
    }
    if step.Ask? && step.t in s.calls {
      assert step.t in s'.calls;
    }
  }

  /** Over every interleaving at most one call is with the node. */
  lemma {:induction false} NodeCallsAreSerial(ttl: nat, run: seq<Step>)
    ensures OneAwaiting(After(ttl, EMPTY, run))
  {
    if run == [] {
    } else {
      NodeCallsAreSerial(ttl, run[..|run| - 1]);
      StepKeepsOneAwaiting(ttl, After(ttl, EMPTY, run[..|run| - 1]), run[|run| - 1]);
    }
  }

  // ---------- Sweeps are invisible ----------

  /** The same clock and calls, and caches that no lookup from now on can tell apart. */
  ghost predicate Alike(ttl: nat, s: State, u: State) {
    && s.now == u.now && s.calls == u.calls && s.nodeBusy == u.nodeBusy && s.epoch == u.epoch
    && forall a, later: nat :: s.now <= later ==> Hit(ttl, s.cache, a, later) == Hit(ttl, u.cache, a, later)
  }

  lemma SweepIsAlike(ttl: nat, s: State)
    ensures Alike(ttl, s, Next(ttl, s, Sweep))
  {
  }

  /** A sweep leaves exactly the entries that can still be hit. */
  lemma SweepLeavesFresh(ttl: nat, s: State, a: Wallet)
    requires ttl > 0
    ensures a in Next(ttl, s, Sweep).cache <==> a in s.cache && s.now < s.cache[a].fetchedAt + ttl
  {
  }

  lemma AlikeStaysAlike(ttl: nat, s: State, u: State, step: Step)
    requires Alike(ttl, s, u)
    ensures Alike(ttl, Next(ttl, s, step), Next(ttl, u, step))
  {
    match step
    case Sweep =>
      SweepIsAlike(ttl, s);
      SweepIsAlike(ttl, u);
    case Lookup(t) =>
      if t in s.calls && s.calls[t].Looking? {
        var a := s.calls[t].c.address;
        assert Hit(ttl, s.cache, a, s.now) == Hit(ttl, u.cache, a, s.now);
      }
    case Store(t) =>
      if t in s.calls && s.calls[t].Storing? {
        var s', u' := Next(ttl, s, step), Next(ttl, u, step);
        forall a, later: nat | s.now <= later
          ensures Hit(ttl, s'.cache, a, later) == Hit(ttl, u'.cache, a, later)
        {
          assert Hit(ttl, s.cache, a, later) == Hit(ttl, u.cache, a, later);
        }
      }
    case _ =>
  }

  function WithoutSweeps(run: seq<Step>): seq<Step> {
    if run == [] then []
    else
      var rest, last := WithoutSweeps(run[..|run| - 1]), run[|run| - 1];
      if last.Sweep? then rest else rest + [last]
  }

  /** Leaving every sweep out of a run changes no lookup in it and none after it. */
  lemma {:induction false} SweepsAreInvisible(ttl: nat, s: State, run: seq<Step>)
    ensures Alike(ttl, After(ttl, s, run), After(ttl, s, WithoutSweeps(run)))
  {
    if run == [] {
    } else {
      var prefix, last := run[..|run| - 1], run[|run| - 1];
      var with, without := After(ttl, s, prefix), After(ttl, s, WithoutSweeps(prefix));
      SweepsAreInvisible(ttl, s, prefix);
      if last.Sweep? {
        SweepIsAlike(ttl, with);
      } else {
        AlikeStaysAlike(ttl, with, without, last);
        assert WithoutSweeps(run)[..|WithoutSweeps(run)| - 1] == WithoutSweeps(prefix);
      }
    }
  }

  // ---------- The code as written ----------

  /** The steps of one call, with d the time between its lookup and its store.  Those that do not
      apply change nothing. */
  ghost function CallSteps(c: Caller, d: nat, answer: Option<nat>): seq<Step> {
    [Begin(0, c)] + ([Lookup(0)] + ([Ask(0)] + ([Tick(d)] + ([Answer(0, answer)] + ([Store(0)] + [])))))
  }

  /** A state with no call in it. */
  ghost function Idle(now: nat, cache: Cache, epoch: nat): State { State(now, cache, map[], false, epoch) }

  /** Where the steps lead from there. */
  ghost function CallEnd(ttl: nat, cache: Cache, epoch: nat, c: Caller, now: nat, d: nat, answer: Option<nat>): State {
    var hit := Hit(ttl, cache, c.address, now);
    if UsesCache(ttl, c) && hit.Some? then
      Idle(now + d, cache, epoch).(calls := map[0 := Served(c, hit.value.template, hit, now)])
    else if answer.None? then
      Idle(now + d, cache, epoch).(calls := map[0 := Failed(c)])
    else
      var template := Template(RequestOf(ttl, c), answer.value, epoch);
      Idle(now + d, if UsesCache(ttl, c) then cache[c.address := Entry(template, now + d)] else cache, epoch).(calls :=
        map[0 := Served(c, template, None, now + d)])
  }

  lemma CallLooks(ttl: nat, cache: Cache, epoch: nat, c: Caller, now: nat)
    ensures var hit := Hit(ttl, cache, c.address, now);
            Next(ttl, Next(ttl, Idle(now, cache, epoch), Begin(0, c)), Lookup(0))
            == Idle(now, cache, epoch).(calls := map[0 :=
                 if UsesCache(ttl, c) && hit.Some? then Served(c, hit.value.template, hit, now) else Asking(c)])
  {
    hide Hit;
  }

  lemma CallStates(ttl: nat, cache: Cache, epoch: nat, c: Caller, now: nat, d: nat, answer: Option<nat>)
    ensures var looked := Next(ttl, Next(ttl, Idle(now, cache, epoch), Begin(0, c)), Lookup(0));
            var asked := Next(ttl, Next(ttl, looked, Ask(0)), Tick(d));
            Next(ttl, Next(ttl, asked, Answer(0, answer)), Store(0)) == CallEnd(ttl, cache, epoch, c, now, d, answer)
  {
    CallLooks(ttl, cache, epoch, c, now);
    var hit := Hit(ttl, cache, c.address, now);
    var served := UsesCache(ttl, c) && hit.Some?;
    hide RequestOf, UsesCache, Hit;
    var looked := Next(ttl, Next(ttl, Idle(now, cache, epoch), Begin(0, c)), Lookup(0));
    var asked := Next(ttl, Next(ttl, looked, Ask(0)), Tick(d));
    assert asked == Idle(now + d, cache, epoch).(nodeBusy := !served, calls := map[0 :=
      if served then Served(c, hit.value.template, hit, now) else Awaiting(c, epoch)]);
  }

  lemma CallRuns(ttl: nat, cache: Cache, epoch: nat, c: Caller, now: nat, d: nat, answer: Option<nat>)
    ensures After(ttl, Idle(now, cache, epoch), CallSteps(c, d, answer)) == CallEnd(ttl, cache, epoch, c, now, d, answer)
  {
    hide Next, CallEnd;
    var s0 := Idle(now, cache, epoch);
    var s1 := Next(ttl, s0, Begin(0, c));
    var s2 := Next(ttl, s1, Lookup(0));
    var s3 := Next(ttl, s2, Ask(0));
    var s4 := Next(ttl, s3, Tick(d));
    var s5 := Next(ttl, s4, Answer(0, answer));
    var s6 := Next(ttl, s5, Store(0));
    assert After(ttl, s6, []) == s6;
    hide After;
    var last := [Answer(0, answer)] + ([Store(0)] + []);
    AfterFirst(ttl, s5, Store(0), []);
    AfterFirst(ttl, s4, Answer(0, answer), [Store(0)] + []);
    AfterFirst(ttl, s3, Tick(d), last);
    AfterFirst(ttl, s2, Ask(0), [Tick(d)] + last);
    AfterFirst(ttl, s1, Lookup(0), [Ask(0)] + ([Tick(d)] + last));
    AfterFirst(ttl, s0, Begin(0, c), [Lookup(0)] + ([Ask(0)] + ([Tick(d)] + last)));
    CallStates(ttl, cache, epoch, c, now, d, answer);
  }

  class HtnApi {
    const gbtCacheTTL: nat
    var gbtCache: Cache
    var gbtCacheHits: nat
    var gbtCacheMisses: nat

    constructor (ttl: nat)
      ensures gbtCacheTTL == ttl && gbtCache == map[] && gbtCacheHits == gbtCacheMisses == 0
    {
      gbtCacheTTL, gbtCache, gbtCacheHits, gbtCacheMisses := ttl, map[], 0, 0;
    }

    method InvalidateGBTCache()
      modifies this`gbtCache
      ensures gbtCache == if gbtCacheTTL == 0 then old(gbtCache) else map[]
    {
      if gbtCacheTTL == 0 {
        return;
      }
      gbtCache := map[];
    }

    /** One round of the cleanup thread: the loop over the map with deletion. */
    method CleanupSweep(now: nat)
      modifies this`gbtCache
      ensures gbtCache == Swept(gbtCacheTTL, old(gbtCache), now)
      ensures forall a :: a in gbtCache <==> a in old(gbtCache) && now - old(gbtCache)[a].fetchedAt < gbtCacheTTL
      ensures forall a :: a in gbtCache ==> gbtCache[a] == old(gbtCache)[a]
    {
      ghost var before := gbtCache;
      var left := gbtCache.Keys;
      while left != {}
        invariant left <= before.Keys
        invariant gbtCache == map a | a in before && (a in left || now - before[a].fetchedAt < gbtCacheTTL) :: before[a]
      {
        var a :| a in left;
        left := left - {a};
        if now - gbtCache[a].fetchedAt >= gbtCacheTTL {
          gbtCache := gbtCache - {a};
        }
      }
    }

    /** One call without interference, with the times of its lookup and its store, the node's answer
        and the number of invalidations so far as inputs. */
    method GetBlockTemplate(c: Caller, lookedAt: nat, answer: Option<nat>, storedAt: nat, epoch: nat)
      returns (r: Option<Template>)
      requires CacheSound(gbtCacheTTL, gbtCache, lookedAt) && lookedAt <= storedAt
      modifies this
      ensures CacheSound(gbtCacheTTL, gbtCache, storedAt)
      ensures var end := After(gbtCacheTTL, Idle(lookedAt, old(gbtCache), epoch), CallSteps(c, storedAt - lookedAt, answer));
              && end.cache == gbtCache && 0 in end.calls
              && r == (if end.calls[0].Served? then Some(end.calls[0].template) else None)
      ensures r.Some? ==> r.value.request == RequestOf(gbtCacheTTL, c)
      ensures var found := UsesCache(gbtCacheTTL, c) && Hit(gbtCacheTTL, old(gbtCache), c.address, lookedAt).Some?;
              && gbtCacheHits == old(gbtCacheHits) + (if found then 1 else 0)
              && gbtCacheMisses == old(gbtCacheMisses) + (if UsesCache(gbtCacheTTL, c) && !found then 1 else 0)
      ensures var hit := Hit(gbtCacheTTL, old(gbtCache), c.address, lookedAt);
              if UsesCache(gbtCacheTTL, c) && hit.Some?
              then r == Some(hit.value.template) && gbtCache == old(gbtCache)
              else r == (if answer.Some? then Some(Template(RequestOf(gbtCacheTTL, c), answer.value, epoch)) else None)
                   && gbtCache == (if UsesCache(gbtCacheTTL, c) && r.Some?
                                   then old(gbtCache)[c.address := Entry(r.value, storedAt)] else old(gbtCache))
    {
      CallRuns(gbtCacheTTL, gbtCache, epoch, c, lookedAt, storedAt - lookedAt, answer);
      hide After;
      var request := RequestOf(gbtCacheTTL, c);
      if gbtCacheTTL > 0 && c.poll == 0 && c.vote == 0 {
        if c.address in gbtCache && lookedAt - gbtCache[c.address].fetchedAt < gbtCacheTTL {
          gbtCacheHits := gbtCacheHits + 1;
          return Some(gbtCache[c.address].template);
        }
        gbtCacheMisses := gbtCacheMisses + 1;
        if answer.None? {
          return None;
        }
        var template := Template(request, answer.value, epoch);
        gbtCache := gbtCache[c.address := Entry(template, storedAt)];
        return Some(template);
      }
      r := if answer.Some? then Some(Template(request, answer.value, epoch)) else None;
    }
  }
}
