/** When refills fail, which steps start one and under which context, and what a drained
    Take leads to, over every run. */
module PoolRefills {
  import opened Wrappers
  import opened Jails
  import opened Vm
  import opened PoolMachine
  import opened PoolSnapshots
  import opened PoolForks

  // ------------------------------------------------- what the counters say

  /** Goroutine `t` goes from `before` to `after` by event `e`. */
  predicate Turns(s: State, e: Event, before: Pc -> bool, after: Pc -> bool) {
    && e.Step? && e.t < |s.threads| && e.t < |Apply(s, e).threads|
    && before(s.threads[e.t]) && after(Apply(s, e).threads[e.t])
  }

  /** A Refill meets an error: it gets no slot, or it cannot load the one it has. */
  predicate Fails(s: State, e: Event) {
    || Turns(s, e, (pc: Pc) => pc.RSpawn?, (pc: Pc) => pc.Exit?)
    || Turns(s, e, (pc: Pc) => pc.RPrep? || pc.RLoad?, (pc: Pc) => pc.RKill?)
  }

  /** A Take gets a slot. */
  predicate Hits(s: State, e: Event) {
    Turns(s, e, (pc: Pc) => pc.FTake?, (pc: Pc) => pc.FWarm?)
  }

  /** A Take finds an open pool empty. */
  predicate Misses(s: State, e: Event) {
    Turns(s, e, (pc: Pc) => pc.FTake?, (pc: Pc) => pc.FDrained?)
  }

  /** The clock when a Refill last met an error, 0 if none has. */
  function LastFailure(s: State, es: seq<Event>): nat {
    if es == [] then 0
    else
      var before, e := Exec(s, es[..|es| - 1]), es[|es| - 1];
      if Fails(before, e) then before.now else LastFailure(s, es[..|es| - 1])
  }

  /** How many events of a run are of a kind. */
  function Count(s: State, es: seq<Event>, kind: (State, Event) -> bool): nat {
    if es == [] then 0
    else Count(s, es[..|es| - 1], kind) + if kind(Exec(s, es[..|es| - 1]), es[|es| - 1]) then 1 else 0
  }

  /** How one event moves the clock of the last failure and the three counters. */
  ghost predicate Tells(s: State, e: Event) {
    var w, w' := s.warm, Apply(s, e).warm;
    && w'.lastRefillFail == (if Fails(s, e) then s.now else w.lastRefillFail)
    && w'.refillErrs == w.refillErrs + (if Fails(s, e) then 1 else 0)
    && w'.takes == w.takes + (if Hits(s, e) then 1 else 0)
    && w'.drains == w.drains + (if Misses(s, e) then 1 else 0)
  }

  lemma RefillTells(s: State, t: nat, ok: bool, pick: Pid)
    requires t < |s.threads| && IsRefill(s.threads[t])
    ensures Tells(s, Step(t, ok, pick))
  {
    var s' := StepRefill(s, t, ok, pick);
    assert Apply(s, Step(t, ok, pick)) == s';
  }

  lemma WarmTells(s: State, t: nat, ok: bool, pick: Pid)
    requires t < |s.threads| && IsWarm(s.threads[t])
    ensures Tells(s, Step(t, ok, pick))
  {
    var s' := StepWarm(s, t, ok);
    assert Apply(s, Step(t, ok, pick)) == s';
  }

  lemma OthersTell(s: State, t: nat, ok: bool, pick: Pid)
    requires t < |s.threads| && !IsRefill(s.threads[t]) && !IsWarm(s.threads[t])
    ensures Tells(s, Step(t, ok, pick))
  {
    if IsCold(s.threads[t]) { ColdStaysCold(s, t, ok, pick); }
  }

  lemma EventTells(s: State, e: Event)
    ensures Tells(s, e)
  {
    if e.Step? && e.t < |s.threads| {
      if IsRefill(s.threads[e.t]) { RefillTells(s, e.t, e.ok, e.pick); }
      else if IsWarm(s.threads[e.t]) { WarmTells(s, e.t, e.ok, e.pick); }
      else { OthersTell(s, e.t, e.ok, e.pick); }
    }
  }

  /** Over every run: lastRefillFail is the clock at the latest failed refill step, and the
      counters are the numbers of failures, of slots taken and of drained Takes. */
  lemma {:induction false} CountersTell(s: State, es: seq<Event>)
    requires Init(s)
    ensures var w := Exec(s, es).warm;
            && w.lastRefillFail == LastFailure(s, es) && w.refillErrs == Count(s, es, Fails)
            && w.takes == Count(s, es, Hits) && w.drains == Count(s, es, Misses)
  {
    if es != [] {
      CountersTell(s, es[..|es| - 1]);
      EventTells(Exec(s, es[..|es| - 1]), es[|es| - 1]);
    }
  }

  // ------------------------------------------------ what starts a refill

  /** Exactly which goroutines a step starts: a fork that has used up a slot starts one
      refill under its own context, a drained Take one under none unless a refill failed
      less than 500 ms ago, any other step none. */
  lemma StepStarts(s: State, t: nat, ok: bool, pick: Pid)
    requires t < |s.threads|
    ensures var r, n := StepThread(s, t, ok, pick), |s.threads|;
            && n <= |r.threads| && r.threads[..n] == s.threads[t := r.threads[t]]
            && match s.threads[t]
               case FRefillErr(ctx) => r.threads[n..] == [RSpawn(ctx)]
               case FRefillOk(req, _) => r.threads[n..] == [RSpawn(req.ctx)]
               case FDrained(_) =>
                 r.threads[n..] == if s.warm.lastRefillFail == 0 || s.now - s.warm.lastRefillFail >= 500_000_000
                                   then [RSpawn(None)] else []
               case _ => r.threads[n..] == []
  {
    var r, n := StepThread(s, t, ok, pick), |s.threads|;
    if IsWarm(s.threads[t]) { assert r.threads == s.threads[t := r.threads[t]] + Started(s, t); }
  }

  /** The two steps of a Take that finds an open pool empty. */
  lemma DrainedTakeSteps(s: State, t: nat, ok: bool, pick: Pid)
    requires t < |s.threads| && s.threads[t].FTake? && !s.warm.closed && s.warm.idle == []
    ensures var r, w := Apply(Apply(s, Step(t, ok, pick)), Step(t, ok, pick)), s.warm;
            var refills := w.lastRefillFail == 0 || s.now - w.lastRefillFail >= 500_000_000;
            && r.threads == s.threads[t := FCold(s.threads[t].req)] + (if refills then [RSpawn(None)] else [])
            && r.warm == w.(drains := w.drains + 1, drainRefills := r.warm.drainRefills)
            && r == s.(threads := r.threads, warm := r.warm)
  {
    var e := Step(t, ok, pick);
    var mid := Apply(s, e);
    assert mid.threads == s.threads[t := FDrained(s.threads[t].req)];
    StepStarts(mid, t, ok, pick);
    var end := Apply(mid, e);
    assert end.threads == end.threads[..|s.threads|] + end.threads[|s.threads|..];
  }

  lemma ExecTwo(s: State, es: seq<Event>, e: Event)
    ensures Exec(s, es + [e] + [e]) == Apply(Apply(Exec(s, es), e), e)
  {
    ExecOne(s, es, e);
    ExecOne(s, es + [e], e);
  }

  /** Over every run, a drained Take goes to the cold path, and it starts a refill under no
      context if and only if none has failed or the latest failure is 500 ms old. */
  lemma DrainedTakeRefillsIff(s: State, es: seq<Event>, t: nat, ok: bool, pick: Pid)
    requires Init(s)
    requires var r := Exec(s, es); t < |r.threads| && r.threads[t].FTake? && !r.warm.closed && r.warm.idle == []
    ensures var r := Exec(s, es);
            var last := LastFailure(s, es);
            var started := if last == 0 || r.now - last >= 500_000_000 then [RSpawn(None)] else [];
            Exec(s, es + [Step(t, ok, pick)] + [Step(t, ok, pick)]).threads ==
            r.threads[t := FCold(r.threads[t].req)] + started
  {
    CountersTell(s, es);
    ExecTwo(s, es, Step(t, ok, pick));
    DrainedTakeSteps(Exec(s, es), t, ok, pick);
  }

  /** The refill that a drain has started fills the pool, if its system calls succeed. */
  lemma DrainedPoolFills(s: State, t: nat) returns (more: seq<Event>, end: State)
    requires Tame(s) && Serving(s) && t < |s.threads| && s.threads[t].FTake? && s.warm.idle == []
    requires s.warm.lastRefillFail == 0 || s.now - s.warm.lastRefillFail >= 500_000_000
    ensures end == Exec(Apply(Apply(s, Step(t, true, 0)), Step(t, true, 0)), more)
    ensures forall e <- more :: e == Step(|s.threads|, true, 0)
    ensures t < |end.threads| && end.threads[t] == FCold(s.threads[t].req)
    ensures end.warm.idle != [] && Alive(end, end.warm.idle[|end.warm.idle| - 1])
  {
    var e := Step(t, true, 0);
    DrainedTakeSteps(s, t, true, 0);
    ApplyKeepsTame(s, e);
    ApplyKeepsTame(Apply(s, e), e);
    more, end := RefillSucceeds(Apply(Apply(s, e), e), |s.threads|);
  }

  /** From any reachable state in which a fork is about to Take from an empty open pool
      and no refill has failed in the last 500 ms: a run in which the refill its drain
      starts puts a live slot into the pool, while the fork goes on cold. */
  lemma DrainRefillsThePool(s: State, es: seq<Event>, t: nat) returns (more: seq<Event>)
    requires Init(s)
    requires var r := Exec(s, es);
             && t < |r.threads| && r.threads[t].FTake? && !r.warm.closed && r.warm.idle == [] && Fits(r.warm.template)
             && (LastFailure(s, es) == 0 || r.now - LastFailure(s, es) >= 500_000_000)
    ensures var r, end := Exec(s, es), Exec(s, es + [Step(t, true, 0)] + [Step(t, true, 0)] + more);
            && (forall e <- more :: e == Step(|r.threads|, true, 0))
            && t < |end.threads| && end.threads[t] == FCold(r.threads[t].req)
            && end.warm.idle != [] && Alive(end, end.warm.idle[|end.warm.idle| - 1])
  {
    var e := Step(t, true, 0);
    RunsAreTame(s, es);
    CountersTell(s, es);
    var end: State;
    more, end := DrainedPoolFills(Exec(s, es), t);
    ExecTwo(s, es, e);
    ExecAppend(s, es + [e] + [e], more);
  }

  // --------------------------------------------- the context of a refill

  /** A refill's slot: tied to the refill's context if the pool is jailed and to none if it
      is not. It is spawned if the system calls succeed and, in a jailed pool, the context
      is not done and the jailer's files can be linked; otherwise the refill has failed. */
  lemma RefillSpawns(s: State, t: nat, ctx: Option<Ctx>, ok: bool, pick: Pid)
    requires t < |s.threads| && s.threads[t] == RSpawn(ctx)
    ensures var r, n := StepThread(s, t, ok, pick), |s.procs|;
            var fits := s.warm.template.Some? ==>
              var root, extras := Root(s.warm.template.value.base), s.warm.template.value.extras;
              (ctx.Some? ==> ctx.value !in s.done) && Flat(root, Targets(root, extras.Keys));
            if ok && fits then
              && |r.procs| == n + 1 && r.procs[..n] == s.procs && r.threads[t] == RCheck(ctx, n)
              && r.procs[n].vm.Empty? && r.procs[n].kills == 0 && !r.procs[n].preloaded && r.warm == s.warm
              && r.procs[n].ctx == (if s.warm.template.Some? then ctx else None)
            else r.procs == s.procs && r.threads[t].Exit? && r.warm.lastRefillFail == s.now
  {
    if s.warm.template.Some? { PrepareIff(s.warm.template, s.warm.template.value.extras, pick); }
  }

  /** What a pool with a preload does to a new slot: under a context that is done, or when
      the call fails, the refill has failed and kills the slot; otherwise the slot loads. */
  lemma RefillLoads(s: State, t: nat, ctx: Option<Ctx>, p: Pid, inside: Snapshot, ok: bool, pick: Pid)
    requires Tame(s) && t < |s.threads| && s.threads[t] == RLoad(ctx, p, inside) && Alive(s, p)
    ensures var r := StepThread(s, t, ok, pick);
            if ok && (ctx.Some? ==> ctx.value !in s.done) then
              && r.threads[t] == RFlag(p) && |r.procs| == |s.procs| && r.warm == s.warm && s.warm.preload.Some?
              && r.procs[p] == s.procs[p].(vm := Loaded(s.warm.preload.value))
            else r.threads[t] == RKill(p) && r.procs == s.procs && r.warm.lastRefillFail == s.now
  {
    assert PcOk(s, s.threads[t]);
  }

  // ------------------------------------------------------ the other calls

  /** The load of a warm fork: the combined call leaves its VM running, the plain one
      loaded and still to be resumed; under a context that is done both fail. */
  lemma WarmLoadResumesIff(s: State, t: nat, req: Request, p: Pid, inside: Snapshot, ok: bool, pick: Pid)
    requires Tame(s) && t < |s.threads| && s.threads[t] == FLoad(req, p, inside) && Alive(s, p)
    ensures var r := StepThread(s, t, ok, pick);
            if ok && (req.ctx.Some? ==> req.ctx.value !in s.done) then
              && |r.procs| == |s.procs|
              && r.procs[p] == s.procs[p].(vm := if req.combined then Running(req.snap) else Loaded(req.snap))
              && r.threads[t] == (if req.combined then FRefillOk(req, p) else FResume(req, p))
            else r.threads[t] == FKill(req, p) && r.procs == s.procs
  {
    assert PcOk(s, s.threads[t]);
  }

  /** The load of a cold fork, likewise; without a jail it is never combined. */
  lemma ColdLoadResumesIff(s: State, t: nat, req: Request, p: Pid, ok: bool, pick: Pid)
    requires Tame(s) && t < |s.threads| && s.threads[t] == FColdLoad(req, p) && Alive(s, p)
    ensures var r := StepThread(s, t, ok, pick);
            var combined := req.jail.Some? && req.combined;
            if ok && (req.ctx.Some? ==> req.ctx.value !in s.done) then
              && |r.procs| == |s.procs|
              && (if combined then r.procs[p].vm.Running? && r.threads[t] == FInsert(LiveFork(req, false), p)
                  else r.procs[p].vm.Loaded? && r.threads[t] == FColdResume(req, p))
              && (req.jail.None? ==> r.procs[p].vm.snap == req.snap)
            else r.threads[t] == FColdKill(p) && r.procs == s.procs
  {
    assert PcOk(s, s.threads[t]);
    ColdPathsResolve(s.procs[p], req);
  }

  // ----------------------------------------------------- Shutdown's counts

  predicate InShutdown(pc: Pc) {
    pc.SKill? || pc.SClose? || pc.SDone?
  }

  /** Event `e` is a kill of goroutine `t`'s Shutdown with this outcome. */
  predicate Tears(s: State, e: Event, t: nat, ok: bool) {
    && e.Step? && e.t == t < |s.threads| && e.ok == ok
    && s.threads[t].SKill? && e.pick in s.threads[t].todo
  }

  /** The kills of goroutine `t`'s Shutdown with this outcome, over a run. */
  function Torn(s: State, es: seq<Event>, t: nat, ok: bool): nat {
    if es == [] then 0
    else Torn(s, es[..|es| - 1], t, ok) + if Tears(Exec(s, es[..|es| - 1]), es[|es| - 1], t, ok) then 1 else 0
  }

  /** What `t`'s Shutdown has counted so far, nothing before it began. */
  function Counted(s: State, t: nat): (nat, nat) {
    if t < |s.threads| && InShutdown(s.threads[t]) then (s.threads[t].stopped, s.threads[t].failed) else (0, 0)
  }

  lemma RefillIsNoShutdown(s: State, t: nat, ok: bool, pick: Pid)
    requires t < |s.threads| && IsRefill(s.threads[t])
    ensures !InShutdown(StepRefill(s, t, ok, pick).threads[t])
  {
  }

  lemma WarmIsNoShutdown(s: State, t: nat, ok: bool)
    requires t < |s.threads| && IsWarm(s.threads[t])
    ensures !InShutdown(StepWarm(s, t, ok).threads[t])
  {
  }

  lemma ColdIsNoShutdown(s: State, t: nat, ok: bool, pick: Pid)
    requires t < |s.threads| && IsCold(s.threads[t])
    ensures !InShutdown(StepCold(s, t, ok, pick).threads[t])
  {
  }

  lemma OwnStepCounts(s: State, t: nat, ok: bool, pick: Pid)
    requires t < |s.threads|
    ensures var e := Step(t, ok, pick);
            var (stopped, failed) := Counted(s, t);
            Counted(Apply(s, e), t) ==
            (stopped + (if Tears(s, e, t, true) then 1 else 0), failed + if Tears(s, e, t, false) then 1 else 0)
  {
    if IsRefill(s.threads[t]) { RefillIsNoShutdown(s, t, ok, pick); }
    else if IsWarm(s.threads[t]) { WarmIsNoShutdown(s, t, ok); }
    else if IsCold(s.threads[t]) { ColdIsNoShutdown(s, t, ok, pick); }
    else { TeardownCounts(s, t, ok, pick); }
  }

  lemma TeardownCounts(s: State, t: nat, ok: bool, pick: Pid)
    requires t < |s.threads| && !IsRefill(s.threads[t]) && !IsWarm(s.threads[t]) && !IsCold(s.threads[t])
    ensures var e := Step(t, ok, pick);
            var (stopped, failed) := Counted(s, t);
            Counted(StepTeardown(s, t, ok, pick), t) ==
            (stopped + (if Tears(s, e, t, true) then 1 else 0), failed + if Tears(s, e, t, false) then 1 else 0)
  {
  }

  lemma EventCounts(s: State, e: Event, t: nat)
    ensures var (stopped, failed) := Counted(s, t);
            Counted(Apply(s, e), t) ==
            (stopped + (if Tears(s, e, t, true) then 1 else 0), failed + if Tears(s, e, t, false) then 1 else 0)
  {
    if e.Step? && e.t == t < |s.threads| {
      OwnStepCounts(s, t, e.ok, e.pick);
    } else if t < |s.threads| {
      OthersStay(s, e, t);
    } else if e.Step? && e.t < |s.threads| && t < |Apply(s, e).threads| {
      StepStartsNoFork(s, e.t, e.ok, e.pick, t);
    }
  }

  lemma {:induction false} CountsOneOutcome(s: State, es: seq<Event>, t: nat, ok: bool)
    requires s.threads == []
    ensures var (stopped, failed) := Counted(Exec(s, es), t); (if ok then stopped else failed) == Torn(s, es, t, ok)
  {
    if es == [] {
      assert Exec(s, es) == s;
    } else {
      CountsOneOutcome(s, es[..|es| - 1], t, ok);
      EventCounts(Exec(s, es[..|es| - 1]), es[|es| - 1], t);
    }
  }

  /** Over every run a Shutdown reports as stopped the forks whose kill succeeded and as
      failed those whose kill did not. */
  lemma ShutdownCountsOutcomes(s: State, es: seq<Event>, t: nat)
    requires Init(s) && t < |Exec(s, es).threads| && Exec(s, es).threads[t].SDone?
    ensures Exec(s, es).threads[t].stopped == Torn(s, es, t, true)
    ensures Exec(s, es).threads[t].failed == Torn(s, es, t, false)
  {
    CountsOneOutcome(s, es, t, true);
    CountsOneOutcome(s, es, t, false);
  }
}
