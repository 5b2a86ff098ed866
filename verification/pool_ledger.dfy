/** Counting laws of the pools over every run: the refill conservation law, one
    success per process, and the winding down of a closed warm pool. */
module PoolLedger {
  import opened Wrappers
  import opened Tally
  import opened Vm
  import opened PoolMachine
  import opened PoolOwnership
  import opened PoolSnapshots

  /** How a step changes the sum of any weight. */
  lemma StepTotal(s: State, t: nat, ok: bool, pick: Pid, w: Pc -> nat)
    requires t < |s.threads|
    ensures var s' := StepThread(s, t, ok, pick);
            && t < |s'.threads|
            && Total(s'.threads, w) + w(s.threads[t])
               == Total(s.threads, w) + w(s'.threads[t]) + (if Started(s, t) == [] then 0 else w(Started(s, t)[0]))
            && StartsRefills(Started(s, t))
  {
    var s' := StepThread(s, t, ok, pick);
    var started := Started(s, t);
    if !IsWarm(s.threads[t]) { assert s'.threads == s.threads[t := s'.threads[t]] + started; }
    TotalStep(s.threads, w, t, s'.threads[t], started);
    if started != [] { assert started[..0] == []; assert Total(started, w) == w(started[0]); }
  }

  // ---------------------------------------------------- conservation law

  /** 1 for a Refill goroutine that may still publish. */
  function InFlight(pc: Pc): nat {
    if IsRefill(pc) && !pc.RKill? then 1 else 0
  }

  /** 1 for a fork goroutine that took a slot and has not called Refill for it yet. */
  function Owed(pc: Pc): nat {
    if IsWarm(pc) && !pc.FStart? && !pc.FTake? && !pc.FDrained? then 1 else 0
  }

  function Drained(pc: Pc): nat {
    if pc.FDrained? then 1 else 0
  }

  /** What a warm pool's own fields add to the balance. */
  function Book(w: WarmState): int {
    |w.idle| + w.refillErrs + w.closeKills - w.size - w.drainRefills - w.asked
  }

  /** Idle slots, refills in flight, refills owed, refill failures and slots killed
      because of Close add up to the size plus the refills that drains triggered or that
      were asked for. */
  ghost predicate Balanced(s: State) {
    && Book(s.warm) + Total(s.threads, InFlight) + Total(s.threads, Owed) == 0
    && s.warm.drainRefills + Total(s.threads, Drained) <= s.warm.drains
  }

  lemma RefillBooks(s: State, t: nat, ok: bool, pick: Pid)
    requires t < |s.threads| && IsRefill(s.threads[t])
    ensures Started(s, t) == []
    ensures var s' := StepRefill(s, t, ok, pick);
            && |s'.threads| == |s.threads|
            && Book(s'.warm) + InFlight(s'.threads[t]) + Owed(s'.threads[t]) == Book(s.warm) + InFlight(s.threads[t])
            && s'.warm.drains == s.warm.drains && s'.warm.drainRefills == s.warm.drainRefills
            && Drained(s'.threads[t]) == 0
  {
  }

  lemma WarmBooks(s: State, t: nat, ok: bool)
    requires t < |s.threads| && IsWarm(s.threads[t])
    ensures var s' := StepWarm(s, t, ok);
            && |s.threads| <= |s'.threads|
            && Book(s'.warm) + Owed(s'.threads[t]) + InFlight(s'.threads[t]) + |Started(s, t)|
               == Book(s.warm) + Owed(s.threads[t])
            && s'.warm.drainRefills + Drained(s'.threads[t]) - s'.warm.drains
               <= s.warm.drainRefills + Drained(s.threads[t]) - s.warm.drains
  {
  }

  lemma ColdBooks(s: State, t: nat, ok: bool, pick: Pid)
    requires t < |s.threads| && IsCold(s.threads[t])
    ensures var s' := StepCold(s, t, ok, pick);
            && s'.warm == s.warm && InFlight(s'.threads[t]) == Owed(s'.threads[t]) == Drained(s'.threads[t]) == 0
  {
    ColdStaysCold(s, t, ok, pick);
  }

  lemma TeardownBooks(s: State, t: nat, ok: bool, pick: Pid)
    requires t < |s.threads| && !IsRefill(s.threads[t]) && !IsWarm(s.threads[t]) && !IsCold(s.threads[t])
    ensures var s' := StepTeardown(s, t, ok, pick);
            && Book(s'.warm) == Book(s.warm)
            && s'.warm.drains == s.warm.drains && s'.warm.drainRefills == s.warm.drainRefills
            && InFlight(s'.threads[t]) == Owed(s'.threads[t]) == Drained(s'.threads[t]) == 0
  {
    if s.threads[t].SClose? || s.threads[t].CClose? { CloseBooks(s, t, ok, pick); } else { ClaimBooks(s, t, ok, pick); }
  }

  lemma CloseBooks(s: State, t: nat, ok: bool, pick: Pid)
    requires t < |s.threads| && (s.threads[t].SClose? || s.threads[t].CClose?)
    ensures var s' := StepTeardown(s, t, ok, pick);
            && Book(s'.warm) == Book(s.warm)
            && s'.warm.drains == s.warm.drains && s'.warm.drainRefills == s.warm.drainRefills
            && (s'.threads[t].SDone? || s'.threads[t].Exit?)
  {
  }

  lemma ClaimBooks(s: State, t: nat, ok: bool, pick: Pid)
    requires t < |s.threads| && !IsRefill(s.threads[t]) && !IsWarm(s.threads[t]) && !IsCold(s.threads[t])
    requires !s.threads[t].SClose? && !s.threads[t].CClose?
    ensures var s' := StepTeardown(s, t, ok, pick);
            && s'.warm == s.warm
            && !IsRefill(s'.threads[t]) && !IsWarm(s'.threads[t]) && !IsCold(s'.threads[t])
  {
    TeardownStays(s, t, ok, pick);
  }

  lemma StepKeepsBalanced(s: State, t: nat, ok: bool, pick: Pid)
    requires t < |s.threads| && Balanced(s)
    ensures Balanced(StepThread(s, t, ok, pick))
  {
    StepTotal(s, t, ok, pick, InFlight);
    StepTotal(s, t, ok, pick, Owed);
    StepTotal(s, t, ok, pick, Drained);
    var pc := s.threads[t];
    if IsRefill(pc) { RefillBooks(s, t, ok, pick); }
    else if IsWarm(pc) { WarmBooks(s, t, ok); }
    else if IsCold(pc) { ColdBooks(s, t, ok, pick); }
    else { TeardownBooks(s, t, ok, pick); }
  }

  lemma ApplyKeepsBalanced(s: State, e: Event)
    requires Balanced(s)
    ensures Balanced(Apply(s, e))
  {
    if e.Step? {
      if e.t < |s.threads| { StepKeepsBalanced(s, e.t, e.ok, e.pick); }
    } else {
      CallKeepsBalanced(s, e);
    }
  }

  lemma CallKeepsBalanced(s: State, e: Event)
    requires Balanced(s) && !e.Step?
    ensures Balanced(Apply(s, e))
  {
    match e
    case Fork(req, count) => if ValidFork(req, count) { ForkKeepsBalanced(s, req, count); }
    case Release(id) => StartedWeighNothing(s, [TClaim(id)]);
    case Shutdown => StartedWeighNothing(s, [SClaim]);
    case Refill(under) => AskedWeighsOne(s.threads, under);
    case Close => StartedWeighNothing(s, [CClose]);
    case _ =>
  }

  lemma ForkKeepsBalanced(s: State, req: Request, count: nat)
    requires Balanced(s) && ValidFork(req, count)
    ensures Balanced(Apply(s, Fork(req, count)))
  {
    var started := ForkStarts(s, req, count);
    StartedWeighNothing(s, started);
  }

  lemma AskedWeighsOne(threads: seq<Pc>, under: Option<Ctx>)
    ensures Total(threads + [RSpawn(under)], InFlight) == Total(threads, InFlight) + 1
    ensures Total(threads + [RSpawn(under)], Owed) == Total(threads, Owed)
    ensures Total(threads + [RSpawn(under)], Drained) == Total(threads, Drained)
  {
    assert (threads + [RSpawn(under)])[..|threads|] == threads;
  }

  lemma StartedWeighNothing(s: State, started: seq<Pc>)
    requires forall x <- started :: InFlight(x) == Owed(x) == Drained(x) == 0
    ensures Total(s.threads + started, InFlight) == Total(s.threads, InFlight)
    ensures Total(s.threads + started, Owed) == Total(s.threads, Owed)
    ensures Total(s.threads + started, Drained) == Total(s.threads, Drained)
  {
    TotalAppend(s.threads, InFlight, started);
    TotalAppend(s.threads, Owed, started);
    TotalAppend(s.threads, Drained, started);
    TotalZero(started, InFlight);
    TotalZero(started, Owed);
    TotalZero(started, Drained);
  }

  lemma {:induction false} RunsAreBalanced(s: State, es: seq<Event>)
    requires Init(s)
    ensures Balanced(Exec(s, es))
  {
    if es != [] {
      RunsAreBalanced(s, es[..|es| - 1]);
      ApplyKeepsBalanced(Exec(s, es[..|es| - 1]), es[|es| - 1]);
    }
  }

  /** The conservation law over every run, with the size the pool was made with, and the
      bound on idle that follows. */
  lemma RefillsAreConserved(s: State, es: seq<Event>)
    requires Init(s)
    ensures var r := Exec(s, es);
            && |r.warm.idle| + Total(r.threads, InFlight) + Total(r.threads, Owed) + r.warm.refillErrs + r.warm.closeKills
               == s.warm.size + r.warm.drainRefills + r.warm.asked
            && r.warm.drainRefills <= r.warm.drains
            && |r.warm.idle| <= s.warm.size + r.warm.drains + r.warm.asked
  {
    RunsAreBalanced(s, es);
    PreloadNeverChanges(s, es);
  }

  // ----------------------------------------------- one success per process

  /** What a Release or Shutdown has claimed and not killed yet. */
  function Claims(pc: Pc): set<Pid> {
    if pc.TKill? || pc.SKill? then Held(pc) else {}
  }

  /** 1 for a goroutine that owns `p` before it is published as a live fork. */
  function Before(p: Pid): Pc -> nat {
    pc => if p in Held(pc) - Claims(pc) then 1 else 0
  }

  /** 1 for a forkOne that returned success with `p`. */
  function Success(p: Pid): Pc -> nat {
    (pc: Pc) => if pc.FDone? && pc.p == p then 1 else 0
  }

  function Claiming(p: Pid): Pc -> nat {
    pc => if p in Claims(pc) then 1 else 0
  }

  /** At most one fork call ever succeeds with `p`; while `p` is live or claimed,
      exactly one has. */
  ghost predicate SuccessOnce(s: State, p: Pid) {
    && multiset(s.warm.idle)[p] + Total(s.threads, Before(p)) + Total(s.threads, Success(p))
       <= (if p < |s.procs| then 1 else 0)
    && (if p in s.live then 1 else 0) + Total(s.threads, Claiming(p)) <= Total(s.threads, Success(p))
  }

  ghost predicate Unpublished(s: State, s': State, t: nat, p: Pid)
    requires t < |s.threads| && t < |s'.threads|
  {
    && multiset(s'.warm.idle)[p] + Before(p)(s'.threads[t]) + Success(p)(s'.threads[t]) + (if p < |s.procs| then 1 else 0)
       <= multiset(s.warm.idle)[p] + Before(p)(s.threads[t]) + Success(p)(s.threads[t]) + (if p < |s'.procs| then 1 else 0)
    && (if p in s'.live then 1 else 0) + Claiming(p)(s'.threads[t]) + Success(p)(s.threads[t])
       <= (if p in s.live then 1 else 0) + Claiming(p)(s.threads[t]) + Success(p)(s'.threads[t])
  }

  /** A step that touches neither idle nor live publishes nothing. */
  lemma QuietPublishes(s: State, s': State, t: nat, pc: Pc, p: Pid)
    requires t < |s.threads| && t < |s'.threads| && s'.threads[t] == pc
    requires s'.warm.idle == s.warm.idle && s'.live == s.live && |s'.procs| == |s.procs|
    requires Held(pc) <= Held(s.threads[t]) && Claims(pc) <= Claims(s.threads[t])
    requires Held(pc) - Claims(pc) <= Held(s.threads[t]) - Claims(s.threads[t])
    requires s.threads[t].FDone? ==> pc == s.threads[t]
    requires pc.FDone? ==> pc == s.threads[t]
    ensures Unpublished(s, s', t, p)
  {
  }

  lemma RefillEndsPublish(s: State, t: nat, ok: bool, pick: Pid, p: Pid)
    requires t < |s.threads| && (s.threads[t].RSpawn? || s.threads[t].RPublish?)
    ensures Unpublished(s, StepRefill(s, t, ok, pick), t, p)
  {
  }

  lemma ColdEndsPublish(s: State, t: nat, ok: bool, pick: Pid, p: Pid)
    requires t < |s.threads| && (s.threads[t].FCold? || s.threads[t].FInsert?)
    ensures Unpublished(s, StepCold(s, t, ok, pick), t, p)
  {
  }

  lemma RefillPublishes(s: State, t: nat, ok: bool, pick: Pid, p: Pid)
    requires t < |s.threads| && IsRefill(s.threads[t])
    ensures Unpublished(s, StepRefill(s, t, ok, pick), t, p)
  {
    if s.threads[t].RSpawn? || s.threads[t].RPublish? {
      RefillEndsPublish(s, t, ok, pick, p);
    } else {
      QuietPublishes(s, StepRefill(s, t, ok, pick), t, StepRefill(s, t, ok, pick).threads[t], p);
    }
  }

  lemma TakePublishes(s: State, t: nat, ok: bool, p: Pid)
    requires t < |s.threads| && s.threads[t].FTake?
    ensures Unpublished(s, StepWarm(s, t, ok), t, p)
  {
    if s.warm.idle != [] {
      var last := |s.warm.idle| - 1;
      assert s.warm.idle == s.warm.idle[..last] + [s.warm.idle[last]];
    }
  }

  /** What a step of the warm path other than Take leaves alone. */
  ghost predicate Quiet(s: State, s': State, t: nat)
    requires t < |s.threads| && t < |s'.threads|
  {
    && s'.warm.idle == s.warm.idle && s'.live == s.live && |s'.procs| == |s.procs|
    && Held(s'.threads[t]) <= Held(s.threads[t]) && Claims(s'.threads[t]) == Claims(s.threads[t]) == {}
    && !s.threads[t].FDone? && !s'.threads[t].FDone?
  }

  lemma WarmDrivesQuietly(s: State, t: nat, ok: bool)
    requires t < |s.threads| && (s.threads[t].FPrep? || s.threads[t].FLoad? || s.threads[t].FResume?)
    ensures Quiet(s, StepWarm(s, t, ok), t)
  {
  }

  lemma WarmTurnsQuietly(s: State, t: nat, ok: bool)
    requires t < |s.threads| && IsWarm(s.threads[t])
    requires !s.threads[t].FTake? && !s.threads[t].FPrep? && !s.threads[t].FLoad? && !s.threads[t].FResume?
    ensures Quiet(s, StepWarm(s, t, ok), t)
  {
  }

  lemma WarmPublishes(s: State, t: nat, ok: bool, p: Pid)
    requires t < |s.threads| && IsWarm(s.threads[t])
    ensures Unpublished(s, StepWarm(s, t, ok), t, p)
  {
    if s.threads[t].FTake? {
      TakePublishes(s, t, ok, p);
    } else {
      if s.threads[t].FPrep? || s.threads[t].FLoad? || s.threads[t].FResume? { WarmDrivesQuietly(s, t, ok); }
      else { WarmTurnsQuietly(s, t, ok); }
      QuietPublishes(s, StepWarm(s, t, ok), t, StepWarm(s, t, ok).threads[t], p);
    }
  }

  lemma ColdPublishes(s: State, t: nat, ok: bool, pick: Pid, p: Pid)
    requires t < |s.threads| && IsCold(s.threads[t])
    ensures Unpublished(s, StepCold(s, t, ok, pick), t, p)
  {
    if s.threads[t].FCold? || s.threads[t].FInsert? {
      ColdEndsPublish(s, t, ok, pick, p);
    } else {
      ColdDrivesPublish(s, t, ok, pick, p);
    }
  }

  lemma ColdDrivesPublish(s: State, t: nat, ok: bool, pick: Pid, p: Pid)
    requires t < |s.threads| && (s.threads[t].FColdLoad? || s.threads[t].FColdResume? || s.threads[t].FColdKill?)
    ensures Unpublished(s, StepCold(s, t, ok, pick), t, p)
  {
    ColdIsQuiet(s, t, ok, pick);
    QuietPublishes(s, StepCold(s, t, ok, pick), t, StepCold(s, t, ok, pick).threads[t], p);
  }

  lemma ColdIsQuiet(s: State, t: nat, ok: bool, pick: Pid)
    requires t < |s.threads| && (s.threads[t].FColdLoad? || s.threads[t].FColdResume? || s.threads[t].FColdKill?)
    ensures Quiet(s, StepCold(s, t, ok, pick), t)
  {
  }

  lemma ClaimPublishes(s: State, t: nat, ok: bool, pick: Pid, p: Pid)
    requires t < |s.threads| && (s.threads[t].TClaim? || s.threads[t].SClaim?)
    ensures Unpublished(s, StepTeardown(s, t, ok, pick), t, p)
  {
  }

  lemma ClosePublishes(s: State, t: nat, ok: bool, pick: Pid, p: Pid)
    requires t < |s.threads| && (s.threads[t].SClose? || s.threads[t].CClose?)
    ensures Unpublished(s, StepTeardown(s, t, ok, pick), t, p)
  {
  }

  lemma TeardownPublishes(s: State, t: nat, ok: bool, pick: Pid, p: Pid)
    requires t < |s.threads| && !IsRefill(s.threads[t]) && !IsWarm(s.threads[t]) && !IsCold(s.threads[t])
    ensures Unpublished(s, StepTeardown(s, t, ok, pick), t, p)
  {
    if s.threads[t].SClaim? || s.threads[t].TClaim? {
      ClaimPublishes(s, t, ok, pick, p);
    } else if s.threads[t].SClose? || s.threads[t].CClose? {
      ClosePublishes(s, t, ok, pick, p);
    } else {
      QuietPublishes(s, StepTeardown(s, t, ok, pick), t, StepTeardown(s, t, ok, pick).threads[t], p);
    }
  }

  lemma ApplyKeepsSuccessOnce(s: State, e: Event, p: Pid)
    requires SuccessOnce(s, p)
    ensures SuccessOnce(Apply(s, e), p)
  {
    if e.Step? {
      if e.t < |s.threads| { StepKeepsSuccessOnce(s, e.t, e.ok, e.pick, p); }
    } else if e.Fork? {
      if ValidFork(e.req, e.count) { ForkKeepsSuccess(s, e.req, e.count, p); }
    } else if e.Attach? || e.Tick? || e.Cancel? || e.Reap? {
      AsideKeepsSuccess(s, Apply(s, e), p);
    } else {
      CallKeepsSuccess(s, e, p);
    }
  }

  lemma CallKeepsSuccess(s: State, e: Event, p: Pid)
    requires SuccessOnce(s, p) && (e.Release? || e.Shutdown? || e.Refill? || e.Close?)
    ensures SuccessOnce(Apply(s, e), p)
  {
    match e
    case Release(id) => GoKeepsSuccess(s, TClaim(id), p);
    case Shutdown => GoKeepsSuccess(s, SClaim, p);
    case Refill(under) => AskedKeepsSuccess(s, under, p);
    case Close => GoKeepsSuccess(s, CClose, p);
  }

  lemma AskedKeepsSuccess(s: State, under: Option<Ctx>, p: Pid)
    requires SuccessOnce(s, p)
    ensures SuccessOnce(Apply(s, Refill(under)), p)
  {
    var s' := s.(warm := s.warm.(asked := s.warm.asked + 1));
    AsideKeepsSuccess(s, s', p);
    GoKeepsSuccess(s', RSpawn(under), p);
  }

  lemma GoKeepsSuccess(s: State, pc: Pc, p: Pid)
    requires SuccessOnce(s, p) && Held(pc) == {} && !pc.FDone?
    ensures SuccessOnce(Go(s, pc), p)
  {
    StartedKeepSuccess(s, [pc], p);
  }

  lemma AsideKeepsSuccess(s: State, r: State, p: Pid)
    requires SuccessOnce(s, p) && r.warm.idle == s.warm.idle && |r.procs| == |s.procs|
    requires r.live == s.live && r.threads == s.threads
    ensures SuccessOnce(r, p)
  {
  }

  lemma ForkKeepsSuccess(s: State, req: Request, count: nat, p: Pid)
    requires SuccessOnce(s, p) && ValidFork(req, count)
    ensures SuccessOnce(Apply(s, Fork(req, count)), p)
  {
    var started := ForkStarts(s, req, count);
    StartedKeepSuccess(s, started, p);
  }

  lemma ForkStarts(s: State, req: Request, count: nat) returns (started: seq<Pc>)
    requires ValidFork(req, count)
    ensures Apply(s, Fork(req, count)) == s.(threads := s.threads + started)
    ensures forall x <- started :: x == FStart(req)
  {
    started := Apply(s, Fork(req, count)).threads[|s.threads|..];
    assert Apply(s, Fork(req, count)).threads == s.threads + started;
  }

  lemma StartedKeepSuccess(s: State, started: seq<Pc>, p: Pid)
    requires SuccessOnce(s, p) && forall x <- started :: Held(x) == {} && !x.FDone?
    ensures SuccessOnce(s.(threads := s.threads + started), p)
  {
    StartedSucceedNever(s, started, p);
  }

  lemma StepKeepsSuccessOnce(s: State, t: nat, ok: bool, pick: Pid, p: Pid)
    requires t < |s.threads| && SuccessOnce(s, p)
    ensures SuccessOnce(StepThread(s, t, ok, pick), p)
  {
    StepTotal(s, t, ok, pick, Before(p));
    StepTotal(s, t, ok, pick, Success(p));
    StepTotal(s, t, ok, pick, Claiming(p));
    var pc := s.threads[t];
    if IsRefill(pc) { RefillPublishes(s, t, ok, pick, p); }
    else if IsWarm(pc) { WarmPublishes(s, t, ok, p); }
    else if IsCold(pc) { ColdPublishes(s, t, ok, pick, p); }
    else { TeardownPublishes(s, t, ok, pick, p); }
    assert Unpublished(s, StepThread(s, t, ok, pick), t, p);
  }

  lemma StartedSucceedNever(s: State, started: seq<Pc>, p: Pid)
    requires forall x <- started :: Held(x) == {} && !x.FDone?
    ensures Total(s.threads + started, Before(p)) == Total(s.threads, Before(p))
    ensures Total(s.threads + started, Success(p)) == Total(s.threads, Success(p))
    ensures Total(s.threads + started, Claiming(p)) == Total(s.threads, Claiming(p))
  {
    TotalAppend(s.threads, Before(p), started);
    TotalAppend(s.threads, Success(p), started);
    TotalAppend(s.threads, Claiming(p), started);
    TotalZero(started, Before(p));
    TotalZero(started, Success(p));
    TotalZero(started, Claiming(p));
  }

  lemma {:induction false} RunsSucceedOnce(s: State, es: seq<Event>, p: Pid)
    requires Init(s)
    ensures SuccessOnce(Exec(s, es), p)
  {
    if es == [] {
      IotaOnce(s.warm.size, p);
    } else {
      RunsSucceedOnce(s, es[..|es| - 1], p);
      ApplyKeepsSuccessOnce(Exec(s, es[..|es| - 1]), es[|es| - 1], p);
    }
  }

  /** Over every run, across all Fork calls: two goroutines that returned success
      returned different processes, and each such process is live, claimed by one
      teardown, or was killed once. */
  lemma SuccessesAreDistinct(s: State, es: seq<Event>, i: nat, j: nat, p: Pid)
    requires Init(s)
    requires var r := Exec(s, es); i < |r.threads| && j < |r.threads| && r.threads[i].FDone? && r.threads[i].p == p
    ensures var r := Exec(s, es); i != j && r.threads[j].FDone? ==> r.threads[j].p != p
    ensures var r := Exec(s, es);
            && p < |r.procs| && r.procs[p].kills <= 1
            && (if p in r.live then 1 else 0) + Total(r.threads, Claiming(p)) + r.procs[p].kills == 1
  {
    var r := Exec(s, es);
    RunsSucceedOnce(s, es, p);
    EveryProcessHasOneOwner(s, es);
    assert Success(p)(r.threads[i]) == 1;
    TotalBound(r.threads, Success(p), i);
    if i < j { TotalBoundTwo(r.threads, Success(p), i, j); } else if j < i { TotalBoundTwo(r.threads, Success(p), j, i); }
    HoldersSplit(r.threads, p);
    assert Owners(r, p) == 1;
  }

  lemma {:induction false} HoldersSplit(ts: seq<Pc>, p: Pid)
    ensures Total(ts, Holds(p)) == Total(ts, Before(p)) + Total(ts, Claiming(p))
  {
    if ts != [] { HoldersSplit(ts[..|ts| - 1], p); }
  }

  // ------------------------------------------------ closing the warm pool

  /** Steps of refill work a goroutine still owes the pool, itself or through the
      Refill it will start. */
  function Work(pc: Pc): nat {
    match pc
    case RSpawn(_) => 7
    case RCheck(_, _) => 6
    case RPrep(_, _, _) => 5
    case RLoad(_, _, _) => 4
    case RFlag(_) => 3
    case RPublish(_) => 2
    case RKill(_) => 1
    case FDrained(_) => 8
    case FWarm(_, _) => 13
    case FPrep(_, _) => 12
    case FLoad(_, _, _) => 11
    case FResume(_, _) => 10
    case FKill(_, _) => 9
    case FRefillErr(_) => 8
    case FRefillOk(_, _) => 8
    case _ => 0
  }

  function Pending(s: State): nat {
    Total(s.threads, Work)
  }

  /** Whether `e` is a step of a goroutine with refill work left. */
  predicate WorksOn(s: State, e: Event) {
    e.Step? && e.t < |s.threads| && Work(s.threads[e.t]) > 0
  }

  lemma RefillWorks(s: State, t: nat, ok: bool, pick: Pid)
    requires t < |s.threads| && IsRefill(s.threads[t])
    ensures Work(StepRefill(s, t, ok, pick).threads[t]) < Work(s.threads[t])
  {
  }

  lemma WarmWorks(s: State, t: nat, ok: bool)
    requires t < |s.threads| && IsWarm(s.threads[t]) && s.warm.closed
    ensures var w := Work(StepWarm(s, t, ok).threads[t]) + (if Started(s, t) == [] then 0 else Work(Started(s, t)[0]));
            if Work(s.threads[t]) > 0 then w < Work(s.threads[t]) else w == 0
  {
  }

  lemma OtherWorks(s: State, t: nat, ok: bool, pick: Pid)
    requires t < |s.threads| && !IsRefill(s.threads[t]) && !IsWarm(s.threads[t])
    ensures Work(StepThread(s, t, ok, pick).threads[t]) == 0
  {
    if IsCold(s.threads[t]) { ColdWorks(s, t, ok, pick); } else { TeardownWorks(s, t, ok, pick); }
  }

  lemma NoWork(pc: Pc)
    requires IsTeardown(pc) || IsOver(pc)
    ensures Work(pc) == 0
  {
  }

  lemma TeardownWorks(s: State, t: nat, ok: bool, pick: Pid)
    requires t < |s.threads| && (IsTeardown(s.threads[t]) || IsOver(s.threads[t]))
    ensures Work(StepTeardown(s, t, ok, pick).threads[t]) == 0
  {
    TeardownStays(s, t, ok, pick);
    NoWork(StepTeardown(s, t, ok, pick).threads[t]);
  }

  lemma ColdWorks(s: State, t: nat, ok: bool, pick: Pid)
    requires t < |s.threads| && IsCold(s.threads[t])
    ensures Work(StepCold(s, t, ok, pick).threads[t]) == 0
  {
    ColdStaysCold(s, t, ok, pick);
  }

  /** Once closed: every step of refill work lowers what is pending, and nothing raises it
      but a direct call of Refill, by a fixed amount. */
  lemma ClosedPoolWindsDown(s: State, e: Event)
    requires s.warm.closed
    ensures if WorksOn(s, e) then Pending(Apply(s, e)) < Pending(s)
            else Pending(Apply(s, e)) == Pending(s) + if e.Refill? then 7 else 0
  {
    match e
    case Step(t, ok, pick) =>
      if t < |s.threads| {
        StepTotal(s, t, ok, pick, Work);
        if IsRefill(s.threads[t]) { RefillWorks(s, t, ok, pick); }
        else if IsWarm(s.threads[t]) { WarmWorks(s, t, ok); }
        else { OtherWorks(s, t, ok, pick); }
      }
    case Fork(req, count) => StartedWorkNot(s, seq(count, _ => FStart(req)));
    case Release(id) => StartedWorkNot(s, [TClaim(id)]);
    case Shutdown => StartedWorkNot(s, [SClaim]);
    case Refill(under) => AskedWorks(s.threads, under);
    case Close => StartedWorkNot(s, [CClose]);
    case _ =>
  }

  lemma AskedWorks(threads: seq<Pc>, under: Option<Ctx>)
    ensures Total(threads + [RSpawn(under)], Work) == Total(threads, Work) + 7
  {
    assert (threads + [RSpawn(under)])[..|threads|] == threads;
  }

  lemma StartedWorkNot(s: State, started: seq<Pc>)
    requires forall x <- started :: Work(x) == 0
    ensures Total(s.threads + started, Work) == Total(s.threads, Work)
  {
    TotalAppend(s.threads, Work, started);
    TotalZero(started, Work);
  }

  /** The number of refill-work steps among the events of a run. */
  function WorkSteps(s: State, es: seq<Event>): nat {
    if es == [] then 0
    else WorkSteps(s, es[..|es| - 1]) + (if WorksOn(Exec(s, es[..|es| - 1]), es[|es| - 1]) then 1 else 0)
  }

  /** The direct calls of Refill among the events of a run. */
  function Asks(es: seq<Event>): nat {
    if es == [] then 0 else Asks(es[..|es| - 1]) + (if es[|es| - 1].Refill? then 1 else 0)
  }

  /** Whatever calls arrive after Close, at most Pending(s) steps of refill work follow, and
      seven for each direct call of Refill. */
  lemma {:induction false} ClosedPoolWorkIsBounded(s: State, es: seq<Event>)
    requires s.warm.closed
    ensures WorkSteps(s, es) + Pending(Exec(s, es)) <= Pending(s) + 7 * Asks(es)
  {
    if es != [] {
      ClosedPoolWorkIsBounded(s, es[..|es| - 1]);
      PreloadNeverChanges(s, es[..|es| - 1]);
      ClosedPoolWindsDown(Exec(s, es[..|es| - 1]), es[|es| - 1]);
    }
  }

  /** While work is pending, some goroutine can do it. */
  lemma PendingWorkCanRun(s: State) returns (t: nat)
    requires s.warm.closed && Pending(s) > 0
    ensures WorksOn(s, Step(t, true, 0)) && Pending(Apply(s, Step(t, true, 0))) < Pending(s)
  {
    t := TotalPositive(s.threads, Work);
    ClosedPoolWindsDown(s, Step(t, true, 0));
  }

  ghost predicate ClosedIsEmpty(s: State) {
    s.warm.closed ==> s.warm.idle == []
  }

  lemma StepKeepsClosedEmpty(s: State, t: nat, ok: bool, pick: Pid)
    requires t < |s.threads| && ClosedIsEmpty(s)
    ensures IsRefill(s.threads[t]) ==> ClosedIsEmpty(StepRefill(s, t, ok, pick))
    ensures IsWarm(s.threads[t]) ==> ClosedIsEmpty(StepWarm(s, t, ok))
    ensures IsCold(s.threads[t]) ==> ClosedIsEmpty(StepCold(s, t, ok, pick))
    ensures ClosedIsEmpty(StepTeardown(s, t, ok, pick))
  {
  }

  lemma {:induction false} ClosedPoolStaysEmpty(s: State, es: seq<Event>)
    requires Init(s)
    ensures ClosedIsEmpty(Exec(s, es))
  {
    if es != [] {
      ClosedPoolStaysEmpty(s, es[..|es| - 1]);
      var r, e := Exec(s, es[..|es| - 1]), es[|es| - 1];
      if e.Step? && e.t < |r.threads| { StepKeepsClosedEmpty(r, e.t, e.ok, e.pick); }
    }
  }

  /** After Close, once no work is pending: idle is empty, Take always errs, and every
      process ever spawned is dead, live, or owned by a fork that took it, a cold
      fork, or a teardown. The warm pool holds none. */
  lemma QuietClosedPoolHoldsNothing(s: State, es: seq<Event>, p: Pid)
    requires Init(s)
    requires var r := Exec(s, es); r.warm.closed && Pending(r) == 0 && p < |r.procs|
    ensures var r := Exec(s, es);
            && r.warm.idle == []
            && (forall t | 0 <= t < |r.threads| && r.threads[t].FTake? :: Apply(r, Step(t, true, 0)).threads[t].FCold?)
            && (r.procs[p].vm == Dead || p in r.live
                || exists t :: 0 <= t < |r.threads| && p in Held(r.threads[t])
                               && (IsCold(r.threads[t]) || r.threads[t].TKill? || r.threads[t].SKill?))
  {
    var r := Exec(s, es);
    ClosedPoolStaysEmpty(s, es);
    RunsAreTame(s, es);
    assert Owners(r, p) == 1;
    if r.procs[p].vm != Dead && p !in r.live {
      var t := TotalPositive(r.threads, Holds(p));
      TotalBound(r.threads, Work, t);
    }
  }
}
