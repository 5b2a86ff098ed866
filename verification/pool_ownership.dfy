/** Every process the pools ever spawned is in exactly one place, once: the idle
    list, one goroutine, the live map, or the grave, and it is killed at most once. */
module PoolOwnership {
  import opened Wrappers
  import opened Tally
  import opened Vm
  import opened PoolMachine

  /** The processes a goroutine owns. */
  function Held(pc: Pc): set<Pid> {
    match pc
    case RCheck(_, p) => {p}
    case RPrep(_, p, _) => {p}
    case RLoad(_, p, _) => {p}
    case RFlag(p) => {p}
    case RPublish(p) => {p}
    case RKill(p) => {p}
    case FWarm(_, p) => {p}
    case FPrep(_, p) => {p}
    case FLoad(_, p, _) => {p}
    case FResume(_, p) => {p}
    case FKill(_, p) => {p}
    case FRefillOk(_, p) => {p}
    case FColdLoad(_, p) => {p}
    case FColdResume(_, p) => {p}
    case FColdKill(p) => {p}
    case FInsert(_, p) => {p}
    case TKill(p) => {p}
    case SKill(_, todo, _, _, _) => todo
    case _ => {}
  }

  function Holds(p: Pid): Pc -> nat {
    pc => if p in Held(pc) then 1 else 0
  }

  function Kills(s: State, p: Pid): nat {
    if p < |s.procs| then s.procs[p].kills else 0
  }

  /** Places outside the goroutines that own `p`, each kill counting as one. */
  function Outside(s: State, p: Pid): nat {
    multiset(s.warm.idle)[p] + (if p in s.live then 1 else 0) + Kills(s, p)
  }

  function Owners(s: State, p: Pid): nat {
    Outside(s, p) + Total(s.threads, Holds(p))
  }

  ghost predicate Owned(s: State) {
    forall p: Pid :: Owners(s, p) == if p < |s.procs| then 1 else 0
  }

  // ------------------------------------------------ consequences of Owned

  lemma HeldFacts(s: State, t: nat, p: Pid)
    requires Owned(s) && t < |s.threads| && p in Held(s.threads[t])
    ensures p < |s.procs| && Outside(s, p) == 0
    ensures p !in s.warm.idle && p !in s.live && s.procs[p].kills == 0
  {
    TotalBound(s.threads, Holds(p), t);
    assert Owners(s, p) >= 1;
    assert p in s.warm.idle ==> multiset(s.warm.idle)[p] >= 1;
  }

  lemma HeldOnce(s: State, i: nat, j: nat, p: Pid)
    requires Owned(s) && i < |s.threads| && j < |s.threads| && i != j && p in Held(s.threads[i])
    ensures p !in Held(s.threads[j])
  {
    if i < j { TotalBoundTwo(s.threads, Holds(p), i, j); } else { TotalBoundTwo(s.threads, Holds(p), j, i); }
    assert Owners(s, p) <= 1;
  }

  lemma IdleFacts(s: State, p: Pid)
    requires Owned(s) && p in s.warm.idle
    ensures p < |s.procs| && multiset(s.warm.idle)[p] == 1 && p !in s.live && s.procs[p].kills == 0
    ensures forall t | 0 <= t < |s.threads| :: p !in Held(s.threads[t])
  {
    assert multiset(s.warm.idle)[p] >= 1;
    assert Owners(s, p) >= 1;
    forall t | 0 <= t < |s.threads| ensures p !in Held(s.threads[t]) {
      TotalBound(s.threads, Holds(p), t);
    }
  }

  lemma LiveFacts(s: State, p: Pid)
    requires Owned(s) && p in s.live
    ensures p < |s.procs| && p !in s.warm.idle && s.procs[p].kills == 0
    ensures forall t | 0 <= t < |s.threads| :: p !in Held(s.threads[t])
  {
    assert Owners(s, p) >= 1;
    assert p in s.warm.idle ==> multiset(s.warm.idle)[p] >= 1;
    forall t | 0 <= t < |s.threads| ensures p !in Held(s.threads[t]) {
      TotalBound(s.threads, Holds(p), t);
    }
  }

  // -------------------------------------------------------- preservation

  /** A step that hands each process on, and owns what it spawns, keeps Owned. */
  lemma HandOver(s: State, s': State, t: nat, pc: Pc, started: seq<Pc>)
    requires Owned(s) && t < |s.threads| && s'.threads == s.threads[t := pc] + started
    requires forall x <- started :: Held(x) == {}
    requires forall p: Pid :: Outside(s', p) + Holds(p)(pc) + (if p < |s.procs| then 1 else 0)
                           == Outside(s, p) + Holds(p)(s.threads[t]) + (if p < |s'.procs| then 1 else 0)
    ensures Owned(s')
  {
    forall p: Pid ensures Owners(s', p) == if p < |s'.procs| then 1 else 0 {
      TotalStep(s.threads, Holds(p), t, pc, started);
      TotalZero(started, Holds(p));
      assert Owners(s, p) == if p < |s.procs| then 1 else 0;
      assert Outside(s', p) + Holds(p)(pc) + (if p < |s.procs| then 1 else 0)
          == Outside(s, p) + Holds(p)(s.threads[t]) + (if p < |s'.procs| then 1 else 0);
    }
  }

  /** The step keeps every process where it is; it may load, resume or flag one. */
  lemma KeepMove(s: State, s': State, t: nat, pc: Pc)
    requires Owned(s) && t < |s.threads| && s'.threads == s.threads[t := pc]
    requires s'.warm.idle == s.warm.idle && s'.live == s.live && |s'.procs| == |s.procs|
    requires forall p | 0 <= p < |s.procs| :: s'.procs[p].kills == s.procs[p].kills
    requires Held(pc) == Held(s.threads[t])
    ensures Owned(s')
  {
    assert s'.threads == s.threads[t := pc] + [];
    HandOver(s, s', t, pc, []);
  }

  /** The step starts a Refill goroutine. */
  lemma StartMove(s: State, s': State, t: nat, pc: Pc, ctx: Option<Ctx>)
    requires Owned(s) && t < |s.threads| && s'.threads == s.threads[t := pc] + [RSpawn(ctx)]
    requires s'.warm.idle == s.warm.idle && s'.live == s.live && s'.procs == s.procs
    requires Held(pc) == Held(s.threads[t])
    ensures Owned(s')
  {
    HandOver(s, s', t, pc, [RSpawn(ctx)]);
  }

  lemma SpawnMove(s: State, s': State, t: nat, pc: Pc)
    requires Owned(s) && t < |s.threads| && s'.threads == s.threads[t := pc]
    requires s'.warm.idle == s.warm.idle && s'.live == s.live
    requires exists proc: Process :: proc.kills == 0 && s'.procs == s.procs + [proc]
    requires Held(s.threads[t]) == {} && Held(pc) == {|s.procs|}
    ensures Owned(s')
  {
    assert s'.threads == s.threads[t := pc] + [];
    HandOver(s, s', t, pc, []);
  }

  /** `p` dies; the goroutine keeps whatever else it owned. */
  lemma KillMove(s: State, s': State, t: nat, pc: Pc, p: Pid)
    requires Owned(s) && t < |s.threads| && s'.threads == s.threads[t := pc]
    requires p in Held(s.threads[t]) && Held(pc) == Held(s.threads[t]) - {p}
    requires s'.warm.idle == s.warm.idle && s'.live == s.live && s'.procs == KillProc(s, p).procs
    ensures Owned(s')
  {
    HeldFacts(s, t, p);
    assert s'.threads == s.threads[t := pc] + [];
    HandOver(s, s', t, pc, []);
  }

  lemma IdleMove(s: State, s': State, t: nat, pc: Pc)
    requires Owned(s) && t < |s.threads| && s'.threads == s.threads[t := pc]
    requires s'.live == s.live && s'.procs == s.procs
    requires forall p: Pid :: multiset(s'.warm.idle)[p] + Holds(p)(pc) == multiset(s.warm.idle)[p] + Holds(p)(s.threads[t])
    ensures Owned(s')
  {
    assert s'.threads == s.threads[t := pc] + [];
    forall p: Pid ensures Outside(s', p) + Holds(p)(pc) == Outside(s, p) + Holds(p)(s.threads[t]) {
      assert multiset(s'.warm.idle)[p] + Holds(p)(pc) == multiset(s.warm.idle)[p] + Holds(p)(s.threads[t]);
    }
    HandOver(s, s', t, pc, []);
  }

  lemma LiveMove(s: State, s': State, t: nat, pc: Pc)
    requires Owned(s) && t < |s.threads| && s'.threads == s.threads[t := pc]
    requires s'.warm.idle == s.warm.idle && s'.procs == s.procs
    requires s'.live.Keys + Held(pc) == s.live.Keys + Held(s.threads[t])
    requires s'.live.Keys !! Held(pc) && s.live.Keys !! Held(s.threads[t])
    ensures Owned(s')
  {
    assert s'.threads == s.threads[t := pc] + [];
    forall p: Pid ensures Outside(s', p) + Holds(p)(pc) == Outside(s, p) + Holds(p)(s.threads[t]) {
      assert p in s'.live.Keys + Held(pc) <==> p in s.live.Keys + Held(s.threads[t]);
    }
    HandOver(s, s', t, pc, []);
  }

  lemma CloseMove(s: State, t: nat, pc: Pc)
    requires Owned(s) && t < |s.threads| && Held(s.threads[t]) == Held(pc) == {}
    ensures Owned(Become(CloseIdle(s), t, pc))
  {
    var s' := Become(CloseIdle(s), t, pc);
    assert s'.threads == s.threads[t := pc] + [];
    forall p: Pid ensures Outside(s', p) == Outside(s, p) {
      if p in s.warm.idle { IdleFacts(s, p); }
    }
    HandOver(s, s', t, pc, []);
  }

  lemma RefillKeepsOwned(s: State, t: nat, ok: bool, pick: Pid)
    requires Owned(s) && t < |s.threads| && IsRefill(s.threads[t])
    ensures Owned(StepRefill(s, t, ok, pick))
  {
    match s.threads[t]
    case RSpawn(_) => RefillStarts(s, t, ok, pick);
    case RCheck(_, _) => RefillStarts(s, t, ok, pick);
    case RPrep(_, p, _) => RefillDrives(s, t, ok, pick, p);
    case RLoad(_, p, _) => RefillDrives(s, t, ok, pick, p);
    case RFlag(p) => RefillDrives(s, t, ok, pick, p);
    case RPublish(p) => RefillEnds(s, t, ok, pick, p);
    case RKill(p) => RefillEnds(s, t, ok, pick, p);
  }

  lemma RefillStarts(s: State, t: nat, ok: bool, pick: Pid)
    requires Owned(s) && t < |s.threads| && (s.threads[t].RSpawn? || s.threads[t].RCheck?)
    ensures Owned(StepRefill(s, t, ok, pick))
  {
    var s' := StepRefill(s, t, ok, pick);
    if s.threads[t].RSpawn? && s'.threads[t].RCheck? {
      assert s'.procs == s.procs + [s'.procs[|s.procs|]];
      SpawnMove(s, s', t, s'.threads[t]);
    } else {
      KeepMove(s, s', t, s'.threads[t]);
    }
  }

  lemma RefillEnds(s: State, t: nat, ok: bool, pick: Pid, p: Pid)
    requires Owned(s) && t < |s.threads| && (s.threads[t] == RPublish(p) || s.threads[t] == RKill(p))
    ensures Owned(StepRefill(s, t, ok, pick))
  {
    if s.threads[t].RKill? || s.warm.closed {
      KillMove(s, StepRefill(s, t, ok, pick), t, Exit, p);
    } else {
      PublishKeepsOwned(s, t, ok, pick, p);
    }
  }

  lemma PublishKeepsOwned(s: State, t: nat, ok: bool, pick: Pid, p: Pid)
    requires Owned(s) && t < |s.threads| && s.threads[t] == RPublish(p) && !s.warm.closed
    ensures Owned(StepRefill(s, t, ok, pick))
  {
    IdleMove(s, StepRefill(s, t, ok, pick), t, Exit);
  }

  lemma RefillDrives(s: State, t: nat, ok: bool, pick: Pid, p: Pid)
    requires Owned(s) && t < |s.threads| && Held(s.threads[t]) == {p}
    requires s.threads[t].RPrep? || s.threads[t].RLoad? || s.threads[t].RFlag?
    ensures Owned(StepRefill(s, t, ok, pick))
  {
    HeldFacts(s, t, p);
    KeepMove(s, StepRefill(s, t, ok, pick), t, StepRefill(s, t, ok, pick).threads[t]);
  }

  lemma TakeKeepsOwned(s: State, t: nat, ok: bool)
    requires Owned(s) && t < |s.threads| && s.threads[t].FTake?
    ensures Owned(StepWarm(s, t, ok))
  {
    var s', pc := StepWarm(s, t, ok), StepWarm(s, t, ok).threads[t];
    if s.warm.closed || s.warm.idle == [] {
      KeepMove(s, s', t, pc);
    } else {
      PopKeepsOwned(s, t, ok);
    }
  }

  lemma PopKeepsOwned(s: State, t: nat, ok: bool)
    requires Owned(s) && t < |s.threads| && s.threads[t].FTake? && !s.warm.closed && s.warm.idle != []
    ensures Owned(StepWarm(s, t, ok))
  {
    var last := |s.warm.idle| - 1;
    assert s.warm.idle == s.warm.idle[..last] + [s.warm.idle[last]];
    IdleMove(s, StepWarm(s, t, ok), t, FWarm(s.threads[t].req, s.warm.idle[last]));
  }

  lemma WarmDrives(s: State, t: nat, ok: bool, p: Pid)
    requires Owned(s) && t < |s.threads| && Held(s.threads[t]) == {p}
    requires s.threads[t].FPrep? || s.threads[t].FLoad? || s.threads[t].FResume?
    ensures Owned(StepWarm(s, t, ok))
  {
    HeldFacts(s, t, p);
    KeepMove(s, StepWarm(s, t, ok), t, StepWarm(s, t, ok).threads[t]);
  }

  lemma WarmStarts(s: State, t: nat, ok: bool)
    requires Owned(s) && t < |s.threads|
    requires s.threads[t].FDrained? || s.threads[t].FRefillErr? || s.threads[t].FRefillOk?
    ensures Owned(StepWarm(s, t, ok))
  {
    var s' := StepWarm(s, t, ok);
    match s.threads[t]
    case FDrained(req) =>
      if s'.warm == s.warm { KeepMove(s, s', t, FCold(req)); } else { StartMove(s, s', t, FCold(req), None); }
    case FRefillErr(ctx) => StartMove(s, s', t, FFailed, ctx);
    case FRefillOk(req, p) => StartMove(s, s', t, FInsert(LiveFork(req, true), p), req.ctx);
  }

  lemma WarmTurns(s: State, t: nat, ok: bool)
    requires Owned(s) && t < |s.threads|
    requires s.threads[t].FStart? || s.threads[t].FWarm? || s.threads[t].FKill?
    ensures Owned(StepWarm(s, t, ok))
  {
    var s', pc := StepWarm(s, t, ok), StepWarm(s, t, ok).threads[t];
    if s.threads[t].FKill? { KillMove(s, s', t, pc, s.threads[t].p); } else { KeepMove(s, s', t, pc); }
  }

  lemma WarmKeepsOwned(s: State, t: nat, ok: bool)
    requires Owned(s) && t < |s.threads| && IsWarm(s.threads[t])
    ensures Owned(StepWarm(s, t, ok))
  {
    match s.threads[t]
    case FStart(_) => WarmTurns(s, t, ok);
    case FTake(_) => TakeKeepsOwned(s, t, ok);
    case FWarm(_, _) => WarmTurns(s, t, ok);
    case FPrep(_, p) => WarmDrives(s, t, ok, p);
    case FLoad(_, p, _) => WarmDrives(s, t, ok, p);
    case FResume(_, p) => WarmDrives(s, t, ok, p);
    case FKill(_, _) => WarmTurns(s, t, ok);
    case _ => WarmStarts(s, t, ok);
  }

  lemma ColdDrives(s: State, t: nat, ok: bool, pick: Pid, p: Pid)
    requires Owned(s) && t < |s.threads| && Held(s.threads[t]) == {p}
    requires s.threads[t].FColdLoad? || s.threads[t].FColdResume?
    ensures Owned(StepCold(s, t, ok, pick))
  {
    HeldFacts(s, t, p);
    KeepMove(s, StepCold(s, t, ok, pick), t, StepCold(s, t, ok, pick).threads[t]);
  }

  lemma ColdSpawns(s: State, t: nat, ok: bool, pick: Pid)
    requires Owned(s) && t < |s.threads| && s.threads[t].FCold?
    ensures Owned(StepCold(s, t, ok, pick))
  {
    var s' := StepCold(s, t, ok, pick);
    if s'.threads[t].FColdLoad? {
      assert s'.procs == s.procs + [s'.procs[|s.procs|]];
      SpawnMove(s, s', t, s'.threads[t]);
    } else {
      KeepMove(s, s', t, FFailed);
    }
  }

  lemma ColdEnds(s: State, t: nat, ok: bool, pick: Pid, p: Pid)
    requires Owned(s) && t < |s.threads| && Held(s.threads[t]) == {p} && (s.threads[t].FColdKill? || s.threads[t].FInsert?)
    ensures Owned(StepCold(s, t, ok, pick))
  {
    var s' := StepCold(s, t, ok, pick);
    HeldFacts(s, t, p);
    if s.threads[t].FColdKill? { KillMove(s, s', t, FFailed, p); } else { LiveMove(s, s', t, s'.threads[t]); }
  }

  lemma ColdKeepsOwned(s: State, t: nat, ok: bool, pick: Pid)
    requires Owned(s) && t < |s.threads| && IsCold(s.threads[t])
    ensures Owned(StepCold(s, t, ok, pick))
  {
    match s.threads[t]
    case FCold(_) => ColdSpawns(s, t, ok, pick);
    case FColdLoad(_, p) => ColdDrives(s, t, ok, pick, p);
    case FColdResume(_, p) => ColdDrives(s, t, ok, pick, p);
    case FColdKill(p) => ColdEnds(s, t, ok, pick, p);
    case FInsert(_, p) => ColdEnds(s, t, ok, pick, p);
  }

  lemma ClaimKeepsOwned(s: State, t: nat, ok: bool, pick: Pid)
    requires Owned(s) && t < |s.threads| && (s.threads[t].TClaim? || s.threads[t].SClaim?)
    ensures Owned(StepTeardown(s, t, ok, pick))
  {
    var s', pc := StepTeardown(s, t, ok, pick), StepTeardown(s, t, ok, pick).threads[t];
    if s.threads[t].TClaim? && s.threads[t].id !in s.live {
      KeepMove(s, s', t, pc);
    } else {
      LiveMove(s, s', t, pc);
    }
  }

  lemma ReapKeepsOwned(s: State, t: nat, ok: bool, pick: Pid)
    requires Owned(s) && t < |s.threads| && (s.threads[t].TKill? || s.threads[t].SKill?)
    ensures Owned(StepTeardown(s, t, ok, pick))
  {
    var s', pc := StepTeardown(s, t, ok, pick), StepTeardown(s, t, ok, pick).threads[t];
    if s.threads[t].TKill? {
      KillMove(s, s', t, pc, s.threads[t].p);
    } else if pick in s.threads[t].todo {
      KillMove(s, s', t, pc, pick);
    } else {
      KeepMove(s, s', t, pc);
    }
  }

  lemma CloseKeepsOwned(s: State, t: nat, ok: bool, pick: Pid)
    requires Owned(s) && t < |s.threads| && (s.threads[t].SClose? || s.threads[t].CClose?)
    ensures Owned(StepTeardown(s, t, ok, pick))
  {
    CloseMove(s, t, StepTeardown(s, t, ok, pick).threads[t]);
  }

  lemma TeardownKeepsOwned(s: State, t: nat, ok: bool, pick: Pid)
    requires Owned(s) && t < |s.threads|
    ensures Owned(StepTeardown(s, t, ok, pick))
  {
    match s.threads[t]
    case TClaim(_) => ClaimKeepsOwned(s, t, ok, pick);
    case SClaim => ClaimKeepsOwned(s, t, ok, pick);
    case TKill(_) => ReapKeepsOwned(s, t, ok, pick);
    case SKill(_, _, _, _, _) => ReapKeepsOwned(s, t, ok, pick);
    case SClose(_, _, _) => CloseKeepsOwned(s, t, ok, pick);
    case CClose => CloseKeepsOwned(s, t, ok, pick);
    case _ =>
  }

  lemma StartedKeepOwned(s: State, started: seq<Pc>)
    requires Owned(s) && forall x <- started :: Held(x) == {}
    ensures Owned(s.(threads := s.threads + started))
  {
    forall p: Pid ensures Owners(s.(threads := s.threads + started), p) == Owners(s, p) {
      TotalAppend(s.threads, Holds(p), started);
      TotalZero(started, Holds(p));
    }
  }

  lemma ApplyKeepsOwned(s: State, e: Event)
    requires Owned(s)
    ensures Owned(Apply(s, e))
  {
    match e
    case Step(t, ok, pick) =>
      if t < |s.threads| {
        if IsRefill(s.threads[t]) { RefillKeepsOwned(s, t, ok, pick); }
        else if IsWarm(s.threads[t]) { WarmKeepsOwned(s, t, ok); }
        else if IsCold(s.threads[t]) { ColdKeepsOwned(s, t, ok, pick); }
        else { TeardownKeepsOwned(s, t, ok, pick); }
      }
    case Fork(req, count) => StartedKeepOwned(s, seq(count, _ => FStart(req)));
    case Release(id) => StartedKeepOwned(s, [TClaim(id)]);
    case Shutdown => StartedKeepOwned(s, [SClaim]);
    case Refill(under) =>
      SameOwners(s, s.(warm := s.warm.(asked := s.warm.asked + 1)));
      StartedKeepOwned(s.(warm := s.warm.(asked := s.warm.asked + 1)), [RSpawn(under)]);
    case Close => StartedKeepOwned(s, [CClose]);
    case Attach => SameOwners(s, s.(attached := true));
    case Tick(ns) => SameOwners(s, s.(now := s.now + ns));
    case Cancel(ctx) => SameOwners(s, Apply(s, e));
    case Reap(p) => SameOwners(s, Apply(s, e));
  }

  lemma SameOwners(s: State, s': State)
    requires Owned(s) && |s'.procs| == |s.procs| && s'.warm.idle == s.warm.idle
    requires forall p | 0 <= p < |s.procs| :: s'.procs[p].kills == s.procs[p].kills
    requires s'.live == s.live && s'.threads == s.threads
    ensures Owned(s')
  {
    forall p: Pid ensures Owners(s', p) == Owners(s, p) {}
  }

  lemma InitOwned(s: State)
    requires Init(s)
    ensures Owned(s)
  {
    forall p: Pid ensures Owners(s, p) == if p < |s.procs| then 1 else 0 {
      IotaOnce(s.warm.size, p);
      if p < |s.procs| { assert s.procs[p] in s.procs; }
    }
  }

  lemma {:induction false} IotaOnce(n: nat, p: Pid)
    ensures multiset(seq(n, i => i))[p] == if p < n then 1 else 0
  {
    if n > 0 {
      IotaOnce(n - 1, p);
      assert seq(n, i => i) == seq(n - 1, i => i) + [n - 1];
    }
  }

  /** Over every run from a constructor: each spawned process has exactly one
      owner, so none is lost, none is owned twice and none is killed twice. */
  lemma {:induction false} EveryProcessHasOneOwner(s: State, es: seq<Event>)
    requires Init(s)
    ensures Owned(Exec(s, es))
  {
    if es == [] {
      InitOwned(s);
    } else {
      EveryProcessHasOneOwner(s, es[..|es| - 1]);
      ApplyKeepsOwned(Exec(s, es[..|es| - 1]), es[|es| - 1]);
    }
  }
}
