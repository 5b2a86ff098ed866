/** What runs where: every idle slot of an ultra-warm pool holds the pool's snapshot,
    every live fork runs the snapshot its path promises, both until a context they are
    tied to is done, and a finished Shutdown has killed all it claimed. */
module PoolSnapshots {
  import opened Wrappers
  import opened Jails
  import opened Vm
  import opened PoolMachine
  import opened PoolOwnership

  /** The snapshot a warm fork ends up running: a preloaded slot ignores the request. */
  function WarmSnap(preload: Option<Snapshot>, req: Request): Snapshot {
    if preload.Some? then preload.value else req.snap
  }

  /** The chroot of a cold fork: its host files, linked in some order. */
  ghost predicate Linked(req: Request, chroot: Option<Jail>) {
    exists pick: nat :: Prepare(req.jail, ColdFiles(req), pick) == Some(chroot)
  }

  /** The snapshot a cold fork ends up running: what the paths it loads lead to. A fork
      whose paths lead nowhere never runs. */
  function ColdSnap(req: Request, chroot: Option<Jail>): Snapshot {
    match Load(Spawned(chroot, None), ColdPaths(req))
    case Some(loaded) => loaded.vm.snap
    case None => req.snap
  }

  function RunsSnap(preload: Option<Snapshot>, fork: LiveFork, chroot: Option<Jail>): Snapshot {
    if fork.warm then WarmSnap(preload, fork.req) else ColdSnap(fork.req, chroot)
  }

  /** `p` is in state `vm`, unless the watcher of its context has killed it. */
  ghost predicate At(s: State, p: Pid, vm: VmState) {
    p < |s.procs| && (s.procs[p].vm == vm || (s.procs[p].vm.Dead? && Doomed(s.done, s.procs[p])))
  }

  /** A pool killed `p`. */
  ghost predicate Killed(s: State, p: Pid) {
    p < |s.procs| && s.procs[p].vm.Dead? && s.procs[p].kills > 0
  }

  ghost predicate Cleared(s: State, p: Pid) {
    At(s, p, Empty) && !s.procs[p].preloaded
  }

  /** A process the warm pool spawned: no context is tied to an unjailed one. */
  ghost predicate FromPool(s: State, p: Pid) {
    p < |s.procs| && MadeFrom(s.warm.template, s.procs[p].chroot) && (s.warm.template.None? ==> s.procs[p].ctx.None?)
  }

  /** A process a cold fork started, under the context of its own call. */
  ghost predicate FromCold(s: State, req: Request, p: Pid) {
    p < |s.procs| && Linked(req, s.procs[p].chroot) && s.procs[p].ctx == req.ctx
  }

  ghost predicate Bound(s: State, fork: LiveFork, p: Pid) {
    if fork.warm then FromPool(s, p) else FromCold(s, fork.req, p)
  }

  ghost predicate Runs(s: State, fork: LiveFork, p: Pid) {
    Bound(s, fork, p) && At(s, p, Running(RunsSnap(s.warm.preload, fork, s.procs[p].chroot)))
  }

  /** What each program counter knows about the processes it owns or killed. */
  ghost predicate PcOk(s: State, pc: Pc) {
    match pc
    case RCheck(_, p) => Cleared(s, p) && FromPool(s, p)
    case RPrep(_, p, snap) => Cleared(s, p) && FromPool(s, p) && s.warm.preload == Some(snap)
    case RLoad(_, p, inside) =>
      && Cleared(s, p) && FromPool(s, p) && s.warm.preload.Some?
      && (s.procs[p].vm.Empty? ==>
            Load(s.procs[p], inside) == Some(s.procs[p].(vm := Loaded(s.warm.preload.value))))
    case RFlag(p) => s.warm.preload.Some? && At(s, p, Loaded(s.warm.preload.value)) && FromPool(s, p)
    case RPublish(p) => Ready(s, p)
    case FWarm(_, p) => Ready(s, p)
    case FPrep(_, p) => Cleared(s, p) && FromPool(s, p) && s.warm.preload.None?
    case FLoad(req, p, inside) =>
      && Cleared(s, p) && FromPool(s, p) && s.warm.preload.None?
      && (s.procs[p].vm.Empty? ==> Load(s.procs[p], inside) == Some(s.procs[p].(vm := Loaded(req.snap))))
    case FResume(req, p) => At(s, p, Loaded(WarmSnap(s.warm.preload, req))) && FromPool(s, p)
    case FRefillOk(req, p) => At(s, p, Running(WarmSnap(s.warm.preload, req))) && FromPool(s, p)
    case FColdLoad(req, p) => FromCold(s, req, p) && At(s, p, Empty)
    case FColdResume(req, p) => FromCold(s, req, p) && At(s, p, Loaded(ColdSnap(req, s.procs[p].chroot)))
    case FInsert(fork, p) => Runs(s, fork, p)
    case SKill(claimed, todo, stopped, failed, _) =>
      && todo <= claimed && stopped + failed + |todo| == |claimed|
      && forall p | p in claimed && p !in todo :: Killed(s, p)
    case SClose(claimed, stopped, failed) => stopped + failed == |claimed| && forall p | p in claimed :: Killed(s, p)
    case SDone(claimed, stopped, failed) => stopped + failed == |claimed| && forall p | p in claimed :: Killed(s, p)
    case _ => true
  }

  /** An idle slot, flagged Preloaded with the pool's snapshot loaded, or empty. */
  ghost predicate Ready(s: State, p: Pid) {
    && FromPool(s, p)
    && if s.warm.preload.Some? then s.procs[p].preloaded && At(s, p, Loaded(s.warm.preload.value)) else Cleared(s, p)
  }

  ghost predicate IdleOk(s: State) {
    forall p <- s.warm.idle :: Ready(s, p)
  }

  ghost predicate LiveOk(s: State) {
    forall p <- s.live :: Runs(s, s.live[p], p)
  }

  /** Dead means killed by a pool, or by the watcher of a context that is done. */
  predicate Mortal(done: set<Ctx>, proc: Process) {
    (proc.kills > 0 ==> proc.vm.Dead?) && (proc.vm.Dead? ==> proc.kills > 0 || Doomed(done, proc))
  }

  ghost predicate Tame(s: State) {
    && Owned(s) && IdleOk(s) && LiveOk(s)
    && (forall t | 0 <= t < |s.threads| :: PcOk(s, s.threads[t]))
    && (forall p | 0 <= p < |s.procs| :: Mortal(s.done, s.procs[p]))
    && (s.warm.preload.Some? ==> Fits(s.warm.template))
  }

  predicate SamePool(s: State, s': State) {
    s'.warm.preload == s.warm.preload && s'.warm.template == s.warm.template
  }

  /** The processes a step of `t` may change: what it owns, and what it kills in idle. */
  ghost predicate Local(s: State, s': State, t: nat)
    requires t < |s.threads|
  {
    && SamePool(s, s') && s'.done == s.done && |s.procs| <= |s'.procs|
    && (forall p | 0 <= p < |s.procs| && s'.procs[p] != s.procs[p] ::
          p in Held(s.threads[t]) || (p in s.warm.idle && s'.warm.idle == []))
    && (forall p | 0 <= p < |s'.procs| && (p < |s.procs| ==> s'.procs[p] != s.procs[p]) ::
          Mortal(s'.done, s'.procs[p]))
  }

  lemma ChangedIsOwn(s: State, s': State, t: nat, p: Pid)
    requires Tame(s) && t < |s.threads| && Local(s, s', t)
    requires p < |s.procs| && s'.procs[p] != s.procs[p]
    ensures s.procs[p].kills == 0 && p !in s.live
    ensures forall j | 0 <= j < |s.threads| && j != t :: p !in Held(s.threads[j])
  {
    if p in Held(s.threads[t]) {
      HeldFacts(s, t, p);
      forall j | 0 <= j < |s.threads| && j != t { HeldOnce(s, t, j, p); }
    } else {
      IdleFacts(s, p);
    }
  }

  lemma FramePc(s: State, s': State, pc: Pc)
    requires PcOk(s, pc) && SamePool(s, s') && s'.done == s.done && |s.procs| <= |s'.procs|
    requires forall p | 0 <= p < |s.procs| && s'.procs[p] != s.procs[p] ::
               p !in Held(pc) && s.procs[p].kills == 0
    ensures PcOk(s', pc)
  {
  }

  predicate StartsRefills(started: seq<Pc>) {
    started == [] || (|started| == 1 && started[0].RSpawn?)
  }

  lemma StepKeepsTame(s: State, s': State, t: nat, pc: Pc, started: seq<Pc>)
    requires Tame(s) && t < |s.threads| && Local(s, s', t) && Owned(s')
    requires s'.threads == s.threads[t := pc] + started && PcOk(s', pc)
    requires StartsRefills(started)
    requires IdleOk(s') && LiveOk(s')
    ensures Tame(s')
  {
    forall j | 0 <= j < |s.threads| && j != t ensures PcOk(s', s.threads[j]) {
      forall p | 0 <= p < |s.procs| && s'.procs[p] != s.procs[p]
        ensures p !in Held(s.threads[j]) && s.procs[p].kills == 0
      {
        ChangedIsOwn(s, s', t, p);
      }
      FramePc(s, s', s.threads[j]);
    }
  }

  /** A step that adds nothing to idle or live leaves what is there as it was. */
  lemma QuietStep(s: State, s': State, t: nat, pc: Pc, started: seq<Pc>)
    requires Tame(s) && t < |s.threads| && Local(s, s', t) && Owned(s')
    requires s'.threads == s.threads[t := pc] + started && PcOk(s', pc)
    requires StartsRefills(started)
    requires forall p <- s'.warm.idle :: p in s.warm.idle
    requires s'.live.Keys <= s.live.Keys && forall p <- s'.live :: s'.live[p] == s.live[p]
    ensures Tame(s')
  {
    forall p | p in s'.warm.idle ensures Ready(s', p) {
      IdleFacts(s, p);
    }
    forall p | p in s'.live ensures Runs(s', s'.live[p], p) {
      LiveFacts(s, p);
    }
    StepKeepsTame(s, s', t, pc, started);
  }

  /** The step changes no process. */
  lemma TurnMove(s: State, s': State, t: nat, pc: Pc, started: seq<Pc>)
    requires Tame(s) && t < |s.threads| && Owned(s') && s'.procs == s.procs
    requires SamePool(s, s') && s'.done == s.done
    requires s'.threads == s.threads[t := pc] + started && PcOk(s', pc)
    requires StartsRefills(started)
    requires forall p <- s'.warm.idle :: p in s.warm.idle
    requires s'.live.Keys <= s.live.Keys && forall p <- s'.live :: s'.live[p] == s.live[p]
    ensures Tame(s')
  {
    QuietStep(s, s', t, pc, started);
  }

  /** The step drives, flags or kills one process it owns. */
  lemma DriveMove(s: State, s': State, t: nat, pc: Pc, p: Pid, proc: Process)
    requires Tame(s) && t < |s.threads| && Owned(s')
    requires p in Held(s.threads[t]) && p < |s.procs| && s'.procs == s.procs[p := proc]
    requires Mortal(s.done, proc)
    requires s'.threads == s.threads[t := pc] && PcOk(s', pc)
    requires SamePool(s, s') && s'.done == s.done && s'.warm.idle == s.warm.idle && s'.live == s.live
    ensures Tame(s')
  {
    assert s'.threads == s.threads[t := pc] + [];
    QuietStep(s, s', t, pc, []);
  }

  lemma SpawnedMove(s: State, s': State, t: nat, pc: Pc, proc: Process)
    requires Tame(s) && t < |s.threads| && Owned(s')
    requires s'.procs == s.procs + [proc] && !proc.vm.Dead? && proc.kills == 0
    requires s'.threads == s.threads[t := pc] && PcOk(s', pc)
    requires s'.warm == s.warm && s'.live == s.live && s'.done == s.done
    ensures Tame(s')
  {
    assert s'.threads == s.threads[t := pc] + [];
    QuietStep(s, s', t, pc, []);
  }

  lemma KillPreservesTame(s: State, s': State, t: nat, pc: Pc, p: Pid)
    requires Tame(s) && t < |s.threads| && Owned(s') && p in Held(s.threads[t])
    requires s'.procs == KillProc(s, p).procs && s'.threads == s.threads[t := pc] && PcOk(s', pc)
    requires SamePool(s, s') && s'.done == s.done && s'.warm.idle == s.warm.idle && s'.live == s.live
    ensures Tame(s')
  {
    HeldFacts(s, t, p);
    DriveMove(s, s', t, pc, p, Kill(s.procs[p]));
  }

  lemma ClosePreservesTame(s: State, t: nat, pc: Pc)
    requires Tame(s) && t < |s.threads| && Owned(Become(CloseIdle(s), t, pc))
    requires PcOk(s, pc) && Held(pc) == {}
    ensures Tame(Become(CloseIdle(s), t, pc))
  {
    var s' := Become(CloseIdle(s), t, pc);
    assert s'.threads == s.threads[t := pc] + [];
    forall p | p in s.warm.idle { IdleFacts(s, p); }
    FramePc(s, s', pc);
    QuietStep(s, s', t, pc, []);
  }

  lemma RefillKeepsTame(s: State, t: nat, ok: bool, pick: Pid)
    requires Tame(s) && t < |s.threads| && IsRefill(s.threads[t])
    ensures Tame(StepRefill(s, t, ok, pick))
  {
    RefillKeepsOwned(s, t, ok, pick);
    var s', pc := StepRefill(s, t, ok, pick), StepRefill(s, t, ok, pick).threads[t];
    match s.threads[t]
    case RSpawn(_) => if pc.RCheck? { SpawnKeepsTame(s, t, ok, pick); } else { TurnRefill(s, t, ok, pick); }
    case RCheck(_, _) => TurnRefill(s, t, ok, pick);
    case RPublish(_) => PublishKeepsTame(s, t, ok, pick);
    case RKill(p) => KillPreservesTame(s, s', t, pc, p);
    case RPrep(_, p, _) => RefillDrivesTame(s, t, ok, pick, p);
    case RLoad(_, p, _) => RefillDrivesTame(s, t, ok, pick, p);
    case RFlag(p) => RefillDrivesTame(s, t, ok, pick, p);
  }

  lemma SpawnKeepsTame(s: State, t: nat, ok: bool, pick: Pid)
    requires Tame(s) && t < |s.threads| && s.threads[t].RSpawn? && StepRefill(s, t, ok, pick).threads[t].RCheck?
    requires Owned(StepRefill(s, t, ok, pick))
    ensures Tame(StepRefill(s, t, ok, pick))
  {
    var s' := StepRefill(s, t, ok, pick);
    SpawnIsMadeFrom(s.warm.template, pick);
    SpawnedMove(s, s', t, s'.threads[t], s'.procs[|s.procs|]);
  }

  lemma TurnRefill(s: State, t: nat, ok: bool, pick: Pid)
    requires Tame(s) && t < |s.threads| && Owned(StepRefill(s, t, ok, pick))
    requires (s.threads[t].RSpawn? && StepRefill(s, t, ok, pick).threads[t].Exit?) || s.threads[t].RCheck?
    ensures Tame(StepRefill(s, t, ok, pick))
  {
    var s', pc := StepRefill(s, t, ok, pick), StepRefill(s, t, ok, pick).threads[t];
    assert s'.threads == s.threads[t := pc] + [];
    assert PcOk(s, s.threads[t]);
    TurnMove(s, s', t, pc, []);
  }

  lemma PublishKeepsTame(s: State, t: nat, ok: bool, pick: Pid)
    requires Tame(s) && t < |s.threads| && s.threads[t].RPublish? && Owned(StepRefill(s, t, ok, pick))
    ensures Tame(StepRefill(s, t, ok, pick))
  {
    var s', pc, p := StepRefill(s, t, ok, pick), Exit, s.threads[t].p;
    if s.warm.closed {
      KillPreservesTame(s, s', t, pc, p);
    } else {
      assert s'.threads == s.threads[t := pc] + [];
      assert PcOk(s, s.threads[t]);
      StepKeepsTame(s, s', t, pc, []);
    }
  }

  lemma RefillDrivesTame(s: State, t: nat, ok: bool, pick: Pid, p: Pid)
    requires Tame(s) && t < |s.threads| && Held(s.threads[t]) == {p} && Owned(StepRefill(s, t, ok, pick))
    requires s.threads[t].RPrep? || s.threads[t].RLoad? || s.threads[t].RFlag?
    ensures Tame(StepRefill(s, t, ok, pick))
  {
    var s', pc := StepRefill(s, t, ok, pick), StepRefill(s, t, ok, pick).threads[t];
    assert PcOk(s, s.threads[t]);
    HeldFacts(s, t, p);
    if s.threads[t].RPrep? { PrepKeepsSlot(s, p, s.threads[t].snap); }
    DriveMove(s, s', t, pc, p, s'.procs[p]);
  }

  /** What snapForSlot leaves: a slot of the same pool from which the snapshot loads. */
  lemma PrepKeepsSlot(s: State, p: Pid, snap: Snapshot)
    requires FromPool(s, p)
    ensures SnapForSlot(s.procs[p], snap).Some? <==> Fits(s.warm.template)
    ensures match SnapForSlot(s.procs[p], snap)
            case None => true
            case Some((proc, inside)) =>
              && MadeFrom(s.warm.template, proc.chroot) && proc == s.procs[p].(chroot := proc.chroot)
              && (proc.vm.Empty? ==> Load(proc, inside) == Some(proc.(vm := Loaded(snap))))
  {
    SlotTakesIffFits(s.warm.template, s.procs[p], snap);
    if SnapForSlot(s.procs[p], snap).Some? && s.procs[p].vm.Empty? { SlotPathsResolveToHost(s.procs[p], snap, false); }
  }

  lemma WarmKeepsTame(s: State, t: nat, ok: bool)
    requires Tame(s) && t < |s.threads| && IsWarm(s.threads[t])
    ensures Tame(StepWarm(s, t, ok))
  {
    WarmKeepsOwned(s, t, ok);
    match s.threads[t]
    case FPrep(_, p) => WarmDrivesTame(s, t, ok, p);
    case FLoad(_, p, _) => WarmDrivesTame(s, t, ok, p);
    case FResume(_, p) => WarmDrivesTame(s, t, ok, p);
    case FTake(_) => TakeKeepsTame(s, t, ok);
    case FDrained(_) => WarmStartsTame(s, t, ok);
    case FRefillErr(_) => WarmStartsTame(s, t, ok);
    case FRefillOk(_, _) => WarmStartsTame(s, t, ok);
    case _ => TurnWarm(s, t, ok);
  }

  lemma TakeKeepsTame(s: State, t: nat, ok: bool)
    requires Tame(s) && t < |s.threads| && s.threads[t].FTake? && Owned(StepWarm(s, t, ok))
    ensures Tame(StepWarm(s, t, ok))
  {
    var s', pc := StepWarm(s, t, ok), StepWarm(s, t, ok).threads[t];
    assert s'.threads == s.threads[t := pc] + [];
    if !s.warm.closed && s.warm.idle != [] { assert s.warm.idle[|s.warm.idle| - 1] in s.warm.idle; }
    TurnMove(s, s', t, pc, []);
  }

  lemma TurnWarm(s: State, t: nat, ok: bool)
    requires Tame(s) && t < |s.threads| && Owned(StepWarm(s, t, ok))
    requires s.threads[t].FStart? || s.threads[t].FWarm? || s.threads[t].FKill?
    ensures Tame(StepWarm(s, t, ok))
  {
    var s', pc := StepWarm(s, t, ok), StepWarm(s, t, ok).threads[t];
    assert PcOk(s, s.threads[t]);
    if s.threads[t].FKill? {
      KillPreservesTame(s, s', t, pc, s.threads[t].p);
    } else {
      assert s'.threads == s.threads[t := pc] + [];
      TurnMove(s, s', t, pc, []);
    }
  }

  lemma WarmStartsTame(s: State, t: nat, ok: bool)
    requires Tame(s) && t < |s.threads| && Owned(StepWarm(s, t, ok))
    requires s.threads[t].FDrained? || s.threads[t].FRefillErr? || s.threads[t].FRefillOk?
    ensures Tame(StepWarm(s, t, ok))
  {
    var s', started := StepWarm(s, t, ok), Started(s, t);
    assert PcOk(s, s.threads[t]) && StartsRefills(started);
    if s.threads[t].FRefillOk? { RefillOkPc(s, s', s.threads[t].req, s.threads[t].p); }
    TurnMove(s, s', t, s'.threads[t], started);
  }

  lemma RefillOkPc(s: State, s': State, req: Request, p: Pid)
    requires PcOk(s, FRefillOk(req, p)) && s'.procs == s.procs && s'.warm == s.warm && s'.done == s.done
    ensures PcOk(s', FInsert(LiveFork(req, true), p))
  {
  }

  lemma WarmDrivesTame(s: State, t: nat, ok: bool, p: Pid)
    requires Tame(s) && t < |s.threads| && Held(s.threads[t]) == {p} && Owned(StepWarm(s, t, ok))
    requires s.threads[t].FPrep? || s.threads[t].FLoad? || s.threads[t].FResume?
    ensures Tame(StepWarm(s, t, ok))
  {
    HeldFacts(s, t, p);
    DriveWarmOk(s, t, ok, p);
    DriveMove(s, StepWarm(s, t, ok), t, StepWarm(s, t, ok).threads[t], p, StepWarm(s, t, ok).procs[p]);
  }

  /** What a step that drives one warm slot leaves. */
  ghost predicate Driven(s: State, s': State, t: nat, p: Pid)
    requires t < |s.threads|
  {
    && t < |s'.threads| && p < |s.procs| && p < |s'.procs| && s'.procs == s.procs[p := s'.procs[p]]
    && PcOk(s', s'.threads[t]) && Mortal(s.done, s'.procs[p])
    && s'.done == s.done && s'.warm == s.warm && s'.live == s.live
  }

  lemma DriveWarmOk(s: State, t: nat, ok: bool, p: Pid)
    requires t < |s.threads| && PcOk(s, s.threads[t]) && Held(s.threads[t]) == {p} && p < |s.procs|
    requires s.threads[t].FPrep? || s.threads[t].FLoad? || s.threads[t].FResume?
    requires Mortal(s.done, s.procs[p]) && s.procs[p].kills == 0
    ensures Driven(s, StepWarm(s, t, ok), t, p)
  {
    if s.threads[t].FPrep? { PrepWarmOk(s, t, ok, p); }
    else if s.threads[t].FLoad? { LoadWarmOk(s, t, ok, p); }
    else { ResumeWarmOk(s, t, ok, p); }
  }

  lemma PrepWarmOk(s: State, t: nat, ok: bool, p: Pid)
    requires t < |s.threads| && PcOk(s, s.threads[t]) && s.threads[t].FPrep? && s.threads[t].p == p
    requires p < |s.procs| && Mortal(s.done, s.procs[p]) && s.procs[p].kills == 0
    ensures Driven(s, StepWarm(s, t, ok), t, p)
  {
    PrepKeepsSlot(s, p, s.threads[t].req.snap);
  }

  lemma LoadWarmOk(s: State, t: nat, ok: bool, p: Pid)
    requires t < |s.threads| && PcOk(s, s.threads[t]) && s.threads[t].FLoad? && s.threads[t].p == p
    requires p < |s.procs| && Mortal(s.done, s.procs[p]) && s.procs[p].kills == 0
    ensures Driven(s, StepWarm(s, t, ok), t, p)
  {
  }

  lemma ResumeWarmOk(s: State, t: nat, ok: bool, p: Pid)
    requires t < |s.threads| && PcOk(s, s.threads[t]) && s.threads[t].FResume? && s.threads[t].p == p
    requires p < |s.procs| && Mortal(s.done, s.procs[p]) && s.procs[p].kills == 0
    ensures Driven(s, StepWarm(s, t, ok), t, p)
  {
  }

  lemma ColdKeepsTame(s: State, t: nat, ok: bool, pick: Pid)
    requires Tame(s) && t < |s.threads| && IsCold(s.threads[t])
    ensures Tame(StepCold(s, t, ok, pick))
  {
    ColdKeepsOwned(s, t, ok, pick);
    var s' := StepCold(s, t, ok, pick);
    match s.threads[t]
    case FInsert(_, _) => InsertKeepsTame(s, t, ok, pick);
    case FCold(req) =>
      if s'.threads[t].FColdLoad? {
        SpawnedMove(s, s', t, FColdLoad(req, |s.procs|), s'.procs[|s.procs|]);
      } else {
        assert s'.threads == s.threads[t := FFailed] + [];
        TurnMove(s, s', t, FFailed, []);
      }
    case FColdKill(p) => KillPreservesTame(s, s', t, FFailed, p);
    case FColdLoad(_, p) => ColdDrivesTame(s, t, ok, pick, p);
    case FColdResume(_, p) => ColdDrivesTame(s, t, ok, pick, p);
  }

  lemma ColdDrivesTame(s: State, t: nat, ok: bool, pick: Pid, p: Pid)
    requires Tame(s) && t < |s.threads| && Held(s.threads[t]) == {p} && Owned(StepCold(s, t, ok, pick))
    requires s.threads[t].FColdLoad? || s.threads[t].FColdResume?
    ensures Tame(StepCold(s, t, ok, pick))
  {
    var s' := StepCold(s, t, ok, pick);
    HeldFacts(s, t, p);
    assert PcOk(s, s.threads[t]);
    if s.threads[t].FColdLoad? { LoadColdOk(s, t, ok, pick, p); } else { ResumeColdOk(s, t, ok, pick, p); }
    DriveMove(s, s', t, s'.threads[t], p, s'.procs[p]);
  }

  lemma LoadColdOk(s: State, t: nat, ok: bool, pick: Pid, p: Pid)
    requires t < |s.threads| && PcOk(s, s.threads[t]) && s.threads[t].FColdLoad? && s.threads[t].p == p
    requires p < |s.procs| && Mortal(s.done, s.procs[p]) && s.procs[p].kills == 0
    ensures Driven(s, StepCold(s, t, ok, pick), t, p)
  {
    var s', req := StepCold(s, t, ok, pick), s.threads[t].req;
    if !s'.threads[t].FColdKill? {
      ColdPathsResolve(s.procs[p], req);
      var snap := ColdSnap(req, s.procs[p].chroot);
      ColdLoaded(s, s', t, req, p, snap);
    }
  }

  lemma ColdLoaded(s: State, s': State, t: nat, req: Request, p: Pid, snap: Snapshot)
    requires t < |s.threads| && FromCold(s, req, p) && snap == ColdSnap(req, s.procs[p].chroot)
    requires !s.procs[p].vm.Dead? && s.procs[p].kills == 0
    requires SamePool(s, s') && s'.done == s.done && t < |s'.threads| && |s'.procs| == |s.procs|
    requires s'.threads[t] == FColdResume(req, p) || s'.threads[t] == FInsert(LiveFork(req, false), p)
    requires s'.procs == s.procs[p := s.procs[p].(vm := if s'.threads[t].FInsert? then Running(snap) else Loaded(snap))]
    ensures PcOk(s', s'.threads[t]) && Mortal(s.done, s'.procs[p])
  {
  }

  lemma ResumeColdOk(s: State, t: nat, ok: bool, pick: Pid, p: Pid)
    requires t < |s.threads| && PcOk(s, s.threads[t]) && s.threads[t].FColdResume? && s.threads[t].p == p
    requires p < |s.procs| && Mortal(s.done, s.procs[p]) && s.procs[p].kills == 0
    ensures Driven(s, StepCold(s, t, ok, pick), t, p)
  {
  }

  /** The paths a cold fork loads lead somewhere. */
  lemma ColdPathsResolve(proc: Process, req: Request)
    requires Linked(req, proc.chroot)
    ensures proc.vm.Empty? ==> Load(proc, ColdPaths(req)) == Some(proc.(vm := Loaded(ColdSnap(req, proc.chroot))))
  {
    if req.jail.Some? { LinkedHasBoth(req, proc.chroot); }
  }

  lemma InsertKeepsTame(s: State, t: nat, ok: bool, pick: Pid)
    requires Tame(s) && t < |s.threads| && s.threads[t].FInsert? && Owned(StepCold(s, t, ok, pick))
    ensures Tame(StepCold(s, t, ok, pick))
  {
    var s', pc := StepCold(s, t, ok, pick), FDone(s.threads[t].fork, s.threads[t].p);
    assert s'.threads == s.threads[t := pc] + [];
    assert PcOk(s, s.threads[t]);
    InsertedIsLive(s, s', s.threads[t].fork, s.threads[t].p);
    StepKeepsTame(s, s', t, pc, []);
  }

  lemma InsertedIsLive(s: State, s': State, fork: LiveFork, p: Pid)
    requires IdleOk(s) && LiveOk(s) && Runs(s, fork, p)
    requires s'.live == s.live[p := fork] && s'.procs == s.procs && s'.warm == s.warm && s'.done == s.done
    ensures IdleOk(s') && LiveOk(s')
  {
    forall q | q in s'.live ensures Runs(s', s'.live[q], q) {
      assert Runs(s, s'.live[q], q);
    }
  }

  lemma TeardownKeepsTame(s: State, t: nat, ok: bool, pick: Pid)
    requires Tame(s) && t < |s.threads|
    ensures Tame(StepTeardown(s, t, ok, pick))
  {
    TeardownKeepsOwned(s, t, ok, pick);
    var s' := StepTeardown(s, t, ok, pick);
    match s.threads[t]
    case TClaim(_) => ClaimKeepsTame(s, t, ok, pick);
    case SClaim => ClaimKeepsTame(s, t, ok, pick);
    case TKill(p) => KillPreservesTame(s, s', t, TDone(true), p);
    case SKill(_, _, _, _, _) => ShutdownKeepsTame(s, t, ok, pick);
    case SClose(_, _, _) => CloseStepKeepsTame(s, t, ok, pick);
    case CClose => CloseStepKeepsTame(s, t, ok, pick);
    case _ =>
  }

  lemma CloseStepKeepsTame(s: State, t: nat, ok: bool, pick: Pid)
    requires Tame(s) && t < |s.threads| && (s.threads[t].SClose? || s.threads[t].CClose?)
    requires Owned(StepTeardown(s, t, ok, pick))
    ensures Tame(StepTeardown(s, t, ok, pick))
  {
    assert PcOk(s, s.threads[t]);
    ClosePreservesTame(s, t, StepTeardown(s, t, ok, pick).threads[t]);
  }

  lemma ClaimKeepsTame(s: State, t: nat, ok: bool, pick: Pid)
    requires Tame(s) && t < |s.threads| && (s.threads[t].TClaim? || s.threads[t].SClaim?)
    requires Owned(StepTeardown(s, t, ok, pick))
    ensures Tame(StepTeardown(s, t, ok, pick))
  {
    var s', pc := StepTeardown(s, t, ok, pick), StepTeardown(s, t, ok, pick).threads[t];
    assert s'.threads == s.threads[t := pc] + [];
    TurnMove(s, s', t, pc, []);
  }

  /** One round of Shutdown's loop: the claimed map splits into killed and still to do. */
  lemma ShutdownKeepsTame(s: State, t: nat, ok: bool, pick: Pid)
    requires Tame(s) && t < |s.threads| && s.threads[t].SKill? && Owned(StepTeardown(s, t, ok, pick))
    ensures Tame(StepTeardown(s, t, ok, pick))
  {
    assert PcOk(s, s.threads[t]);
    if pick in s.threads[t].todo {
      HeldFacts(s, t, pick);
      KillPreservesTame(s, StepTeardown(s, t, ok, pick), t, StepTeardown(s, t, ok, pick).threads[t], pick);
    } else {
      ShutdownTurns(s, t, ok, pick);
    }
  }

  lemma ShutdownTurns(s: State, t: nat, ok: bool, pick: Pid)
    requires Tame(s) && t < |s.threads| && s.threads[t].SKill? && pick !in s.threads[t].todo
    requires Owned(StepTeardown(s, t, ok, pick))
    ensures Tame(StepTeardown(s, t, ok, pick))
  {
    var s', pc := StepTeardown(s, t, ok, pick), StepTeardown(s, t, ok, pick).threads[t];
    assert PcOk(s, s.threads[t]);
    assert s'.threads == s.threads[t := pc] + [];
    TurnMove(s, s', t, pc, []);
  }

  lemma StartedKeepTame(s: State, started: seq<Pc>)
    requires Tame(s) && forall x <- started :: Held(x) == {} && PcOk(s, x)
    ensures Tame(s.(threads := s.threads + started))
  {
    var s' := s.(threads := s.threads + started);
    StartedKeepOwned(s, started);
    forall t | 0 <= t < |s'.threads| ensures PcOk(s', s'.threads[t]) {
      if t >= |s.threads| { assert s'.threads[t] in started; }
      FramePc(s, s', s'.threads[t]);
    }
  }

  lemma ThreadKeepsTame(s: State, t: nat, ok: bool, pick: Pid)
    requires Tame(s) && t < |s.threads|
    ensures Tame(StepThread(s, t, ok, pick))
  {
    if IsRefill(s.threads[t]) { RefillKeepsTame(s, t, ok, pick); }
    else if IsWarm(s.threads[t]) { WarmKeepsTame(s, t, ok); }
    else if IsCold(s.threads[t]) { ColdKeepsTame(s, t, ok, pick); }
    else { TeardownKeepsTame(s, t, ok, pick); }
  }

  lemma ApplyKeepsTame(s: State, e: Event)
    requires Tame(s)
    ensures Tame(Apply(s, e))
  {
    if e.Step? {
      if e.t < |s.threads| { ThreadKeepsTame(s, e.t, e.ok, e.pick); }
    } else if e.Reap? {
      ReapKeepsTame(s, e.p);
    } else if e.Attach? || e.Tick? || e.Cancel? {
      SameTame(s, Apply(s, e));
    } else {
      CallKeepsTame(s, e);
    }
  }

  lemma CallKeepsTame(s: State, e: Event)
    requires Tame(s) && (e.Fork? || e.Release? || e.Shutdown? || e.Refill? || e.Close?)
    ensures Tame(Apply(s, e))
  {
    match e
    case Fork(req, count) => StartedKeepTame(s, seq(count, _ => FStart(req)));
    case Release(id) => StartedKeepTame(s, [TClaim(id)]);
    case Shutdown => StartedKeepTame(s, [SClaim]);
    case Refill(under) => AskedKeepsTame(s, under);
    case Close => StartedKeepTame(s, [CClose]);
  }

  lemma AskedKeepsTame(s: State, under: Option<Ctx>)
    requires Tame(s)
    ensures Tame(Apply(s, Refill(under)))
  {
    var s' := s.(warm := s.warm.(asked := s.warm.asked + 1));
    SameTame(s, s');
    StartedKeepTame(s', [RSpawn(under)]);
  }

  /** A watcher's kill takes nothing from anyone but the process. */
  lemma ReapKeepsTame(s: State, p: Pid)
    requires Tame(s)
    ensures Tame(Apply(s, Reap(p)))
  {
    var s' := Apply(s, Reap(p));
    SameOwners(s, s');
    ReapKeepsPlaces(s, p);
    forall t | 0 <= t < |s'.threads| ensures PcOk(s', s'.threads[t]) { ReapKeepsPc(s, p, s.threads[t]); }
  }

  lemma ReapKeepsPlaces(s: State, p: Pid)
    requires IdleOk(s) && LiveOk(s)
    ensures IdleOk(Apply(s, Reap(p))) && LiveOk(Apply(s, Reap(p)))
  {
    forall q | q in s.live ensures Runs(Apply(s, Reap(p)), s.live[q], q) { ReapKeepsRunning(s, p, s.live[q], q); }
    forall q | q in s.warm.idle ensures Ready(Apply(s, Reap(p)), q) { ReapKeepsReady(s, p, q); }
  }

  lemma ReapKeepsRunning(s: State, p: Pid, fork: LiveFork, q: Pid)
    requires Runs(s, fork, q)
    ensures Runs(Apply(s, Reap(p)), fork, q)
  {
    ReapKeepsAt(s, p, q, Running(RunsSnap(s.warm.preload, fork, s.procs[q].chroot)));
  }

  lemma ReapKeepsAt(s: State, p: Pid, q: Pid, vm: VmState)
    requires At(s, q, vm)
    ensures At(Apply(s, Reap(p)), q, vm)
    ensures var q' := Apply(s, Reap(p)).procs[q]; q' == s.procs[q].(vm := q'.vm)
  {
  }

  lemma ReapKeepsReady(s: State, p: Pid, q: Pid)
    requires Ready(s, q)
    ensures Ready(Apply(s, Reap(p)), q)
  {
  }

  lemma ReapKeepsPc(s: State, p: Pid, pc: Pc)
    requires PcOk(s, pc)
    ensures PcOk(Apply(s, Reap(p)), pc)
  {
    if IsRefill(pc) { ReapKeepsRefill(s, p, pc); }
    else if IsWarm(pc) { ReapKeepsWarm(s, p, pc); }
    else { ReapKeepsOther(s, p, pc); }
  }

  lemma ReapKeepsRefill(s: State, p: Pid, pc: Pc)
    requires PcOk(s, pc) && IsRefill(pc)
    ensures PcOk(Apply(s, Reap(p)), pc)
  {
  }

  lemma ReapKeepsWarm(s: State, p: Pid, pc: Pc)
    requires PcOk(s, pc) && IsWarm(pc)
    ensures PcOk(Apply(s, Reap(p)), pc)
  {
  }

  lemma ReapKeepsOther(s: State, p: Pid, pc: Pc)
    requires PcOk(s, pc) && !IsRefill(pc) && !IsWarm(pc)
    ensures PcOk(Apply(s, Reap(p)), pc)
  {
  }

  lemma DonePc(s: State, s': State, pc: Pc)
    requires PcOk(s, pc) && s'.procs == s.procs && SamePool(s, s') && s.done <= s'.done
    ensures PcOk(s', pc)
  {
  }

  /** Contexts may be cancelled; nothing else that Tame speaks of changes. */
  lemma SameTame(s: State, s': State)
    requires Tame(s) && s.done <= s'.done && s'.procs == s.procs && s'.live == s.live && s'.threads == s.threads
    requires SamePool(s, s') && s'.warm.idle == s.warm.idle
    ensures Tame(s')
  {
    SameOwners(s, s');
    forall t | 0 <= t < |s'.threads| ensures PcOk(s', s'.threads[t]) {
      DonePc(s, s', s.threads[t]);
    }
  }

  lemma InitTame(s: State)
    requires Init(s)
    ensures Tame(s)
  {
    InitOwned(s);
    forall p | 0 <= p < |s.procs| ensures IdleReady(s.procs[p], s.warm, s.done) {
      assert s.procs[p] in s.procs;
    }
    assert IdleReady(s.procs[0], s.warm, s.done);
  }

  lemma {:induction false} RunsAreTame(s: State, es: seq<Event>)
    requires Init(s)
    ensures Tame(Exec(s, es))
  {
    if es == [] {
      InitTame(s);
    } else {
      RunsAreTame(s, es[..|es| - 1]);
      ApplyKeepsTame(Exec(s, es[..|es| - 1]), es[|es| - 1]);
    }
  }

  // ------------------------------------------------------- main results

  /** What no step changes: the pool's size, snapshot and jail, that it is closed, and
      that a context is done. */
  predicate SameConfig(s: State, s': State) {
    && s'.warm.size == s.warm.size && s'.warm.preload == s.warm.preload && s'.warm.template == s.warm.template
    && (s.warm.closed ==> s'.warm.closed) && s.done <= s'.done
  }

  lemma StepKeepsConfig(s: State, t: nat, ok: bool, pick: Pid)
    requires t < |s.threads|
    ensures SameConfig(s, StepThread(s, t, ok, pick))
  {
    if IsRefill(s.threads[t]) { RefillKeepsConfig(s, t, ok, pick); }
    else if IsWarm(s.threads[t]) { WarmKeepsConfig(s, t, ok); }
    else if IsCold(s.threads[t]) { ColdKeepsConfig(s, t, ok, pick); }
    else { TeardownKeepsConfig(s, t, ok, pick); }
  }

  lemma RefillKeepsConfig(s: State, t: nat, ok: bool, pick: Pid)
    requires t < |s.threads|
    ensures SameConfig(s, StepRefill(s, t, ok, pick))
  {
  }

  lemma WarmKeepsConfig(s: State, t: nat, ok: bool)
    requires t < |s.threads|
    ensures SameConfig(s, StepWarm(s, t, ok))
  {
  }

  lemma ColdKeepsConfig(s: State, t: nat, ok: bool, pick: Pid)
    requires t < |s.threads|
    ensures SameConfig(s, StepCold(s, t, ok, pick))
  {
  }

  lemma TeardownKeepsConfig(s: State, t: nat, ok: bool, pick: Pid)
    requires t < |s.threads|
    ensures SameConfig(s, StepTeardown(s, t, ok, pick))
  {
  }

  lemma ApplyKeepsPreload(s: State, e: Event)
    ensures SameConfig(s, Apply(s, e))
  {
    if e.Step? && e.t < |s.threads| { StepKeepsConfig(s, e.t, e.ok, e.pick); }
  }

  lemma {:induction false} PreloadNeverChanges(s: State, es: seq<Event>)
    ensures SameConfig(s, Exec(s, es))
  {
    if es != [] {
      PreloadNeverChanges(s, es[..|es| - 1]);
      ApplyKeepsPreload(Exec(s, es[..|es| - 1]), es[|es| - 1]);
    }
  }

  /** Every watcher whose context is done has acted. */
  ghost predicate Settled(s: State) {
    forall p | 0 <= p < |s.procs| && Doomed(s.done, s.procs[p]) :: s.procs[p].vm.Dead?
  }

  /** `p` is in `vm`, or its watcher has killed it; once the watchers have acted it is in
      `vm` if and only if its context is not done. */
  ghost predicate UnlessCancelled(s: State, p: Pid, vm: VmState) {
    && p < |s.procs| && s.procs[p].kills == 0
    && (s.procs[p].vm == vm || (s.procs[p].vm == Dead && Doomed(s.done, s.procs[p])))
    && (Settled(s) ==> (s.procs[p].vm == vm <==> !Doomed(s.done, s.procs[p])))
  }

  function Reaps(n: nat): seq<Event> {
    if n == 0 then [] else Reaps(n - 1) + [Reap(n - 1)]
  }

  /** `r` is `s` with the first `n` processes reaped whose context is done. */
  ghost predicate Reaped(s: State, n: nat, r: State) {
    && r == s.(procs := r.procs) && |r.procs| == |s.procs|
    && forall p | 0 <= p < |s.procs| ::
         r.procs[p] == if p < n && Doomed(s.done, s.procs[p]) then s.procs[p].(vm := Dead) else s.procs[p]
  }

  lemma {:induction false} ReapsSettle(s: State, n: nat)
    ensures Reaped(s, n, Exec(s, Reaps(n)))
  {
    if n > 0 {
      ReapsSettle(s, n - 1);
      assert Reaps(n)[..|Reaps(n)| - 1] == Reaps(n - 1);
      OneReap(s, n - 1, Exec(s, Reaps(n - 1)));
    }
  }

  lemma OneReap(s: State, n: nat, r: State)
    requires Reaped(s, n, r)
    ensures Reaped(s, n + 1, Apply(r, Reap(n)))
  {
  }

  /** From every state the watchers can act, and then all that is changed is that every
      process whose context is done is dead. */
  lemma WatchersSettle(s: State)
    ensures var r := Exec(s, Reaps(|s.procs|));
            && Settled(r) && r == s.(procs := r.procs) && |r.procs| == |s.procs|
            && forall p | 0 <= p < |s.procs| ::
                 r.procs[p] == if Doomed(s.done, s.procs[p]) then s.procs[p].(vm := Dead) else s.procs[p]
  {
    ReapsSettle(s, |s.procs|);
  }

  /** Over every run: what an idle slot holds, until the context it was spawned under is
      done; no context can touch the slots of an unjailed pool. */
  lemma IdleSlotsHoldTheirSnapshot(s: State, es: seq<Event>, p: Pid)
    requires Init(s) && p in Exec(s, es).warm.idle
    ensures var r := Exec(s, es);
            var vm := if s.warm.preload.Some? then Loaded(s.warm.preload.value) else Empty;
            && UnlessCancelled(r, p, vm) && (r.procs[p].preloaded <==> s.warm.preload.Some?)
            && (s.warm.template.None? ==> r.procs[p].vm == vm)
  {
    RunsAreTame(s, es);
    PreloadNeverChanges(s, es);
    assert Ready(Exec(s, es), p);
    IdleFacts(Exec(s, es), p);
  }

  /** Over every run of an ultra-warm pool: a slot that Take hands out is flagged
      Preloaded and holds the snapshot the pool was created with, whether it came from
      the constructor or from a background refill, unless it is jailed and the context
      it was spawned under is done. */
  lemma TakeHandsOutPreloadedSlots(s: State, es: seq<Event>, t: nat)
    requires Init(s) && s.warm.preload.Some?
    requires var r := Exec(s, es); t < |r.threads| && r.threads[t].FTake? && !r.warm.closed && r.warm.idle != []
    ensures var r' := Apply(Exec(s, es), Step(t, true, 0));
            && r'.threads[t].FWarm? && r'.threads[t].p < |r'.procs|
            && r'.procs[r'.threads[t].p].preloaded
            && UnlessCancelled(r', r'.threads[t].p, Loaded(s.warm.preload.value))
            && (s.warm.template.None? ==> r'.procs[r'.threads[t].p].vm == Loaded(s.warm.preload.value))
  {
    var r := Exec(s, es);
    assert r.warm.idle[|r.warm.idle| - 1] in r.warm.idle;
    IdleSlotsHoldTheirSnapshot(s, es, r.warm.idle[|r.warm.idle| - 1]);
    assert Apply(r, Step(t, true, 0)).procs == r.procs;
  }

  /** Fork `p` of a pool like `warm` runs the one snapshot its path and its chroot fix,
      until its context is done. */
  ghost predicate RunsAsPromised(r: State, warm: WarmState, fork: LiveFork, p: Pid) {
    && p < |r.procs|
    && var vm := Running(RunsSnap(warm.preload, fork, r.procs[p].chroot));
       && UnlessCancelled(r, p, vm)
       && (fork.warm && warm.template.None? ==> r.procs[p].vm == vm)
       && (!fork.warm ==> r.procs[p].ctx == fork.req.ctx && Linked(fork.req, r.procs[p].chroot))
  }

  /** Over every run: which snapshot a live fork runs. It stops only when the context its
      process is tied to is done: that of its own call for a cold fork, none for a warm
      fork from an unjailed pool. */
  lemma LiveForksRunTheirSnapshot(s: State, es: seq<Event>, p: Pid)
    requires Init(s) && p in Exec(s, es).live
    ensures var r := Exec(s, es);
            RunsAsPromised(r, s.warm, r.live[p], p)
  {
    RunsAreTame(s, es);
    PreloadNeverChanges(s, es);
    assert Runs(Exec(s, es), Exec(s, es).live[p], p);
    LiveFacts(Exec(s, es), p);
  }

  // ------------------------------------- what the caller can check before

  /** Every key of the merged host files that is linked at `path` carries `host`. */
  predicate Carries(req: Request, path: string, host: string)
    requires req.jail.Some?
  {
    var root := Root(req.jail.value.base);
    forall k <- ColdFiles(req) :: Target(root, k) == Target(root, path) ==> ColdFiles(req)[k] == host
  }

  /** The condition a caller can check before the call: the pool's preload, if it has
      one, is the requested snapshot, and in the request's jail, if it has one whose
      files can be linked at all, every host file linked at a layout path is the
      requested one, under whatever spelling of the path. */
  ghost predicate RunsRequested(preload: Option<Snapshot>, req: Request) {
    && (preload.Some? ==> preload.value == req.snap)
    && (req.jail.Some? && Fits(req.jail) ==>
          Carries(req, MEM_FILE, req.snap.mem) && Carries(req, STATE_FILE, req.snap.state))
  }

  /** A cold fork's files can be linked exactly if the layout files fit among the extras. */
  lemma ColdFitsIff(req: Request, pick: nat)
    ensures Prepare(req.jail, ColdFiles(req), pick).Some? <==> Fits(req.jail)
  {
    PrepareIff(req.jail, ColdFiles(req), pick);
    if req.jail.Some? {
      assert ColdFiles(req).Keys == req.jail.value.extras.Keys + {MEM_FILE, STATE_FILE};
    }
  }

  lemma LinkedHasBoth(req: Request, chroot: Option<Jail>)
    requires req.jail.Some? && Linked(req, chroot)
    ensures Fits(req.jail) && chroot.Some? && chroot.value.root == Root(req.jail.value.base)
    ensures FileAt(chroot.value, MEM_FILE).Some? && FileAt(chroot.value, STATE_FILE).Some?
  {
    var pick: nat :| Prepare(req.jail, ColdFiles(req), pick) == Some(chroot);
    ColdFitsIff(req, pick);
    PrepareIff(req.jail, ColdFiles(req), pick);
    PreparedFile(req.jail.value, ColdFiles(req), pick, MEM_FILE);
    PreparedFile(req.jail.value, ColdFiles(req), pick, STATE_FILE);
  }

  /** What a cold fork runs, read off its chroot. */
  lemma ColdSnapIsLinked(req: Request, chroot: Option<Jail>)
    requires Linked(req, chroot)
    ensures match req.jail
            case None => ColdSnap(req, chroot) == req.snap
            case Some(j) =>
              && Fits(req.jail) && chroot.Some? && chroot.value.root == Root(j.base)
              && FileAt(chroot.value, MEM_FILE) == Some(ColdSnap(req, chroot).mem)
              && FileAt(chroot.value, STATE_FILE) == Some(ColdSnap(req, chroot).state)
  {
    if req.jail.Some? { LinkedHasBoth(req, chroot); }
  }

  lemma CarriedIsLinked(req: Request, chroot: Option<Jail>, path: string, host: string)
    requires req.jail.Some? && Linked(req, chroot) && path in ColdFiles(req) && Carries(req, path, host)
    ensures chroot.Some? && FileAt(chroot.value, path) == Some(host)
  {
    LinkedHasBoth(req, chroot);
    var pick: nat :| Prepare(req.jail, ColdFiles(req), pick) == Some(chroot);
    PreparedFile(req.jail.value, ColdFiles(req), pick, path);
  }

  /** Under the caller's condition both paths lead to the requested snapshot, in every
      order of linking. */
  lemma RequestedOnBothPaths(preload: Option<Snapshot>, fork: LiveFork, chroot: Option<Jail>)
    requires !fork.warm ==> Linked(fork.req, chroot)
    ensures RunsRequested(preload, fork.req) ==> RunsSnap(preload, fork, chroot) == fork.req.snap
  {
    if !fork.warm && RunsRequested(preload, fork.req) { ColdRunsRequested(preload, fork.req, chroot); }
  }

  lemma ColdRunsRequested(preload: Option<Snapshot>, req: Request, chroot: Option<Jail>)
    requires RunsRequested(preload, req) && Linked(req, chroot)
    ensures ColdSnap(req, chroot) == req.snap
  {
    ColdSnapIsLinked(req, chroot);
    if req.jail.Some? {
      CarriedIsLinked(req, chroot, MEM_FILE, req.snap.mem);
      CarriedIsLinked(req, chroot, STATE_FILE, req.snap.state);
    }
  }

  /** The file of any key linked at a layout path can end up there, in some order. */
  lemma AnyKeyCanShadow(req: Request, key: string, path: string) returns (pick: nat, chroot: Option<Jail>)
    requires req.jail.Some? && Fits(req.jail) && key in ColdFiles(req) && (path == MEM_FILE || path == STATE_FILE)
    requires var root := Root(req.jail.value.base); Target(root, key) == Target(root, path)
    ensures Prepare(req.jail, ColdFiles(req), pick) == Some(chroot) && Linked(req, chroot)
    ensures var snap := ColdSnap(req, chroot);
            (if path == MEM_FILE then snap.mem else snap.state) == ColdFiles(req)[key]
  {
    ColdFitsIff(req, 0);
    PrepareIff(req.jail, ColdFiles(req), 0);
    pick := LastKeyWins(req.jail.value, ColdFiles(req), key);
    chroot := Prepare(req.jail, ColdFiles(req), pick).value;
    assert Linked(req, chroot);
    ColdSnapIsLinked(req, chroot);
  }

  lemma LiveIsUnkilled(s: State, p: Pid)
    requires Owned(s)
    ensures p in s.live ==> p < |s.procs| && s.procs[p].kills == 0
  {
    if p in s.live { LiveFacts(s, p); }
  }

  /** Each fork a finished Shutdown claimed is dead and was counted once. */
  lemma FinishedShutdownKilledItsClaim(s: State, es: seq<Event>, t: nat)
    requires Init(s) && t < |Exec(s, es).threads| && Exec(s, es).threads[t].SDone?
    ensures var r := Exec(s, es);
            && r.threads[t].stopped + r.threads[t].failed == |r.threads[t].claimed|
            && forall p | p in r.threads[t].claimed :: p < |r.procs| && r.procs[p].vm == Dead && p !in r.live
  {
    RunsAreTame(s, es);
    var r := Exec(s, es);
    assert PcOk(r, r.threads[t]);
    forall p | p in r.threads[t].claimed ensures p !in r.live {
      assert Killed(r, p);
      LiveIsUnkilled(r, p);
    }
  }
}
