/** The warm pool and the fork pool as one step machine. Every goroutine is a
    program counter; a step is one critical section or one system call of the
    code, and any goroutine may step next. */
module PoolMachine {
  import opened Wrappers
  import opened Jails
  import opened Vm

  type Pid = nat

  /** A request and the context its Fork call was given. `jail` is Request.Jailer, which
      a cold fork uses. */
  datatype Request = Request(snap: Snapshot, combined: bool, jail: Option<Jailer>, ctx: Option<Ctx>)

  /** A fork in the live map: what was asked for, and whether a warm slot served it. */
  datatype LiveFork = LiveFork(req: Request, warm: bool)

  /** The fields of WarmPool. `template` is the jailer its slots are started with.
      `drainRefills`, `asked` (Refill called from outside) and `closeKills` count events
      the code does not count. */
  datatype WarmState = WarmState(
    size: nat, template: Option<Jailer>, preload: Option<Snapshot>,
    idle: seq<Pid>, closed: bool,
    refillErrs: nat, takes: nat, drains: nat, lastRefillFail: nat,
    drainRefills: nat, asked: nat, closeKills: nat)

  datatype Pc =
    // the goroutine started by Refill(ctx)
    | RSpawn(ctx: Option<Ctx>) | RCheck(ctx: Option<Ctx>, p: Pid) | RPrep(ctx: Option<Ctx>, p: Pid, snap: Snapshot)
    | RLoad(ctx: Option<Ctx>, p: Pid, inside: Snapshot)
    | RFlag(p: Pid) | RPublish(p: Pid) | RKill(p: Pid)
    // forkOne, warm path
    | FStart(req: Request) | FTake(req: Request) | FDrained(req: Request)
    | FWarm(req: Request, p: Pid) | FPrep(req: Request, p: Pid) | FLoad(req: Request, p: Pid, inside: Snapshot)
    | FResume(req: Request, p: Pid) | FKill(req: Request, p: Pid) | FRefillErr(ctx: Option<Ctx>)
    | FRefillOk(req: Request, p: Pid)
    // forkOne and forkOneJailed, cold path
    | FCold(req: Request) | FColdLoad(req: Request, p: Pid) | FColdResume(req: Request, p: Pid) | FColdKill(p: Pid)
    // end of forkOne
    | FInsert(fork: LiveFork, p: Pid) | FDone(fork: LiveFork, p: Pid) | FFailed
    // Release
    | TClaim(id: Pid) | TKill(p: Pid) | TDone(found: bool)
    // Shutdown; `claimed` is the map it swapped out
    | SClaim | SKill(claimed: set<Pid>, todo: set<Pid>, stopped: nat, failed: nat, close: bool)
    | SClose(claimed: set<Pid>, stopped: nat, failed: nat) | SDone(claimed: set<Pid>, stopped: nat, failed: nat)
    // WarmPool.Close called directly
    | CClose | Exit

  /** `done` are the contexts that are cancelled or past their deadline. */
  datatype State = State(
    procs: seq<Process>, warm: WarmState, attached: bool, live: map<Pid, LiveFork>, threads: seq<Pc>, now: nat,
    done: set<Ctx>)

  const REFILL_BACKOFF: nat := 500_000_000  // nanoseconds

  /** A step of goroutine `t`: `ok` is the outcome of its system call, `pick` the choice a
      map iteration makes. Reap is the goroutine of exec.CommandContext that
      kills `p` once its context is done. The other events are calls from outside. */
  datatype Event =
    | Step(t: nat, ok: bool, pick: Pid) | Reap(p: Pid)
    | Fork(req: Request, count: nat) | Release(id: Pid) | Shutdown
    | Refill(under: Option<Ctx>) | Close | Attach | Tick(ns: nat) | Cancel(ctx: Ctx)

  /** Calls under this context may still succeed. */
  predicate Open(done: set<Ctx>, ctx: Option<Ctx>) {
    ctx.None? || ctx.value !in done
  }

  /** A process whose context is done: its watcher has killed it, or is about to. */
  predicate Doomed(done: set<Ctx>, proc: Process) {
    !Open(done, proc.ctx)
  }

  // ---------------------------------------------------------------- steps

  function Become(s: State, t: nat, pc: Pc): State
    requires t < |s.threads|
  {
    s.(threads := s.threads[t := pc])
  }

  function Go(s: State, pc: Pc): State {
    s.(threads := s.threads + [pc])
  }

  function SetProc(s: State, p: Pid, proc: Process): State {
    if p < |s.procs| then s.(procs := s.procs[p := proc]) else s
  }

  function KillProc(s: State, p: Pid): State {
    if p < |s.procs| then s.(procs := s.procs[p := Kill(s.procs[p])]) else s
  }

  /** The watcher's kill, which no pool counts as its own. */
  function ReapProc(s: State, p: Pid): State
    requires p < |s.procs|
  {
    s.(procs := s.procs[p := s.procs[p].(vm := Dead)])
  }

  function RefillFailed(s: State): State {
    s.(warm := s.warm.(refillErrs := s.warm.refillErrs + 1, lastRefillFail := s.now))
  }

  /** Close's critical section: kill every idle process, once per entry. */
  function CloseIdle(s: State): State {
    s.(warm := s.warm.(closed := true, idle := [], closeKills := s.warm.closeKills + |s.warm.idle|),
       procs := seq(|s.procs|, i requires 0 <= i < |s.procs| =>
         if i in s.warm.idle then s.procs[i].(vm := Dead, kills := s.procs[i].kills + multiset(s.warm.idle)[i])
         else s.procs[i]))
  }

  /** The goroutines a step of `t` starts: a Refill, or none. */
  function Started(s: State, t: nat): seq<Pc>
    requires t < |s.threads|
  {
    match s.threads[t]
    case FRefillErr(ctx) => [RSpawn(ctx)]
    case FRefillOk(req, _) => [RSpawn(req.ctx)]
    case FDrained(_) =>
      if s.warm.lastRefillFail == 0 || s.now - s.warm.lastRefillFail >= REFILL_BACKOFF then [RSpawn(None)] else []
    case _ => []
  }

  /** The context a warm slot is tied to: spawnJailedSlot passes on the one it is given,
      spawnSlot uses context.Background(). */
  function SlotCtx(template: Option<Jailer>, ctx: Option<Ctx>): Option<Ctx> {
    if template.Some? then ctx else None
  }

  /** What spawnJailedSlot links into a new chroot. */
  function SlotFiles(template: Option<Jailer>): map<string, string> {
    if template.Some? then template.value.extras else map[]
  }

  function StepRefill(s: State, t: nat, ok: bool, pick: Pid): (r: State)
    requires t < |s.threads|
    ensures |r.threads| == |s.threads| && r.threads == s.threads[t := r.threads[t]]
  {
    match s.threads[t]
    case RSpawn(ctx) =>
      var bound, chroot := SlotCtx(s.warm.template, ctx), Prepare(s.warm.template, SlotFiles(s.warm.template), pick);
      if ok && Open(s.done, bound) && chroot.Some? then
        Become(s.(procs := s.procs + [Spawned(chroot.value, bound)]), t, RCheck(ctx, |s.procs|))
      else Become(RefillFailed(s), t, Exit)
    case RCheck(ctx, p) =>
      if s.warm.closed then Become(s.(warm := s.warm.(closeKills := s.warm.closeKills + 1)), t, RKill(p))
      else if s.warm.preload.Some? then Become(s, t, RPrep(ctx, p, s.warm.preload.value))
      else Become(s, t, RPublish(p))
    case RPrep(ctx, p, snap) =>
      if p < |s.procs| && (ok || s.procs[p].chroot.None?) && SnapForSlot(s.procs[p], snap).Some? then
        var (proc, inside) := SnapForSlot(s.procs[p], snap).value;
        Become(SetProc(s, p, proc), t, RLoad(ctx, p, inside))
      else Become(RefillFailed(s), t, RKill(p))
    case RLoad(ctx, p, inside) =>
      if p < |s.procs| && ok && Open(s.done, ctx) && Load(s.procs[p], inside).Some? then
        Become(SetProc(s, p, Load(s.procs[p], inside).value), t, RFlag(p))
      else Become(RefillFailed(s), t, RKill(p))
    case RFlag(p) =>
      if p < |s.procs| then Become(SetProc(s, p, s.procs[p].(preloaded := true)), t, RPublish(p))
      else Become(s, t, RPublish(p))
    case RPublish(p) =>
      if !s.warm.closed then Become(s.(warm := s.warm.(idle := s.warm.idle + [p])), t, Exit)
      else Become(KillProc(s.(warm := s.warm.(closeKills := s.warm.closeKills + 1)), p), t, Exit)
    case RKill(p) => Become(KillProc(s, p), t, Exit)
    case _ => s
  }

  function StepWarm(s: State, t: nat, ok: bool): (r: State)
    requires t < |s.threads|
    ensures |s.threads| + |Started(s, t)| == |r.threads|
    ensures r.threads == s.threads[t := r.threads[t]] + Started(s, t)
  {
    match s.threads[t]
    case FStart(req) => Become(s, t, if s.attached then FTake(req) else FCold(req))
    case FTake(req) =>
      if s.warm.closed then Become(s, t, FCold(req))
      else if s.warm.idle == [] then Become(s.(warm := s.warm.(drains := s.warm.drains + 1)), t, FDrained(req))
      else
        var last := |s.warm.idle| - 1;
        Become(s.(warm := s.warm.(idle := s.warm.idle[..last], takes := s.warm.takes + 1)),
               t, FWarm(req, s.warm.idle[last]))
    case FDrained(req) =>
      if Started(s, t) != [] then
        Go(Become(s.(warm := s.warm.(drainRefills := s.warm.drainRefills + 1)), t, FCold(req)), RSpawn(None))
      else Become(s, t, FCold(req))
    case FWarm(req, p) =>
      if p < |s.procs| && s.procs[p].preloaded then Become(s, t, FResume(req, p))
      else if p < |s.procs| && s.procs[p].chroot.Some? then Become(s, t, FPrep(req, p))
      else Become(s, t, FLoad(req, p, req.snap))
    case FPrep(req, p) =>
      if p < |s.procs| && ok && SnapForSlot(s.procs[p], req.snap).Some? then
        var (proc, inside) := SnapForSlot(s.procs[p], req.snap).value;
        Become(SetProc(s, p, proc), t, FLoad(req, p, inside))
      else Become(s, t, FKill(req, p))
    case FLoad(req, p, inside) =>
      if p < |s.procs| && ok && Open(s.done, req.ctx) && Load(s.procs[p], inside).Some? then
        var loaded := Load(s.procs[p], inside).value;
        if req.combined then Become(SetProc(s, p, loaded.(vm := Running(loaded.vm.snap))), t, FRefillOk(req, p))
        else Become(SetProc(s, p, loaded), t, FResume(req, p))
      else Become(s, t, FKill(req, p))
    case FResume(req, p) =>
      if p < |s.procs| && ok && Open(s.done, req.ctx) && Resume(s.procs[p]).Some? then
        Become(SetProc(s, p, Resume(s.procs[p]).value), t, FRefillOk(req, p))
      else Become(s, t, FKill(req, p))
    case FKill(req, p) => Become(KillProc(s, p), t, FRefillErr(req.ctx))
    case FRefillErr(ctx) => Go(Become(s, t, FFailed), RSpawn(ctx))
    case FRefillOk(req, p) => Go(Become(s, t, FInsert(LiveFork(req, true), p)), RSpawn(req.ctx))
    case _ => s
  }

  /** What forkOneJailed links into the chroot: an extra file under the very key of a
      layout path takes its place. */
  function ColdFiles(req: Request): map<string, string> {
    map[MEM_FILE := req.snap.mem, STATE_FILE := req.snap.state] + SlotFiles(req.jail)
  }

  function ColdPaths(req: Request): Snapshot {
    if req.jail.Some? then LAYOUT else req.snap
  }

  function StepCold(s: State, t: nat, ok: bool, pick: Pid): (r: State)
    requires t < |s.threads|
    ensures |r.threads| == |s.threads| && r.threads == s.threads[t := r.threads[t]]
  {
    match s.threads[t]
    case FCold(req) =>
      var chroot := Prepare(req.jail, ColdFiles(req), pick);
      if ok && Open(s.done, req.ctx) && chroot.Some? then
        Become(s.(procs := s.procs + [Spawned(chroot.value, req.ctx)]), t, FColdLoad(req, |s.procs|))
      else Become(s, t, FFailed)
    case FColdLoad(req, p) =>
      if p < |s.procs| && ok && Open(s.done, req.ctx) && Load(s.procs[p], ColdPaths(req)).Some? then
        var loaded := Load(s.procs[p], ColdPaths(req)).value;
        // fc.Restore never uses the combined call; forkOneJailed may
        if req.jail.Some? && req.combined then
          Become(SetProc(s, p, loaded.(vm := Running(loaded.vm.snap))), t, FInsert(LiveFork(req, false), p))
        else Become(SetProc(s, p, loaded), t, FColdResume(req, p))
      else Become(s, t, FColdKill(p))
    case FColdResume(req, p) =>
      if p < |s.procs| && ok && Open(s.done, req.ctx) && Resume(s.procs[p]).Some? then
        Become(SetProc(s, p, Resume(s.procs[p]).value), t, FInsert(LiveFork(req, false), p))
      else Become(s, t, FColdKill(p))
    case FColdKill(p) => Become(KillProc(s, p), t, FFailed)
    case FInsert(fork, p) => Become(s.(live := s.live[p := fork]), t, FDone(fork, p))
    case _ => s
  }

  function StepTeardown(s: State, t: nat, ok: bool, pick: Pid): (r: State)
    requires t < |s.threads|
    ensures |r.threads| == |s.threads| && r.threads == s.threads[t := r.threads[t]]
  {
    match s.threads[t]
    case TClaim(id) =>
      if id in s.live then Become(s.(live := s.live - {id}), t, TKill(id)) else Become(s, t, TDone(false))
    case TKill(p) => Become(KillProc(s, p), t, TDone(true))
    case SClaim =>
      Become(s.(live := map[], attached := false), t, SKill(s.live.Keys, s.live.Keys, 0, 0, s.attached))
    case SKill(claimed, todo, stopped, failed, close) =>
      if todo == {} then
        Become(s, t, if close then SClose(claimed, stopped, failed) else SDone(claimed, stopped, failed))
      else if pick in todo then
        Become(KillProc(s, pick), t,
               SKill(claimed, todo - {pick}, if ok then stopped + 1 else stopped, if ok then failed else failed + 1, close))
      else s
    case SClose(claimed, stopped, failed) => Become(CloseIdle(s), t, SDone(claimed, stopped, failed))
    case CClose => Become(CloseIdle(s), t, Exit)
    case _ => s
  }

  function StepThread(s: State, t: nat, ok: bool, pick: Pid): State
    requires t < |s.threads|
  {
    var pc := s.threads[t];
    if IsRefill(pc) then StepRefill(s, t, ok, pick)
    else if IsWarm(pc) then StepWarm(s, t, ok)
    else if IsCold(pc) then StepCold(s, t, ok, pick)
    else StepTeardown(s, t, ok, pick)
  }

  predicate IsRefill(pc: Pc) {
    pc.RSpawn? || pc.RCheck? || pc.RPrep? || pc.RLoad? || pc.RFlag? || pc.RPublish? || pc.RKill?
  }

  predicate IsWarm(pc: Pc) {
    pc.FStart? || pc.FTake? || pc.FDrained? || pc.FWarm? || pc.FPrep? || pc.FLoad? || pc.FResume? ||
    pc.FKill? || pc.FRefillErr? || pc.FRefillOk?
  }

  predicate IsCold(pc: Pc) {
    pc.FCold? || pc.FColdLoad? || pc.FColdResume? || pc.FColdKill? || pc.FInsert?
  }

  predicate IsOver(pc: Pc) {
    pc.FDone? || pc.FFailed? || pc.TDone? || pc.SDone? || pc.Exit?
  }

  predicate IsTeardown(pc: Pc) {
    pc.TClaim? || pc.TKill? || pc.SClaim? || pc.SKill? || pc.SClose? || pc.CClose?
  }

  /** The cold path leaves the warm pool alone and leads on or to its end. */
  lemma ColdStaysCold(s: State, t: nat, ok: bool, pick: Pid)
    requires t < |s.threads| && IsCold(s.threads[t])
    ensures var s' := StepCold(s, t, ok, pick); s'.warm == s.warm && (IsCold(s'.threads[t]) || IsOver(s'.threads[t]))
  {
  }

  lemma TeardownStays(s: State, t: nat, ok: bool, pick: Pid)
    requires t < |s.threads| && (IsTeardown(s.threads[t]) || IsOver(s.threads[t]))
    ensures var pc := StepTeardown(s, t, ok, pick).threads[t]; IsTeardown(pc) || IsOver(pc)
  {
    match s.threads[t]
    case SKill(_, _, _, _, _) =>
    case _ =>
  }

  /** Pool.Fork rejects a zero count and empty paths before it starts anything. */
  predicate ValidFork(req: Request, count: nat) {
    count > 0 && req.snap.mem != "" && req.snap.state != ""
  }

  /** One event; an event that is not enabled changes nothing. */
  function Apply(s: State, e: Event): State {
    match e
    case Step(t, ok, pick) => if t < |s.threads| then StepThread(s, t, ok, pick) else s
    case Fork(req, count) =>
      if ValidFork(req, count) then s.(threads := s.threads + seq(count, _ => FStart(req))) else s
    case Release(id) => Go(s, TClaim(id))
    case Shutdown => Go(s, SClaim)
    case Refill(under) => Go(s.(warm := s.warm.(asked := s.warm.asked + 1)), RSpawn(under))
    case Close => Go(s, CClose)
    case Attach => s.(attached := true)
    case Tick(ns) => s.(now := s.now + ns)
    case Cancel(ctx) => s.(done := s.done + {ctx})
    case Reap(p) => if p < |s.procs| && Doomed(s.done, s.procs[p]) then ReapProc(s, p) else s
  }

  function Exec(s: State, es: seq<Event>): State {
    if es == [] then s else Apply(Exec(s, es[..|es| - 1]), es[|es| - 1])
  }

  // ------------------------------------------------------- initial states

  /** An idle slot as the constructors leave it. A jailed slot of an ultra-warm pool has
      the snapshot linked into its chroot, so there was room for it. */
  ghost predicate IdleReady(proc: Process, warm: WarmState, done: set<Ctx>) {
    && proc.kills == 0 && !Doomed(done, proc)
    && MadeFrom(warm.template, proc.chroot) && (warm.template.None? ==> proc.ctx.None?)
    && (if warm.preload.Some? then proc.preloaded && proc.vm == Loaded(warm.preload.value) && Fits(warm.template)
        else !proc.preloaded && proc.vm == Empty)
  }

  /** What NewWarmPool (preload None) or NewUltraWarmPool (preload Some) returns,
      attached to a new Pool or not. */
  ghost predicate Init(s: State) {
    && s.warm.size >= 1
    && |s.procs| == s.warm.size
    && s.warm.idle == seq(s.warm.size, i => i)
    && (forall p <- s.procs :: IdleReady(p, s.warm, s.done) && p.ctx == s.procs[0].ctx)
    && !s.warm.closed && s.live == map[] && s.threads == []
    && s.warm.refillErrs == s.warm.takes == s.warm.drains == s.warm.lastRefillFail == 0
    && s.warm.drainRefills == s.warm.asked == s.warm.closeKills == 0
  }
}
