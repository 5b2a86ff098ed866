/** What a caller of Fork gets back, over every run, and runs that show where
    the pools do less than their comments say. */
module PoolForks {
  import opened Wrappers
  import opened Jails
  import opened Tally
  import opened Vm
  import opened PoolMachine
  import opened PoolOwnership
  import opened PoolSnapshots
  import opened PoolLedger

  /** The request a fork goroutine serves; None once it can only fail. */
  function Serves(pc: Pc): Option<Request> {
    match pc
    case FStart(req) => Some(req)
    case FTake(req) => Some(req)
    case FDrained(req) => Some(req)
    case FWarm(req, _) => Some(req)
    case FPrep(req, _) => Some(req)
    case FLoad(req, _, _) => Some(req)
    case FResume(req, _) => Some(req)
    case FRefillOk(req, _) => Some(req)
    case FCold(req) => Some(req)
    case FColdLoad(req, _) => Some(req)
    case FColdResume(req, _) => Some(req)
    case FInsert(fork, _) => Some(fork.req)
    case FDone(fork, _) => Some(fork.req)
    case _ => None
  }

  /** The goroutine serves the same request as before, or can only fail now. */
  predicate ServesOn(before: Pc, after: Pc) {
    Serves(after).None? || Serves(after) == Serves(before)
  }

  lemma WarmServesTheSame(s: State, t: nat, ok: bool)
    requires t < |s.threads| && IsWarm(s.threads[t])
    ensures ServesOn(s.threads[t], StepWarm(s, t, ok).threads[t])
  {
  }

  lemma ColdServesTheSame(s: State, t: nat, ok: bool, pick: Pid)
    requires t < |s.threads| && IsCold(s.threads[t])
    ensures ServesOn(s.threads[t], StepCold(s, t, ok, pick).threads[t])
  {
  }

  lemma RefillServesNone(s: State, t: nat, ok: bool, pick: Pid)
    requires t < |s.threads| && IsRefill(s.threads[t])
    ensures ServesOn(s.threads[t], StepRefill(s, t, ok, pick).threads[t])
  {
  }

  lemma TeardownServesTheSame(s: State, t: nat, ok: bool, pick: Pid)
    requires t < |s.threads|
    ensures ServesOn(s.threads[t], StepTeardown(s, t, ok, pick).threads[t])
  {
    match s.threads[t]
    case SKill(_, _, _, _, _) =>
    case _ =>
  }

  lemma ApplyServesTheSame(s: State, e: Event, i: nat)
    requires i < |s.threads|
    ensures i < |Apply(s, e).threads| && ServesOn(s.threads[i], Apply(s, e).threads[i])
  {
    if e.Step? && e.t < |s.threads| {
      if IsRefill(s.threads[e.t]) { RefillServesNone(s, e.t, e.ok, e.pick); }
      else if IsWarm(s.threads[e.t]) { WarmServesTheSame(s, e.t, e.ok); }
      else if IsCold(s.threads[e.t]) { ColdServesTheSame(s, e.t, e.ok, e.pick); }
      else { TeardownServesTheSame(s, e.t, e.ok, e.pick); }
    }
  }

  /** While a fork that returned success is live, the live map holds what it returned. */
  ghost predicate ReturnedIsLive(s: State) {
    forall i | 0 <= i < |s.threads| && s.threads[i].FDone? && s.threads[i].p in s.live ::
      s.live[s.threads[i].p] == s.threads[i].fork
  }

  lemma StepKeepsReturned(s: State, t: nat, ok: bool, pick: Pid)
    requires t < |s.threads| && ReturnedIsLive(s)
    requires s.threads[t].FInsert? ==> SuccessOnce(s, s.threads[t].p)
    ensures ReturnedIsLive(StepThread(s, t, ok, pick))
  {
    if s.threads[t].FInsert? {
      InsertIsFirst(s, t);
    } else {
      LiveOnlyShrinks(s, t, ok, pick);
    }
  }

  /** No fork has returned a process that another is about to publish. */
  lemma InsertIsFirst(s: State, t: nat)
    requires t < |s.threads| && s.threads[t].FInsert? && SuccessOnce(s, s.threads[t].p)
    ensures forall i | 0 <= i < |s.threads| && s.threads[i].FDone? :: s.threads[i].p != s.threads[t].p
  {
    var p := s.threads[t].p;
    TotalBound(s.threads, Before(p), t);
    forall i | 0 <= i < |s.threads| && s.threads[i].FDone? ensures s.threads[i].p != p {
      TotalBound(s.threads, Success(p), i);
    }
  }

  lemma LiveOnlyShrinks(s: State, t: nat, ok: bool, pick: Pid)
    requires t < |s.threads| && !s.threads[t].FInsert?
    ensures var s' := StepThread(s, t, ok, pick);
            && |s.threads| <= |s'.threads|
            && s'.live.Keys <= s.live.Keys && (forall p <- s'.live :: s'.live[p] == s.live[p])
            && (forall i | 0 <= i < |s'.threads| && s'.threads[i].FDone? :: i < |s.threads| && s'.threads[i] == s.threads[i])
  {
    if IsRefill(s.threads[t]) { RefillReturnsNothing(s, t, ok, pick); }
    else if IsWarm(s.threads[t]) { WarmReturnsNothing(s, t, ok); }
    else if IsCold(s.threads[t]) { ColdReturnsNothing(s, t, ok, pick); }
    else { TeardownReturnsNothing(s, t, ok, pick); }
  }

  lemma RefillReturnsNothing(s: State, t: nat, ok: bool, pick: Pid)
    requires t < |s.threads| && IsRefill(s.threads[t])
    ensures StepRefill(s, t, ok, pick).live == s.live && !StepRefill(s, t, ok, pick).threads[t].FDone?
  {
  }

  lemma WarmReturnsNothing(s: State, t: nat, ok: bool)
    requires t < |s.threads| && IsWarm(s.threads[t])
    ensures StepWarm(s, t, ok).live == s.live && !StepWarm(s, t, ok).threads[t].FDone?
  {
  }

  lemma ColdReturnsNothing(s: State, t: nat, ok: bool, pick: Pid)
    requires t < |s.threads| && IsCold(s.threads[t]) && !s.threads[t].FInsert?
    ensures StepCold(s, t, ok, pick).live == s.live && !StepCold(s, t, ok, pick).threads[t].FDone?
  {
  }

  lemma TeardownReturnsNothing(s: State, t: nat, ok: bool, pick: Pid)
    requires t < |s.threads| && !IsRefill(s.threads[t]) && !IsWarm(s.threads[t]) && !IsCold(s.threads[t])
    ensures var s' := StepTeardown(s, t, ok, pick);
            && s'.live.Keys <= s.live.Keys && (forall p <- s'.live :: s'.live[p] == s.live[p])
            && (s'.threads[t].FDone? ==> s'.threads[t] == s.threads[t])
  {
    match s.threads[t]
    case SClaim =>
    case TClaim(_) =>
    case _ =>
  }

  lemma {:induction false} RunsKeepReturned(s: State, es: seq<Event>)
    requires Init(s)
    ensures ReturnedIsLive(Exec(s, es))
  {
    if es != [] {
      var r, e := Exec(s, es[..|es| - 1]), es[|es| - 1];
      RunsKeepReturned(s, es[..|es| - 1]);
      if e.Step? && e.t < |r.threads| {
        if r.threads[e.t].FInsert? { RunsSucceedOnce(s, es[..|es| - 1], r.threads[e.t].p); }
        StepKeepsReturned(r, e.t, e.ok, e.pick);
      }
    }
  }

  lemma ExecOne(s: State, es: seq<Event>, e: Event)
    ensures Exec(s, es + [e]) == Apply(Exec(s, es), e)
  {
    assert (es + [e])[..|es|] == es;
  }

  lemma {:induction false} ExecAppend(s: State, es: seq<Event>, more: seq<Event>)
    ensures Exec(s, es + more) == Exec(Exec(s, es), more)
  {
    if more == [] {
      assert es + more == es;
    } else {
      assert (es + more)[..|es + more| - 1] == es + more[..|more| - 1];
      ExecAppend(s, es, more[..|more| - 1]);
    }
  }

  lemma ExecFirst(s: State, e: Event, rest: seq<Event>)
    ensures Exec(s, [e] + rest) == Exec(Apply(s, e), rest)
  {
    ExecOne(s, [], e);
    assert [] + [e] == [e];
    ExecAppend(s, [e], rest);
  }

  lemma {:induction false} ThreadKeepsItsRequest(s: State, es: seq<Event>, i: nat)
    requires i < |s.threads|
    ensures i < |Exec(s, es).threads| && ServesOn(s.threads[i], Exec(s, es).threads[i])
  {
    if es != [] {
      ThreadKeepsItsRequest(s, es[..|es| - 1], i);
      ApplyServesTheSame(Exec(s, es[..|es| - 1]), es[|es| - 1], i);
    }
  }

  /** The goroutines a valid Fork call adds, at the end of any run. */
  lemma ForkAddsGoroutines(s: State, es: seq<Event>, req: Request, count: nat, i: nat)
    requires ValidFork(req, count) && i < count
    ensures var t := |Exec(s, es).threads| + i;
            var r := Exec(s, es + [Fork(req, count)]);
            t < |r.threads| && r.threads[t] == FStart(req)
  {
    ExecOne(s, es, Fork(req, count));
  }

  /** What a caller may rely on for fork goroutine `t` of its call with `req`: it serves
      that request, runs one snapshot until a context stops it, and the caller's
      condition makes that the requested one. */
  ghost predicate Honors(r: State, warm: WarmState, t: nat, req: Request) {
    && t < |r.threads|
    && (r.threads[t].FDone? && r.threads[t].p in r.live ==>
          var fork, p := r.threads[t].fork, r.threads[t].p;
          && fork.req == req && RunsAsPromised(r, warm, fork, p)
          && (RunsRequested(warm.preload, req) ==> RunsSnap(warm.preload, fork, r.procs[p].chroot) == req.snap))
  }

  lemma RunsHonor(s: State, es: seq<Event>, t: nat, req: Request)
    requires Init(s) && t < |Exec(s, es).threads| && ServesOn(FStart(req), Exec(s, es).threads[t])
    ensures Honors(Exec(s, es), s.warm, t, req)
  {
    RunsKeepReturned(s, es);
    var r := Exec(s, es);
    if r.threads[t].FDone? && r.threads[t].p in r.live {
      LiveForksRunTheirSnapshot(s, es, r.threads[t].p);
      LiveHonors(r, s.warm, t, req);
    }
  }

  lemma LiveHonors(r: State, warm: WarmState, t: nat, req: Request)
    requires t < |r.threads| && r.threads[t].FDone? && r.threads[t].p in r.live && r.threads[t].p < |r.procs|
    requires var (fork, p) := (r.threads[t].fork, r.threads[t].p);
             fork.req == req && RunsAsPromised(r, warm, fork, p)
    ensures Honors(r, warm, t, req)
  {
    RequestedOnBothPaths(warm.preload, r.threads[t].fork, r.procs[r.threads[t].p].chroot);
  }

  /** Over every run: whatever happens before and after a call Fork(req, count), each
      of its forks that returned success and is still live was made for `req` and runs
      the snapshot its path promises until the context its process is tied to is done;
      the caller's condition, checked before the call, makes that the requested one. */
  lemma ForkReturnsTheRequestedSnapshot(s: State, es: seq<Event>, req: Request, count: nat, more: seq<Event>, i: nat)
    requires Init(s) && ValidFork(req, count) && i < count
    ensures Honors(Exec(s, es + [Fork(req, count)] + more), s.warm, |Exec(s, es).threads| + i, req)
  {
    var t, called := |Exec(s, es).threads| + i, es + [Fork(req, count)];
    ForkAddsGoroutines(s, es, req, count, i);
    ThreadKeepsItsRequest(Exec(s, called), more, t);
    ExecAppend(s, called, more);
    RunsHonor(s, called + more, t, req);
  }

  // ----------------------------------------------------- forks in flight

  predicate Alive(s: State, p: Pid) {
    p < |s.procs| && !s.procs[p].vm.Dead?
  }

  /** The warm pool may still hand out a slot that can be given a snapshot. */
  ghost predicate Serving(s: State) {
    !s.warm.closed && Fits(s.warm.template)
  }

  /** A fork goroutine that may still publish a live fork: until its process runs, its
      context must not be done, the process, once it has one, not dead, and the files to
      link for it must be such that they can be. */
  ghost predicate CanPublish(s: State, pc: Pc) {
    match pc
    case FStart(req) => Open(s.done, req.ctx) && (Fits(req.jail) || Serving(s))
    case FTake(req) => Open(s.done, req.ctx) && (Fits(req.jail) || Serving(s))
    case FDrained(req) => Open(s.done, req.ctx) && Fits(req.jail)
    case FCold(req) => Open(s.done, req.ctx) && Fits(req.jail)
    case FWarm(req, p) => Open(s.done, req.ctx) && Alive(s, p) && Fits(s.warm.template)
    case FPrep(req, p) => Open(s.done, req.ctx) && Alive(s, p) && Fits(s.warm.template)
    case FLoad(req, p, _) => Open(s.done, req.ctx) && Alive(s, p)
    case FResume(req, p) => Open(s.done, req.ctx) && Alive(s, p)
    case FColdLoad(req, p) => Open(s.done, req.ctx) && Alive(s, p)
    case FColdResume(req, p) => Open(s.done, req.ctx) && Alive(s, p)
    case FRefillOk(_, _) => true
    case FInsert(_, _) => true
    case _ => false
  }

  /** Which path a fork in flight is on, or takes if it moves next. */
  predicate GoesWarm(s: State, pc: Pc) {
    match pc
    case FStart(_) => s.attached && !s.warm.closed && s.warm.idle != []
    case FTake(_) => !s.warm.closed && s.warm.idle != []
    case FWarm(_, _) => true
    case FPrep(_, _) => true
    case FLoad(_, _, _) => true
    case FResume(_, _) => true
    case FRefillOk(_, _) => true
    case FInsert(fork, _) => fork.warm
    case _ => false
  }

  /** The path a fork before its Take would go leads to a live fork: the slot it would get
      is alive and takes snapshots, or its own jail, if it goes without, can be filled. */
  ghost predicate OnTrack(s: State, pc: Pc) {
    pc.FStart? || pc.FTake? ==>
      if GoesWarm(s, pc) then Alive(s, s.warm.idle[|s.warm.idle| - 1]) && Fits(s.warm.template) else Fits(pc.req.jail)
  }

  /** The process a fork in flight has, if any, is alive. */
  predicate HeldAlive(s: State, pc: Pc) {
    forall p <- Held(pc) :: Alive(s, p)
  }

  /** The files of a cold fork `p` of `req` were linked in the `pick`-th order. */
  predicate FilledIn(s: State, req: Request, p: Pid, pick: nat) {
    p < |s.procs| && Prepare(req.jail, ColdFiles(req), pick) == Some(s.procs[p].chroot)
  }

  /** So they were for a fork that is cold and has a process. */
  predicate FilledBy(s: State, pc: Pc, pick: nat) {
    match pc
    case FColdLoad(req, p) => FilledIn(s, req, p, pick)
    case FColdResume(req, p) => FilledIn(s, req, p, pick)
    case FInsert(fork, p) => fork.warm || FilledIn(s, fork.req, p, pick)
    case FDone(fork, p) => fork.warm || FilledIn(s, fork.req, p, pick)
    case _ => true
  }

  /** Steps left to a fork in flight whose system calls all succeed. */
  function Rank(pc: Pc): nat {
    match pc
    case FStart(_) => 8
    case FTake(_) => 7
    case FWarm(_, _) => 6
    case FPrep(_, _) => 5
    case FDrained(_) => 5
    case FLoad(_, _, _) => 4
    case FCold(_) => 4
    case FResume(_, _) => 3
    case FColdLoad(_, _) => 3
    case FRefillOk(_, _) => 2
    case FColdResume(_, _) => 2
    case FInsert(_, _) => 1
    case _ => 0
  }

  /** One successful step brings a fork in flight nearer to being live. */
  ghost predicate Moves(s: State, s': State, t: nat)
    requires t < |s.threads|
  {
    var pc := s.threads[t];
    && t < |s'.threads|
    && var pc' := s'.threads[t];
       && CanPublish(s', pc') && Rank(pc') < Rank(pc) && OnTrack(s', pc')
       && Serves(pc') == Serves(pc) && GoesWarm(s', pc') == GoesWarm(s, pc)
       && (HeldAlive(s, pc) ==> HeldAlive(s', pc'))
  }

  ghost predicate Advances(s: State, s': State, t: nat, pick: nat)
    requires t < |s.threads|
  {
    Moves(s, s', t) && (FilledBy(s, s.threads[t], pick) ==> FilledBy(s', s'.threads[t], pick))
  }

  lemma ChoiceMoves(s: State, t: nat)
    requires t < |s.threads| && CanPublish(s, s.threads[t]) && OnTrack(s, s.threads[t])
    requires s.threads[t].FStart? || s.threads[t].FTake? || s.threads[t].FDrained?
    ensures Moves(s, StepWarm(s, t, true), t)
  {
    var s' := StepWarm(s, t, true);
    if s.threads[t].FTake? && s'.threads[t].FWarm? {
      assert Held(s'.threads[t]) == {s.warm.idle[|s.warm.idle| - 1]};
    }
  }

  lemma SlotMoves(s: State, t: nat)
    requires t < |s.threads| && PcOk(s, s.threads[t]) && CanPublish(s, s.threads[t]) && s.threads[t].FWarm?
    ensures Moves(s, StepWarm(s, t, true), t)
  {
    assert Held(s.threads[t]) == {s.threads[t].p} == Held(StepWarm(s, t, true).threads[t]);
  }

  lemma PrepMoves(s: State, t: nat)
    requires t < |s.threads| && PcOk(s, s.threads[t]) && CanPublish(s, s.threads[t]) && s.threads[t].FPrep?
    ensures Moves(s, StepWarm(s, t, true), t)
  {
    PrepTurnsToLoad(s, t);
    NearerWith(s, StepWarm(s, t, true), t, s.threads[t].req, s.threads[t].p);
  }

  lemma PrepTurnsToLoad(s: State, t: nat)
    requires t < |s.threads| && PcOk(s, s.threads[t]) && CanPublish(s, s.threads[t]) && s.threads[t].FPrep?
    ensures var (req, p, s') := (s.threads[t].req, s.threads[t].p, StepWarm(s, t, true));
            && Open(s.done, req.ctx) && s'.done == s.done && Alive(s', p)
            && t < |s'.threads| && s'.threads[t].FLoad? && s'.threads[t].req == req && s'.threads[t].p == p
  {
    PrepKeepsSlot(s, s.threads[t].p, s.threads[t].req.snap);
  }

  /** A fork with a live process that a step brings nearer to its end. */
  lemma NearerWith(s: State, s': State, t: nat, req: Request, p: Pid)
    requires t < |s.threads| && t < |s'.threads| && s'.done == s.done && Open(s.done, req.ctx) && Alive(s', p)
    requires var (pc, pc') := (s.threads[t], s'.threads[t]);
             && (pc.FPrep? || pc.FColdLoad? || pc.FColdResume?) && pc.req == req && pc.p == p
             && (if pc.FPrep? then pc'.FLoad? && pc'.req == req && pc'.p == p
                 else pc' == FInsert(LiveFork(req, false), p) || (pc.FColdLoad? && pc' == FColdResume(req, p)))
    ensures Moves(s, s', t)
  {
    assert Held(s.threads[t]) == {p} == Held(s'.threads[t]);
  }

  lemma DriveMoves(s: State, t: nat)
    requires t < |s.threads| && PcOk(s, s.threads[t]) && CanPublish(s, s.threads[t])
    requires s.threads[t].FLoad? || s.threads[t].FResume?
    ensures Moves(s, StepWarm(s, t, true), t)
  {
    assert Held(s.threads[t]) == {s.threads[t].p} == Held(StepWarm(s, t, true).threads[t]);
  }

  lemma RefillOkMoves(s: State, t: nat)
    requires t < |s.threads| && s.threads[t].FRefillOk?
    ensures Moves(s, StepWarm(s, t, true), t)
  {
    var req, p := s.threads[t].req, s.threads[t].p;
    assert StepWarm(s, t, true).threads[t] == FInsert(LiveFork(req, true), p);
    assert Held(FInsert(LiveFork(req, true), p)) == {p} == Held(s.threads[t]);
  }

  lemma WarmForkAdvances(s: State, t: nat, pick: nat)
    requires Tame(s) && t < |s.threads| && CanPublish(s, s.threads[t]) && OnTrack(s, s.threads[t])
    requires IsWarm(s.threads[t])
    ensures Advances(s, StepWarm(s, t, true), t, pick)
  {
    assert PcOk(s, s.threads[t]);
    if s.threads[t].FWarm? { SlotMoves(s, t); }
    else if s.threads[t].FPrep? { PrepMoves(s, t); }
    else if s.threads[t].FLoad? || s.threads[t].FResume? { DriveMoves(s, t); }
    else if s.threads[t].FRefillOk? { RefillOkMoves(s, t); }
    else { ChoiceMoves(s, t); }
    WarmFillsNothing(s, t, pick);
  }

  lemma WarmFillsNothing(s: State, t: nat, pick: nat)
    requires t < |s.threads| && IsWarm(s.threads[t])
    ensures FilledBy(StepWarm(s, t, true), StepWarm(s, t, true).threads[t], pick)
  {
  }

  lemma ColdStartAdvances(s: State, t: nat, pick: nat)
    requires t < |s.threads| && CanPublish(s, s.threads[t]) && s.threads[t].FCold?
    ensures Advances(s, StepCold(s, t, true, pick), t, pick)
  {
    var req, p, s' := s.threads[t].req, |s.procs|, StepCold(s, t, true, pick);
    ColdFitsIff(req, pick);
    assert s'.threads[t] == FColdLoad(req, p) && FilledIn(s', req, p, pick);
    assert Held(FColdLoad(req, p)) == {p};
  }

  lemma ColdDriveAdvances(s: State, t: nat, pick: nat)
    requires t < |s.threads| && PcOk(s, s.threads[t]) && CanPublish(s, s.threads[t])
    requires s.threads[t].FColdLoad? || s.threads[t].FColdResume?
    ensures Advances(s, StepCold(s, t, true, pick), t, pick)
  {
    var req, p, s' := s.threads[t].req, s.threads[t].p, StepCold(s, t, true, pick);
    if s.threads[t].FColdLoad? { ColdLoadMoves(s, t, pick); } else { ColdResumeMoves(s, t, pick); }
    NearerWith(s, s', t, req, p);
    if FilledIn(s, req, p, pick) { FilledStays(s, s', req, p, pick); }
  }

  lemma FilledStays(s: State, s': State, req: Request, p: Pid, pick: nat)
    requires FilledIn(s, req, p, pick) && p < |s'.procs| && s'.procs[p].chroot == s.procs[p].chroot
    ensures FilledIn(s', req, p, pick)
  {
  }

  /** What a successful step of a cold fork with a process leaves. */
  ghost predicate ColdMoved(s: State, s': State, t: nat)
    requires t < |s.threads| && (s.threads[t].FColdLoad? || s.threads[t].FColdResume?)
  {
    var req, p := s.threads[t].req, s.threads[t].p;
    && t < |s'.threads| && s'.done == s.done && Open(s.done, req.ctx) && Alive(s', p)
    && p < |s.procs| && s'.procs[p].chroot == s.procs[p].chroot
    && (s'.threads[t] == FInsert(LiveFork(req, false), p) ||
        (s.threads[t].FColdLoad? && s'.threads[t] == FColdResume(req, p)))
  }

  lemma ColdLoadMoves(s: State, t: nat, pick: nat)
    requires t < |s.threads| && PcOk(s, s.threads[t]) && CanPublish(s, s.threads[t]) && s.threads[t].FColdLoad?
    ensures ColdMoved(s, StepCold(s, t, true, pick), t)
  {
    ColdPathsResolve(s.procs[s.threads[t].p], s.threads[t].req);
  }

  lemma ColdResumeMoves(s: State, t: nat, pick: nat)
    requires t < |s.threads| && PcOk(s, s.threads[t]) && CanPublish(s, s.threads[t]) && s.threads[t].FColdResume?
    ensures ColdMoved(s, StepCold(s, t, true, pick), t)
  {
  }

  /** Goroutine `t` has returned a live fork of `req` on the path `warm`. */
  ghost predicate Published(r: State, t: nat, req: Request, warm: bool) {
    && t < |r.threads| && r.threads[t].FDone? && r.threads[t].fork == LiveFork(req, warm)
    && r.threads[t].p in r.live && r.live[r.threads[t].p] == LiveFork(req, warm)
  }

  /** `r` is where goroutine `t`, at `pc` in `s`, has published its fork of `req`, and
      its process runs if it was not dead already. */
  ghost predicate Lands(s: State, t: nat, r: State, pick: nat)
    requires t < |s.threads|
  {
    && Serves(s.threads[t]).Some? && SameConfig(s, r) && r.done == s.done
    && Published(r, t, Serves(s.threads[t]).value, GoesWarm(s, s.threads[t]))
    && (HeldAlive(s, s.threads[t]) ==> Alive(r, r.threads[t].p))
    && (FilledBy(s, s.threads[t], pick) ==> FilledBy(r, r.threads[t], pick))
  }

  lemma InsertPublishes(s: State, t: nat, pick: nat) returns (r: State)
    requires Tame(s) && t < |s.threads| && s.threads[t].FInsert?
    ensures r == Apply(s, Step(t, true, pick)) && Tame(r) && Lands(s, t, r, pick)
  {
    r := Apply(s, Step(t, true, pick));
    ApplyKeepsTame(s, Step(t, true, pick));
    InsertLands(s, r, t, s.threads[t].fork, s.threads[t].p, pick);
  }

  lemma InsertLands(s: State, s': State, t: nat, fork: LiveFork, p: Pid, pick: nat)
    requires t < |s.threads| && s.threads[t] == FInsert(fork, p)
    requires s' == s.(live := s.live[p := fork], threads := s.threads[t := FDone(fork, p)])
    ensures Lands(s, t, s', pick)
  {
    assert p in Held(s.threads[t]);
    assert Serves(s.threads[t]) == Some(fork.req) && GoesWarm(s, s.threads[t]) == fork.warm;
    assert Published(s', t, fork.req, fork.warm);
  }

  lemma ForkAdvances(s: State, t: nat, pick: nat)
    requires Tame(s) && t < |s.threads| && CanPublish(s, s.threads[t]) && OnTrack(s, s.threads[t])
    requires !s.threads[t].FInsert?
    ensures Advances(s, Apply(s, Step(t, true, pick)), t, pick)
  {
    assert PcOk(s, s.threads[t]);
    if IsWarm(s.threads[t]) { WarmForkAdvances(s, t, pick); }
    else if s.threads[t].FCold? { ColdStartAdvances(s, t, pick); }
    else { ColdDriveAdvances(s, t, pick); }
  }

  lemma AdvanceThenReach(s: State, s': State, t: nat, r: State, pick: nat)
    requires t < |s.threads| && Serves(s.threads[t]).Some? && Advances(s, s', t, pick)
    requires SameConfig(s, s') && s'.done == s.done && Lands(s', t, r, pick)
    ensures Lands(s, t, r, pick)
  {
  }

  /** Goroutine `t` is a fork that can publish on the path it is on. */
  ghost predicate Coming(s: State, t: nat) {
    t < |s.threads| && CanPublish(s, s.threads[t]) && OnTrack(s, s.threads[t])
  }

  lemma ForkStepsOn(s: State, t: nat, pick: nat)
    requires Tame(s) && Coming(s, t) && !s.threads[t].FInsert?
    ensures var s' := Apply(s, Step(t, true, pick));
            Tame(s') && Advances(s, s', t, pick) && SameConfig(s, s') && s'.done == s.done
  {
    ForkAdvances(s, t, pick);
    ApplyKeepsTame(s, Step(t, true, pick));
    ApplyKeepsPreload(s, Step(t, true, pick));
    StepCancelsNothing(s, t, true, pick);
  }

  /** One step of a fork that is coming: the last, or wherever the rest of them leads is
      where it ends from here as well. */
  lemma ForkComesNearer(s: State, t: nat, pick: nat) returns (s': State)
    requires Tame(s) && Coming(s, t) && !s.threads[t].FInsert?
    ensures s' == Apply(s, Step(t, true, pick)) && Tame(s') && Coming(s', t) && Rank(s'.threads[t]) < Rank(s.threads[t])
    ensures forall r | Lands(s', t, r, pick) :: Lands(s, t, r, pick)
  {
    s' := Apply(s, Step(t, true, pick));
    ForkStepsOn(s, t, pick);
    forall r | Lands(s', t, r, pick) ensures Lands(s, t, r, pick) { AdvanceThenReach(s, s', t, r, pick); }
  }

  /** A fork in flight whose system calls succeed ends up live, and running if its
      process was not dead already, whatever order its files are linked in. */
  lemma ForkInFlightSucceeds(s: State, t: nat, pick: nat) returns (es: seq<Event>, r: State)
    requires Tame(s) && Coming(s, t)
    ensures forall e <- es :: e == Step(t, true, pick)
    ensures r == Exec(s, es) && Tame(r) && Lands(s, t, r, pick)
    decreases Rank(s.threads[t])
  {
    if s.threads[t].FInsert? {
      r := InsertPublishes(s, t, pick);
      es := StepThen(s, t, pick, [], r);
    } else {
      var s' := ForkComesNearer(s, t, pick);
      es, r := ForkInFlightSucceeds(s', t, pick);
      es := StepThen(s, t, pick, es, r);
    }
  }

  lemma StepThen(s: State, t: nat, pick: nat, rest: seq<Event>, r: State) returns (es: seq<Event>)
    requires Exec(Apply(s, Step(t, true, pick)), rest) == r && forall e <- rest :: e == Step(t, true, pick)
    ensures Exec(s, es) == r && forall e <- es :: e == Step(t, true, pick)
  {
    ExecFirst(s, Step(t, true, pick), rest);
    es := [Step(t, true, pick)] + rest;
  }

  lemma StepCancelsNothing(s: State, t: nat, ok: bool, pick: nat)
    requires t < |s.threads|
    ensures RevivesNone(s, StepThread(s, t, ok, pick))
  {
    if IsRefill(s.threads[t]) { RefillRevivesNone(s, t, ok, pick); }
    else if IsWarm(s.threads[t]) { WarmRevivesNone(s, t, ok); }
    else if IsCold(s.threads[t]) { ColdRevivesNone(s, t, ok, pick); }
    else { TeardownRevivesNone(s, t, ok, pick); }
  }

  /** `s` after a Close by a goroutine of its own. */
  function Closed(s: State): State {
    CloseIdle(s).(threads := s.threads + [Exit])
  }

  lemma ClosePool(s: State)
    requires Tame(s)
    ensures Closed(s) == Exec(s, [Close] + [Step(|s.threads|, true, 0)]) && Tame(Closed(s))
  {
    var step := Step(|s.threads|, true, 0);
    ExecOne(s, [], Close);
    ExecOne(s, [Close], step);
    assert [] + [Close] == [Close];
    CloseSteps(s);
    ApplyKeepsTame(s, Close);
    ApplyKeepsTame(Apply(s, Close), step);
  }

  lemma CloseSteps(s: State)
    ensures Apply(Apply(s, Close), Step(|s.threads|, true, 0)) == Closed(s)
  {
    assert (s.threads + [CClose])[|s.threads| := Exit] == s.threads + [Exit];
  }

  // ------------------------------------------- a refill that succeeds

  /** A refill under the background context on its way to publishing a live slot. */
  ghost predicate Filling(s: State, pc: Pc) {
    match pc
    case RSpawn(ctx) => ctx.None?
    case RCheck(ctx, p) => ctx.None? && Alive(s, p)
    case RPrep(ctx, p, _) => ctx.None? && Alive(s, p)
    case RLoad(ctx, p, _) => ctx.None? && Alive(s, p)
    case RFlag(p) => Alive(s, p)
    case RPublish(p) => Alive(s, p)
    case _ => false
  }

  /** What the steps of a refill leave alone. */
  ghost predicate Beside(s: State, r: State, t: nat) {
    && r.attached == s.attached && r.done == s.done && r.warm.closed == s.warm.closed
    && r.warm.template == s.warm.template && |r.threads| == |s.threads|
    && forall k | 0 <= k < |s.threads| && k != t :: r.threads[k] == s.threads[k]
  }

  lemma FillSpawns(s: State, t: nat)
    requires Serving(s) && t < |s.threads| && s.threads[t] == RSpawn(None)
    ensures var s' := StepRefill(s, t, true, 0); Beside(s, s', t) && s'.threads[t].RCheck? && Filling(s', s'.threads[t])
  {
    SpawnIsMadeFrom(s.warm.template, 0);
  }

  lemma FillChecks(s: State, t: nat)
    requires Serving(s) && t < |s.threads| && s.threads[t].RCheck? && Filling(s, s.threads[t])
    ensures var s' := StepRefill(s, t, true, 0);
            Beside(s, s', t) && Filling(s', s'.threads[t]) && Work(s'.threads[t]) < Work(s.threads[t])
  {
  }

  lemma FillDrives(s: State, t: nat)
    requires Serving(s) && t < |s.threads| && PcOk(s, s.threads[t]) && Filling(s, s.threads[t])
    requires s.threads[t].RPrep? || s.threads[t].RLoad? || s.threads[t].RFlag?
    ensures var s' := StepRefill(s, t, true, 0);
            Beside(s, s', t) && Filling(s', s'.threads[t]) && Work(s'.threads[t]) < Work(s.threads[t])
  {
    if s.threads[t].RPrep? { PrepKeepsSlot(s, s.threads[t].p, s.threads[t].snap); }
  }

  lemma FillGoesOn(s: State, t: nat) returns (s': State)
    requires Tame(s) && Serving(s) && t < |s.threads| && Filling(s, s.threads[t]) && !s.threads[t].RPublish?
    ensures s' == Apply(s, Step(t, true, 0)) && Tame(s')
    ensures Beside(s, s', t) && Filling(s', s'.threads[t]) && Work(s'.threads[t]) < Work(s.threads[t])
  {
    s' := Apply(s, Step(t, true, 0));
    ApplyKeepsTame(s, Step(t, true, 0));
    assert PcOk(s, s.threads[t]);
    if s.threads[t].RSpawn? { FillSpawns(s, t); }
    else if s.threads[t].RCheck? { FillChecks(s, t); }
    else { FillDrives(s, t); }
  }

  lemma FillEnds(s: State, t: nat) returns (r: State)
    requires Tame(s) && Serving(s) && t < |s.threads| && Filling(s, s.threads[t]) && s.threads[t].RPublish?
    ensures r == Apply(s, Step(t, true, 0)) && Tame(r)
    ensures Beside(s, r, t) && r.warm.idle != [] && Alive(r, r.warm.idle[|r.warm.idle| - 1])
  {
    r := Apply(s, Step(t, true, 0));
    ApplyKeepsTame(s, Step(t, true, 0));
  }

  /** The refill of a pool that can fill slots puts a live one on top, if its system calls
      succeed. */
  lemma RefillSucceeds(s: State, t: nat) returns (es: seq<Event>, r: State)
    requires Tame(s) && Serving(s) && t < |s.threads| && Filling(s, s.threads[t])
    ensures forall e <- es :: e == Step(t, true, 0)
    ensures r == Exec(s, es) && Tame(r) && Beside(s, r, t)
    ensures r.warm.idle != [] && Alive(r, r.warm.idle[|r.warm.idle| - 1])
    decreases Work(s.threads[t])
  {
    if s.threads[t].RPublish? {
      r := FillEnds(s, t);
      es := [];
    } else {
      var s' := FillGoesOn(s, t);
      es, r := RefillSucceeds(s', t);
    }
    ExecFirst(s, Step(t, true, 0), es);
    es := [Step(t, true, 0)] + es;
  }

  /** A pool that can fill slots can be attached and have a live slot on top. */
  lemma PoolServes(s: State) returns (es: seq<Event>)
    requires Tame(s) && Serving(s)
    ensures forall e <- es :: !e.Fork?
    ensures var r := Exec(s, es);
            && Tame(r) && Serving(r) && r.attached && r.done == s.done && |s.threads| <= |r.threads|
            && r.warm.idle != [] && Alive(r, r.warm.idle[|r.warm.idle| - 1])
            && forall k | 0 <= k < |s.threads| :: r.threads[k] == s.threads[k]
  {
    var asking := [Attach] + [Refill(None)];
    AskedForSlot(s);
    var rest, r := RefillSucceeds(Exec(s, asking), |s.threads|);
    ExecAppend(s, asking, rest);
    es := asking + rest;
  }

  lemma AskedForSlot(s: State)
    requires Tame(s)
    ensures var r := Exec(s, [Attach] + [Refill(None)]);
            && Tame(r) && r.threads == s.threads + [RSpawn(None)] && r.attached && r.done == s.done
            && r.warm.closed == s.warm.closed && r.warm.template == s.warm.template
  {
    ApplyKeepsTame(s, Attach);
    ApplyKeepsTame(Apply(s, Attach), Refill(None));
    ExecOne(s, [], Attach);
    assert [] + [Attach] == [Attach];
    ExecOne(s, [Attach], Refill(None));
  }

  /** Whatever the warm pool holds, a fork that can publish can end up live: with the pool
      closed, none of its slots is in the way of a cold fork, and a fork whose own jail
      cannot be filled can get a new slot. */
  lemma ForkInFlightCanSucceed(s: State, t: nat) returns (es: seq<Event>)
    requires Tame(s) && t < |s.threads| && CanPublish(s, s.threads[t])
    ensures forall e <- es :: !e.Fork?
    ensures Exec(s, es).live != map[]
  {
    var s', way := WayClears(s, t);
    var rest, r := ForkInFlightSucceeds(s', t, 0);
    ExecAppend(s, way, rest);
    es := way + rest;
  }

  lemma WayClears(s: State, t: nat) returns (s': State, es: seq<Event>)
    requires Tame(s) && t < |s.threads| && CanPublish(s, s.threads[t])
    ensures s' == Exec(s, es) && forall e <- es :: !e.Fork?
    ensures Tame(s') && t < |s'.threads| && CanPublish(s', s'.threads[t]) && OnTrack(s', s'.threads[t])
  {
    var pc := s.threads[t];
    if (pc.FStart? || pc.FTake?) && !Fits(pc.req.jail) {
      es := PoolServes(s);
      s' := Exec(s, es);
      assert s'.threads[t] == pc;
    } else {
      es := [Close] + [Step(|s.threads|, true, 0)];
      s' := Closed(s);
      ClosePool(s);
      ClosingKeepsOffer(s, t);
    }
  }

  /** Close kills idle slots only, so a fork in flight that needs none loses nothing. */
  lemma ClosingKeepsOffer(s: State, t: nat)
    requires Owned(s) && t < |s.threads| && CanPublish(s, s.threads[t])
    requires s.threads[t].FStart? || s.threads[t].FTake? ==> Fits(s.threads[t].req.jail)
    ensures CanPublish(Closed(s), s.threads[t]) && OnTrack(Closed(s), s.threads[t])
  {
    forall p | p in Held(s.threads[t]) ensures p < |s.procs| && Closed(s).procs[p] == s.procs[p] { HeldFacts(s, t, p); }
  }

  // ------------------------------------------------------------ Shutdown

  ghost predicate NothingLive(s: State) {
    s.live == map[] && forall t | 0 <= t < |s.threads| :: !CanPublish(s, s.threads[t])
  }

  ghost predicate RevivesNone(s: State, s': State) {
    && |s.procs| <= |s'.procs| && s'.done == s.done
    && forall p | 0 <= p < |s.procs| && s.procs[p].vm.Dead? :: s'.procs[p].vm.Dead?
  }

  /** A dead process stays dead, a context that is done stays done. */
  lemma NoRevival(s: State, e: Event)
    ensures var s' := Apply(s, e);
            && |s.procs| <= |s'.procs| && s.done <= s'.done
            && forall p | 0 <= p < |s.procs| && s.procs[p].vm.Dead? :: s'.procs[p].vm.Dead?
  {
    if e.Step? && e.t < |s.threads| { StepCancelsNothing(s, e.t, e.ok, e.pick); }
  }

  lemma RefillRevivesNone(s: State, t: nat, ok: bool, pick: Pid)
    requires t < |s.threads|
    ensures RevivesNone(s, StepRefill(s, t, ok, pick))
  {
  }

  lemma WarmRevivesNone(s: State, t: nat, ok: bool)
    requires t < |s.threads|
    ensures RevivesNone(s, StepWarm(s, t, ok))
  {
  }

  lemma ColdRevivesNone(s: State, t: nat, ok: bool, pick: Pid)
    requires t < |s.threads|
    ensures RevivesNone(s, StepCold(s, t, ok, pick))
  {
  }

  lemma TeardownRevivesNone(s: State, t: nat, ok: bool, pick: Pid)
    requires t < |s.threads|
    ensures RevivesNone(s, StepTeardown(s, t, ok, pick))
  {
  }

  /** No step turns a goroutine that cannot publish into one that can. */
  lemma WarmStaysHopeless(s: State, t: nat, ok: bool)
    requires t < |s.threads| && IsWarm(s.threads[t]) && !CanPublish(s, s.threads[t]) && PcOk(s, s.threads[t])
    requires s.warm.preload.Some? ==> Fits(s.warm.template)
    ensures !CanPublish(StepWarm(s, t, ok), StepWarm(s, t, ok).threads[t])
  {
    if s.threads[t].FWarm? { SlotStaysHopeless(s, t, ok); }
    else if s.threads[t].FPrep? { PrepStaysHopeless(s, t, ok); }
    else if s.threads[t].FStart? || s.threads[t].FTake? || s.threads[t].FDrained? { ChoiceStaysHopeless(s, t, ok); }
    else { DriveStaysHopeless(s, t, ok); }
  }

  lemma ChoiceStaysHopeless(s: State, t: nat, ok: bool)
    requires t < |s.threads| && !CanPublish(s, s.threads[t])
    requires s.threads[t].FStart? || s.threads[t].FTake? || s.threads[t].FDrained?
    ensures !CanPublish(StepWarm(s, t, ok), StepWarm(s, t, ok).threads[t])
  {
  }

  lemma DriveStaysHopeless(s: State, t: nat, ok: bool)
    requires t < |s.threads| && !CanPublish(s, s.threads[t]) && IsWarm(s.threads[t])
    requires !s.threads[t].FStart? && !s.threads[t].FTake? && !s.threads[t].FDrained?
    requires !s.threads[t].FPrep? && !s.threads[t].FWarm?
    ensures !CanPublish(StepWarm(s, t, ok), StepWarm(s, t, ok).threads[t])
  {
  }

  lemma SlotStaysHopeless(s: State, t: nat, ok: bool)
    requires t < |s.threads| && !CanPublish(s, s.threads[t]) && PcOk(s, s.threads[t]) && s.threads[t].FWarm?
    requires s.warm.preload.Some? ==> Fits(s.warm.template)
    ensures !CanPublish(StepWarm(s, t, ok), StepWarm(s, t, ok).threads[t])
  {
  }

  lemma PrepStaysHopeless(s: State, t: nat, ok: bool)
    requires t < |s.threads| && !CanPublish(s, s.threads[t]) && PcOk(s, s.threads[t]) && s.threads[t].FPrep?
    ensures !CanPublish(StepWarm(s, t, ok), StepWarm(s, t, ok).threads[t])
  {
    PrepKeepsSlot(s, s.threads[t].p, s.threads[t].req.snap);
  }

  lemma ColdStaysHopeless(s: State, t: nat, ok: bool, pick: Pid)
    requires t < |s.threads| && IsCold(s.threads[t]) && !CanPublish(s, s.threads[t])
    ensures !CanPublish(StepCold(s, t, ok, pick), StepCold(s, t, ok, pick).threads[t])
  {
    if s.threads[t].FCold? { ColdStartsHopeless(s, t, ok, pick); } else { ColdDrivesHopeless(s, t, ok, pick); }
  }

  lemma ColdStartsHopeless(s: State, t: nat, ok: bool, pick: Pid)
    requires t < |s.threads| && !CanPublish(s, s.threads[t]) && s.threads[t].FCold?
    ensures StepCold(s, t, ok, pick).threads[t] == FFailed
  {
    ColdFitsIff(s.threads[t].req, pick);
  }

  lemma ColdDrivesHopeless(s: State, t: nat, ok: bool, pick: Pid)
    requires t < |s.threads| && IsCold(s.threads[t]) && !CanPublish(s, s.threads[t]) && !s.threads[t].FCold?
    ensures !CanPublish(StepCold(s, t, ok, pick), StepCold(s, t, ok, pick).threads[t])
  {
  }

  lemma OthersPublishNothing(s: State, t: nat, ok: bool, pick: Pid)
    requires t < |s.threads| && !IsWarm(s.threads[t]) && !IsCold(s.threads[t])
    ensures var s' := StepThread(s, t, ok, pick); t < |s'.threads| && !CanPublish(s', s'.threads[t])
  {
    if IsRefill(s.threads[t]) { RefillServesNone(s, t, ok, pick); } else { TeardownServesTheSame(s, t, ok, pick); }
  }

  lemma OwnStepStaysHopeless(s: State, t: nat, ok: bool, pick: Pid)
    requires Tame(s) && t < |s.threads| && PcOk(s, s.threads[t]) && !CanPublish(s, s.threads[t])
    ensures var s' := StepThread(s, t, ok, pick); t < |s'.threads| && !CanPublish(s', s'.threads[t])
  {
    if IsWarm(s.threads[t]) { WarmStaysHopeless(s, t, ok); }
    else if IsCold(s.threads[t]) { ColdStaysHopeless(s, t, ok, pick); }
    else { OthersPublishNothing(s, t, ok, pick); }
  }

  lemma StaysHopeless(s: State, e: Event, i: nat)
    requires Tame(s) && i < |s.threads| && !CanPublish(s, s.threads[i])
    ensures i < |Apply(s, e).threads| && !CanPublish(Apply(s, e), Apply(s, e).threads[i])
  {
    assert PcOk(s, s.threads[i]);
    if e.Step? && e.t == i {
      OwnStepStaysHopeless(s, i, e.ok, e.pick);
    } else {
      OthersStay(s, e, i);
      NoRevival(s, e);
      ApplyKeepsPreload(s, e);
      HopelessAside(s, Apply(s, e), s.threads[i]);
    }
  }

  lemma HopelessAside(s: State, s': State, pc: Pc)
    requires !CanPublish(s, pc) && PcOk(s, pc) && SameConfig(s, s') && |s.procs| <= |s'.procs|
    requires forall p | 0 <= p < |s.procs| && s.procs[p].vm.Dead? :: s'.procs[p].vm.Dead?
    ensures !CanPublish(s', pc)
  {
  }

  lemma OthersStay(s: State, e: Event, i: nat)
    requires i < |s.threads| && !(e.Step? && e.t == i)
    ensures i < |Apply(s, e).threads| && Apply(s, e).threads[i] == s.threads[i]
  {
    if e.Step? && e.t < |s.threads| && IsWarm(s.threads[e.t]) {
      var s' := StepWarm(s, e.t, e.ok);
      assert s'.threads == s.threads[e.t := s'.threads[e.t]] + Started(s, e.t);
    }
  }

  lemma StaysEmpty(s: State, e: Event)
    requires Tame(s) && NothingLive(s) && !e.Fork?
    ensures NothingLive(Apply(s, e))
  {
    var s' := Apply(s, e);
    if e.Step? && e.t < |s.threads| { LiveOnlyShrinks(s, e.t, e.ok, e.pick); }
    forall t | 0 <= t < |s'.threads| ensures !CanPublish(s', s'.threads[t]) {
      if t < |s.threads| { StaysHopeless(s, e, t); }
      else if e.Step? { StepStartsNoFork(s, e.t, e.ok, e.pick, t); }
    }
  }

  lemma StepStartsNoFork(s: State, t: nat, ok: bool, pick: Pid, i: nat)
    requires t < |s.threads| <= i < |StepThread(s, t, ok, pick).threads|
    ensures StepThread(s, t, ok, pick).threads[i].RSpawn?
  {
    if IsWarm(s.threads[t]) {
      var s' := StepWarm(s, t, ok);
      assert s'.threads == s.threads[t := s'.threads[t]] + Started(s, t);
    }
  }

  lemma {:induction false} RunsStayEmpty(s: State, es: seq<Event>)
    requires Tame(s) && NothingLive(s) && forall e <- es :: !e.Fork?
    ensures Tame(Exec(s, es)) && NothingLive(Exec(s, es))
  {
    if es != [] {
      RunsStayEmpty(s, es[..|es| - 1]);
      ApplyKeepsTame(Exec(s, es[..|es| - 1]), es[|es| - 1]);
      StaysEmpty(Exec(s, es[..|es| - 1]), es[|es| - 1]);
    }
  }

  /** With no new Fork call, the live map that Shutdown has just emptied stays empty in
      every continuation exactly when no fork in flight at that moment can publish. */
  lemma ShutdownIsFinalIffNothingInFlight(s: State, es: seq<Event>)
    requires Init(s) && Exec(s, es).live == map[]
    ensures var r := Exec(s, es);
            (forall more: seq<Event> | (forall e <- more :: !e.Fork?) :: Exec(r, more).live == map[])
            <==> (forall t | 0 <= t < |r.threads| :: !CanPublish(r, r.threads[t]))
  {
    var r := Exec(s, es);
    RunsAreTame(s, es);
    if t :| 0 <= t < |r.threads| && CanPublish(r, r.threads[t]) {
      var more := ForkInFlightCanSucceed(r, t);
      assert Exec(r, more).live != map[];
    } else {
      forall more: seq<Event> | forall e <- more :: !e.Fork? ensures Exec(r, more).live == map[] {
        RunsStayEmpty(r, more);
      }
    }
  }

  // ------------------------------------- when the requested snapshot runs

  /** A call Fork(req, 1), whose goroutine then runs to success. */
  lemma CallSucceeds(s: State, req: Request, pick: nat) returns (es: seq<Event>)
    requires Tame(s) && ValidFork(req, 1) && Open(s.done, req.ctx) && OnTrack(s, FStart(req))
    ensures var r := Exec(s, es);
            && Tame(r) && SameConfig(s, r) && r.done == s.done
            && Published(r, |s.threads|, req, GoesWarm(s, FStart(req))) && Alive(r, r.threads[|s.threads|].p)
            && FilledBy(r, r.threads[|s.threads|], pick)
  {
    var call := Fork(req, 1);
    var s' := Apply(s, call);
    ApplyKeepsTame(s, call);
    assert s'.threads[|s.threads|] == FStart(req);
    var rest, r := ForkInFlightSucceeds(s', |s.threads|, pick);
    ExecFirst(s, call, rest);
    es := [call] + rest;
  }

  /** From every ultra-warm pool: a run in which the fork of `req` runs the preload. */
  lemma PreloadedSlotIgnoresTheRequest(s: State, req: Request) returns (es: seq<Event>, p: Pid)
    requires Init(s) && s.warm.preload.Some? && ValidFork(req, 1) && Open(s.done, req.ctx)
    ensures var r := Exec(s, es);
            && p in r.live && r.live[p] == LiveFork(req, true)
            && p < |r.procs| && r.procs[p].vm == Running(s.warm.preload.value)
  {
    InitTame(s);
    var s' := Apply(s, Attach);
    ApplyKeepsTame(s, Attach);
    var last := s.warm.idle[|s.warm.idle| - 1];
    assert s.procs[last] in s.procs;
    var rest := CallSucceeds(s', req, 0);
    ExecFirst(s, Attach, rest);
    es := [Attach] + rest;
    p := Exec(s, es).threads[|s.threads|].p;
    assert Runs(Exec(s, es), LiveFork(req, true), p);
  }

  /** What a run that ends with a live cold fork shows: goroutine `t` returned it, its
      files were linked in the `pick`-th order, and it runs what its paths lead to. */
  ghost predicate ColdForkRuns(r: State, t: nat, p: Pid, req: Request, pick: nat) {
    && t < |r.threads| && r.threads[t] == FDone(LiveFork(req, false), p)
    && p in r.live && r.live[p] == LiveFork(req, false)
    && p < |r.procs| && r.procs[p].ctx == req.ctx && r.procs[p].kills == 0
    && Prepare(req.jail, ColdFiles(req), pick) == Some(r.procs[p].chroot)
    && r.procs[p].vm == Running(ColdSnap(req, r.procs[p].chroot))
  }

  /** From every pool, and for every order of linking: a run in which the fork of `req` is
      cold and runs what its extra files leave at the layout paths. */
  lemma ColdForkRunsItsExtras(s: State, req: Request, pick: nat) returns (es: seq<Event>, t: nat, p: Pid)
    requires Init(s) && ValidFork(req, 1) && Open(s.done, req.ctx) && Fits(req.jail)
    ensures ColdForkRuns(Exec(s, es), t, p, req, pick) && Exec(s, es).done == s.done
  {
    InitTame(s);
    ClosePool(s);
    var closing := [Close] + [Step(|s.threads|, true, 0)];
    var rest := CallSucceeds(Closed(s), req, pick);
    ExecAppend(s, closing, rest);
    es, t := closing + rest, |Closed(s).threads|;
    var r := Exec(s, es);
    p := r.threads[t].p;
    assert Runs(r, LiveFork(req, false), p);
    LiveFacts(r, p);
  }

  /** Hence the file of any key that is linked at a layout path, under whatever spelling,
      can be the one the fork runs. */
  lemma AnySpellingShadowsTheSnapshot(s: State, req: Request, key: string, path: string)
    returns (es: seq<Event>, t: nat, p: Pid, pick: nat)
    requires Init(s) && ValidFork(req, 1) && Open(s.done, req.ctx) && req.jail.Some? && Fits(req.jail)
    requires key in ColdFiles(req) && (path == MEM_FILE || path == STATE_FILE)
    requires var root := Root(req.jail.value.base); Target(root, key) == Target(root, path)
    ensures ColdForkRuns(Exec(s, es), t, p, req, pick)
    ensures var snap := Exec(s, es).procs[p].vm.snap;
            (if path == MEM_FILE then snap.mem else snap.state) == ColdFiles(req)[key]
  {
    var chroot: Option<Jail>;
    pick, chroot := AnyKeyCanShadow(req, key, path);
    es, t, p := ColdForkRunsItsExtras(s, req, pick);
  }

  /** For every pool and request: all live forks of the request run the requested
      snapshot, in every run, exactly under the condition a caller can check. */
  lemma RequestedSnapshotIff(s: State, req: Request)
    requires Init(s) && ValidFork(req, 1) && Open(s.done, req.ctx)
    ensures (forall es: seq<Event>, p: Pid | p in Exec(s, es).live && Exec(s, es).live[p].req == req ::
               p < |Exec(s, es).procs| && (Exec(s, es).procs[p].vm.Running? ==> Exec(s, es).procs[p].vm.snap == req.snap))
            <==> RunsRequested(s.warm.preload, req)
  {
    if RunsRequested(s.warm.preload, req) {
      forall es: seq<Event>, p: Pid | p in Exec(s, es).live && Exec(s, es).live[p].req == req
        ensures p < |Exec(s, es).procs| && (Exec(s, es).procs[p].vm.Running? ==> Exec(s, es).procs[p].vm.snap == req.snap)
      {
        LiveForksRunTheirSnapshot(s, es, p);
        RequestedOnBothPaths(s.warm.preload, Exec(s, es).live[p], Exec(s, es).procs[p].chroot);
      }
    } else {
      var es, p := OtherSnapshotRuns(s, req);
      assert Exec(s, es).live[p].req == req && Exec(s, es).procs[p].vm.snap != req.snap;
    }
  }

  /** When the condition fails: a run with another snapshot. */
  lemma OtherSnapshotRuns(s: State, req: Request) returns (es: seq<Event>, p: Pid)
    requires Init(s) && ValidFork(req, 1) && Open(s.done, req.ctx) && !RunsRequested(s.warm.preload, req)
    ensures var r := Exec(s, es);
            && p in r.live && r.live[p].req == req
            && p < |r.procs| && r.procs[p].vm.Running? && r.procs[p].vm.snap != req.snap
  {
    if s.warm.preload.Some? && s.warm.preload.value != req.snap {
      es, p := PreloadedSlotIgnoresTheRequest(s, req);
    } else {
      var root, files := Root(req.jail.value.base), ColdFiles(req);
      var path := if Carries(req, MEM_FILE, req.snap.mem) then STATE_FILE else MEM_FILE;
      var host := if path == MEM_FILE then req.snap.mem else req.snap.state;
      var key :| key in files && Target(root, key) == Target(root, path) && files[key] != host;
      var t, pick;
      es, t, p, pick := AnySpellingShadowsTheSnapshot(s, req, key, path);
    }
  }

  /** The key need not be that of the layout path: an extra file under any spelling of it
      (Jails.Spellings names four) can replace the memory file of the snapshot. */
  lemma UncleanKeyShadowsTheSnapshot(s: State, req: Request, base: seq<string>, key: string, other: string)
    returns (es: seq<Event>, t: nat, p: Pid, pick: nat)
    requires Init(s) && ValidFork(req, 1) && Open(s.done, req.ctx)
    requires req.jail == Some(Jailer(base, map[key := other]))
    requires Target(Root(base), key) == Target(Root(base), MEM_FILE)
    ensures ColdForkRuns(Exec(s, es), t, p, req, pick)
    ensures Exec(s, es).procs[p].vm == Running(Snapshot(other, req.snap.state))
  {
    OneExtraFile(req, base, key, other);
    es, t, p, pick := AnySpellingShadowsTheSnapshot(s, req, key, MEM_FILE);
    StateIsRequested(req, Exec(s, es).procs[p].chroot);
  }

  lemma OneExtraFile(req: Request, base: seq<string>, key: string, other: string)
    requires req.jail == Some(Jailer(base, map[key := other]))
    requires Target(Root(base), key) == Target(Root(base), MEM_FILE)
    ensures key in ColdFiles(req) && ColdFiles(req)[key] == other && Fits(req.jail)
    ensures Carries(req, STATE_FILE, req.snap.state)
  {
    var root := Root(base);
    LayoutTargets(root);
    assert req.jail.value.extras.Keys == {key};
    assert MEM_FILE in {MEM_FILE, STATE_FILE};
    LayoutAloneFits(req.jail.value);
  }

  lemma StateIsRequested(req: Request, chroot: Option<Jail>)
    requires req.jail.Some? && Linked(req, chroot) && Carries(req, STATE_FILE, req.snap.state)
    ensures ColdSnap(req, chroot).state == req.snap.state
  {
    ColdSnapIsLinked(req, chroot);
    CarriedIsLinked(req, chroot, STATE_FILE, req.snap.state);
  }

  // -------------------------------------------------- cancelled contexts

  /** From every pool: a run in which a cold fork, jailed or not, is returned as a
      success, its call's context is cancelled, as a caller that defers the cancel
      does, and the fork is dead while it is still in the live map. */
  lemma ColdForkDiesWithItsContext(s: State, req: Request, ctx: Ctx) returns (es: seq<Event>, t: nat, p: Pid)
    requires Init(s) && ValidFork(req, 1) && req.ctx == Some(ctx) && ctx !in s.done && Fits(req.jail)
    ensures var before, r := Exec(s, es), Exec(s, es + [Cancel(ctx)] + [Reap(p)]);
            && ColdForkRuns(before, t, p, req, 0)
            && p in r.live && r.threads == before.threads && p < |r.procs|
            && r.procs[p].vm == Dead && r.procs[p].kills == 0
  {
    es, t, p := ColdForkRunsItsExtras(s, req, 0);
    ExecOne(s, es, Cancel(ctx));
    ExecOne(s, es + [Cancel(ctx)], Reap(p));
    CancelKills(Exec(s, es), ctx, p);
  }

  lemma CancelKills(s: State, ctx: Ctx, p: Pid)
    requires p < |s.procs| && s.procs[p].ctx == Some(ctx)
    ensures var r := Apply(Apply(s, Cancel(ctx)), Reap(p));
            r == s.(done := r.done, procs := s.procs[p := s.procs[p].(vm := Dead)])
  {
  }

  /** A jailed pool whose constructor's context is cancelled: its slots are all dead and
      all idle. */
  lemma JailedPoolDies(s: State, ctx: Ctx) returns (es: seq<Event>)
    requires Init(s) && s.procs[0].ctx == Some(ctx)
    ensures var r := Exec(s, es);
            && r == s.(procs := r.procs, done := s.done + {ctx}) && |r.procs| == |s.procs|
            && forall p <- r.warm.idle :: p < |r.procs| && r.procs[p].vm == Dead && r.procs[p].kills == 0
  {
    var s' := Apply(s, Cancel(ctx));
    WatchersSettle(s');
    ExecFirst(s, Cancel(ctx), Reaps(|s'.procs|));
    es := [Cancel(ctx)] + Reaps(|s'.procs|);
    forall p | p in s.warm.idle ensures s.procs[p] in s.procs && p < |s.procs| {}
  }

  /** Goroutine `t` has a dead slot, or has got rid of it and failed. */
  predicate OnDeadSlot(s: State, t: nat) {
    && t < |s.threads|
    && match s.threads[t]
       case FWarm(_, p) => p < |s.procs| && s.procs[p].vm.Dead?
       case FPrep(_, p) => p < |s.procs| && s.procs[p].vm.Dead?
       case FLoad(_, p, _) => p < |s.procs| && s.procs[p].vm.Dead?
       case FResume(_, p) => p < |s.procs| && s.procs[p].vm.Dead?
       case FKill(_, _) => true
       case FRefillErr(_) => true
       case FFailed => true
       case _ => false
  }

  lemma DeadSlotStep(s: State, t: nat, ok: bool)
    requires OnDeadSlot(s, t) && IsWarm(s.threads[t])
    ensures var s' := StepWarm(s, t, ok); OnDeadSlot(s', t) && DeadRank(s'.threads[t]) < DeadRank(s.threads[t])
  {
  }

  /** Steps left to a goroutine with a dead slot. */
  function DeadRank(pc: Pc): nat {
    match pc
    case FWarm(_, _) => 5
    case FPrep(_, _) => 4
    case FLoad(_, _, _) => 3
    case FResume(_, _) => 3
    case FKill(_, _) => 2
    case FRefillErr(_) => 1
    case _ => 0
  }

  lemma DeadSlotStays(s: State, e: Event, t: nat)
    requires OnDeadSlot(s, t)
    ensures OnDeadSlot(Apply(s, e), t)
  {
    if e.Step? && e.t == t {
      if IsWarm(s.threads[t]) { DeadSlotStep(s, t, e.ok); }
    } else {
      OthersStay(s, e, t);
      NoRevival(s, e);
    }
  }

  /** Whatever happens, such a goroutine never turns cold and never returns a fork. */
  lemma {:induction false} DeadSlotNeverForks(s: State, es: seq<Event>, t: nat)
    requires OnDeadSlot(s, t)
    ensures OnDeadSlot(Exec(s, es), t)
  {
    if es != [] {
      DeadSlotNeverForks(s, es[..|es| - 1], t);
      DeadSlotStays(Exec(s, es[..|es| - 1]), es[|es| - 1], t);
    }
  }

  lemma DeadSlotFirst(s: State, t: nat, ok: bool)
    requires OnDeadSlot(s, t) && s.threads[t] != FFailed
    ensures var s' := Apply(s, Step(t, ok, 0)); OnDeadSlot(s', t) && DeadRank(s'.threads[t]) < DeadRank(s.threads[t])
  {
    DeadSlotStep(s, t, ok);
  }

  /** Left to itself it fails, whatever its system calls return. */
  lemma DeadSlotFails(s: State, t: nat, ok: bool) returns (es: seq<Event>)
    requires OnDeadSlot(s, t)
    ensures (forall e <- es :: e == Step(t, ok, 0)) && t < |Exec(s, es).threads| && Exec(s, es).threads[t] == FFailed
    decreases DeadRank(s.threads[t])
  {
    if s.threads[t] == FFailed {
      es := [];
    } else {
      var e := Step(t, ok, 0);
      DeadSlotFirst(s, t, ok);
      var rest := DeadSlotFails(Apply(s, e), t, ok);
      ExecFirst(s, e, rest);
      es := [e] + rest;
    }
  }

  /** `r` is `s` with every process dead and the last idle slot with goroutine 0. */
  ghost predicate TookDeadSlot(s: State, r: State, req: Request, p: Pid)
    requires s.warm.idle != []
  {
    var last := |s.warm.idle| - 1;
    && r.threads == [FWarm(req, p)] && p == s.warm.idle[last] && r.warm.idle == s.warm.idle[..last]
    && !r.warm.closed && |r.procs| == |s.procs|
    && forall q | 0 <= q < |r.procs| :: r.procs[q].vm == Dead && r.procs[q].kills == 0
  }

  lemma DeadSlotIsTaken(s: State, ctx: Ctx, req: Request) returns (es: seq<Event>, p: Pid)
    requires Init(s) && s.procs[0].ctx == Some(ctx) && ValidFork(req, 1)
    ensures TookDeadSlot(s, Exec(s, es), req, p) && p < |s.procs|
  {
    var dying := JailedPoolDies(s, ctx);
    AllAreIdle(s, Exec(s, dying));
    es := TakesTheTop(s, dying, req);
    p := s.warm.idle[s.warm.size - 1];
  }

  /** From every jailed pool: a run in which the constructor's context is cancelled, every
      slot is dead and still idle, and a Fork call on the pool takes one of them. Its
      fork then never turns to the cold path in any continuation, and fails. */
  lemma JailedPoolDiesWithItsContext(s: State, ctx: Ctx, req: Request)
    returns (es: seq<Event>, p: Pid, rest: seq<Event>)
    requires Init(s) && s.procs[0].ctx == Some(ctx) && ValidFork(req, 1)
    ensures TookDeadSlot(s, Exec(s, es), req, p)
    ensures forall more: seq<Event> :: OnDeadSlot(Exec(Exec(s, es), more), 0)
    ensures forall e <- rest :: e == Step(0, true, 0)
    ensures var r := Exec(Exec(s, es), rest); r.threads != [] && r.threads[0] == FFailed
  {
    es, p := DeadSlotIsTaken(s, ctx, req);
    var r := Exec(s, es);
    forall more: seq<Event> ensures OnDeadSlot(Exec(r, more), 0) { DeadSlotNeverForks(r, more, 0); }
    rest := DeadSlotFails(r, 0, true);
  }

  lemma AllAreIdle(s: State, r: State)
    requires Init(s) && r.warm == s.warm && |r.procs| == |s.procs|
    requires forall p <- r.warm.idle :: p < |r.procs| && r.procs[p].vm == Dead && r.procs[p].kills == 0
    ensures forall q | 0 <= q < |r.procs| :: r.procs[q].vm == Dead && r.procs[q].kills == 0
  {
    forall q | 0 <= q < |r.procs| ensures r.procs[q].vm == Dead && r.procs[q].kills == 0 {
      assert r.warm.idle[q] == q;
    }
  }

  /** A run goes on: the pool is attached, and the goroutine of a Fork call takes a slot. */
  lemma TakesTheTop(s: State, es: seq<Event>, req: Request) returns (all: seq<Event>)
    requires var r := Exec(s, es); ValidFork(req, 1) && r.threads == [] && !r.warm.closed && r.warm.idle != []
    ensures Exec(s, all) == Taken(Exec(s, es), req)
  {
    var step := Step(0, true, 0);
    ExecOne(s, es, Attach);
    ExecOne(s, es + [Attach], Fork(req, 1));
    ExecOne(s, es + [Attach] + [Fork(req, 1)], step);
    ExecOne(s, es + [Attach] + [Fork(req, 1)] + [step], step);
    TakeSteps(Exec(s, es), req);
    all := es + [Attach] + [Fork(req, 1)] + [step] + [step];
  }

  function Taken(s: State, req: Request): State
    requires s.warm.idle != []
  {
    var last := |s.warm.idle| - 1;
    s.(attached := true, threads := [FWarm(req, s.warm.idle[last])],
       warm := s.warm.(idle := s.warm.idle[..last], takes := s.warm.takes + 1))
  }

  lemma TakeSteps(s: State, req: Request)
    requires ValidFork(req, 1) && s.threads == [] && !s.warm.closed && s.warm.idle != []
    ensures Apply(Apply(Apply(Apply(s, Attach), Fork(req, 1)), Step(0, true, 0)), Step(0, true, 0)) == Taken(s, req)
  {
    var s1 := Apply(Apply(s, Attach), Fork(req, 1));
    assert s1.threads == [FStart(req)];
    var s2 := Apply(s1, Step(0, true, 0));
    assert s2.threads == [FTake(req)];
  }

  // ----------------------------------------------------------- witnesses

  /** An ultra-warm pool of one unjailed slot, attached, and the states a single fork
      on it goes through: started, took, to resume, running, to publish, published. */
  function OneFork(preload: Snapshot, req: Request, stage: nat): State {
    var fork := LiveFork(req, true);
    var slot := Process(Loaded(preload), None, true, 0, None);
    var running := Process(Running(preload), None, true, 0, None);
    var full := WarmState(1, None, Some(preload), [0], false, 0, 0, 0, 0, 0, 0, 0);
    var taken := full.(idle := [], takes := 1);
    match stage
    case 0 => State([slot], full, true, map[], [FStart(req)], 1, {})
    case 1 => State([slot], full, true, map[], [FTake(req)], 1, {})
    case 2 => State([slot], taken, true, map[], [FWarm(req, 0)], 1, {})
    case 3 => State([slot], taken, true, map[], [FResume(req, 0)], 1, {})
    case 4 => State([running], taken, true, map[], [FRefillOk(req, 0)], 1, {})
    case 5 => State([running], taken, true, map[], [FInsert(fork, 0), RSpawn(req.ctx)], 1, {})
    case _ => State([running], taken, true, map[0 := fork], [FDone(fork, 0), RSpawn(req.ctx)], 1, {})
  }

  lemma OneForkStep(preload: Snapshot, req: Request, stage: nat)
    requires stage < 6
    ensures Apply(OneFork(preload, req, stage), Step(0, true, 0)) == OneFork(preload, req, stage + 1)
  {
    var s := OneFork(preload, req, stage);
    match stage
    case 0 =>
    case 1 => assert s.warm.idle[..0] == [];
    case 2 =>
    case 3 =>
    case 4 => assert [FInsert(LiveFork(req, true), 0)] + [RSpawn(req.ctx)] == OneFork(preload, req, 5).threads;
    case 5 =>
  }

  function OneForkRun(req: Request, stage: nat): seq<Event> {
    if stage == 0 then [Fork(req, 1)] else OneForkRun(req, stage - 1) + [Step(0, true, 0)]
  }

  lemma {:induction false} OneForkReaches(preload: Snapshot, req: Request, stage: nat)
    requires ValidFork(req, 1) && stage <= 6
    ensures var s := OneFork(preload, req, 0).(threads := []);
            Init(s) && Exec(s, OneForkRun(req, stage)) == OneFork(preload, req, stage)
  {
    var s := OneFork(preload, req, 0).(threads := []);
    if stage == 0 {
      assert seq(1, i => i) == [0];
      ExecOne(s, [], Fork(req, 1));
      assert [] + [Fork(req, 1)] == [Fork(req, 1)];
      assert [] + seq(1, _ => FStart(req)) == [FStart(req)];
    } else {
      OneForkReaches(preload, req, stage - 1);
      ExecOne(s, OneForkRun(req, stage - 1), Step(0, true, 0));
      OneForkStep(preload, req, stage - 1);
    }
  }

  /** Shutdown's steps when no fork is live and no slot idle. */
  lemma ShutdownAlone(s: State, t: nat)
    requires t == |s.threads| && s.live == map[] && s.attached && s.warm.idle == []
    ensures var step := Step(t, true, 0);
            Apply(Apply(Apply(Apply(s, Shutdown), step), step), step)
            == s.(attached := false, warm := s.warm.(closed := true), threads := s.threads + [SDone({}, 0, 0)])
  {
    var s2 := s.(attached := false, threads := s.threads + [SKill({}, {}, 0, 0, true)]);
    var s3 := s.(attached := false, threads := s.threads + [SClose({}, 0, 0)]);
    ClaimNothing(s, t);
    KillNothing(s2, t, s3);
    CloseNothing(s3, t);
    assert s3.threads[t := SDone({}, 0, 0)] == s.threads + [SDone({}, 0, 0)];
  }

  lemma ClaimNothing(s: State, t: nat)
    requires t == |s.threads| && s.live == map[] && s.attached
    ensures Apply(Apply(s, Shutdown), Step(t, true, 0))
         == s.(attached := false, threads := s.threads + [SKill({}, {}, 0, 0, true)])
  {
    assert s.live.Keys == {};
    assert (s.threads + [SClaim])[t := SKill({}, {}, 0, 0, true)] == s.threads + [SKill({}, {}, 0, 0, true)];
  }

  lemma KillNothing(s: State, t: nat, r: State)
    requires t < |s.threads| && s.threads[t] == SKill({}, {}, 0, 0, true)
    requires |r.threads| == |s.threads| && r == s.(threads := r.threads) && r.threads == s.threads[t := SClose({}, 0, 0)]
    ensures Apply(s, Step(t, true, 0)) == r
  {
  }

  lemma CloseNothing(s: State, t: nat)
    requires t < |s.threads| && s.threads[t] == SClose({}, 0, 0) && s.warm.idle == []
    ensures Apply(s, Step(t, true, 0)) == s.(warm := s.warm.(closed := true), threads := s.threads[t := SDone({}, 0, 0)])
  {
    assert CloseIdle(s).procs == s.procs;
  }

  /** The fork of OneFork publishing itself after Shutdown is through. */
  function AfterShutdown(preload: Snapshot, req: Request): State {
    var s, fork := OneFork(preload, req, 5), LiveFork(req, true);
    s.(attached := false, warm := s.warm.(closed := true), live := map[0 := fork],
       threads := [FDone(fork, 0), RSpawn(req.ctx), SDone({}, 0, 0)])
  }

  lemma InsertAfterShutdown(preload: Snapshot, req: Request)
    ensures var s := OneFork(preload, req, 5);
            Apply(s.(attached := false, warm := s.warm.(closed := true), threads := s.threads + [SDone({}, 0, 0)]),
                  Step(0, true, 0)) == AfterShutdown(preload, req)
  {
    var s := OneFork(preload, req, 5);
    assert (s.threads + [SDone({}, 0, 0)])[0 := FDone(LiveFork(req, true), 0)] == AfterShutdown(preload, req).threads;
  }

  /** A concrete run in which a fork that was in flight is live after Shutdown has
      finished, although Shutdown is said to stop every live fork. */
  lemma ForkInFlightOutlivesShutdown(preload: Snapshot, req: Request) returns (s: State, es: seq<Event>)
    requires ValidFork(req, 1)
    ensures Init(s) && Exec(s, es) == AfterShutdown(preload, req)
    ensures 0 in Exec(s, es).live && Exec(s, es).procs == [Process(Running(preload), None, true, 0, None)]
    ensures Exec(s, es).threads[2].SDone?
  {
    s, es := OneFork(preload, req, 0).(threads := []), OneForkRun(req, 5);
    var step := Step(2, true, 0);
    OneForkReaches(preload, req, 5);
    ExecOne(s, es, Shutdown);
    ExecOne(s, es + [Shutdown], step);
    ExecOne(s, es + [Shutdown] + [step], step);
    ExecOne(s, es + [Shutdown] + [step] + [step], step);
    ExecOne(s, es + [Shutdown] + [step] + [step] + [step], Step(0, true, 0));
    ShutdownAlone(OneFork(preload, req, 5), 2);
    InsertAfterShutdown(preload, req);
    es := es + [Shutdown] + [step] + [step] + [step] + [Step(0, true, 0)];
  }
}
