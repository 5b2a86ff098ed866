/** WarmPool as the code holds it: a slice of idle slots, flags and counters that its
    methods update in place. Each method's effect is a run of the step machine. */
module WarmPools {
  import opened Wrappers
  import opened Jails
  import opened Vm
  import opened PoolMachine
  import PoolOwnership

  /** What lies outside the pools: the Firecracker processes, the clock and the contexts
      that are done. A slot is
      its index in `procs`, which holds its flags too. The ghost fields are the rest of
      the machine's state: the goroutines started so far, and the fork pool's fields. */
  class Host {
    var procs: seq<Process>
    var now: nat
    var done: set<Ctx>
    const reliable: bool  // no system call fails but for a reason that is modelled
    ghost var threads: seq<Pc>
    ghost var live: map<Pid, LiveFork>
    ghost var attached: bool

    constructor (now: nat, reliable: bool)
      ensures procs == [] && this.now == now && done == {} && threads == [] && live == map[] && !attached
      ensures this.reliable == reliable
    {
      this.reliable := reliable;
      procs, this.now, done, threads, live, attached := [], now, {}, [], map[], false;
    }

    /** A system call: it may fail, but on a reliable host. */
    method Call() returns (ok: bool)
      ensures reliable ==> ok
    {
      ok := *;
      ok := ok || reliable;
    }

    /** PrepareChroot: the files are linked one by one, as the map iterates; any of them
        may fail. The paths of all keys are then linked, each to the file of a key that
        has it. On a reliable host it fails only in an order that leads nowhere. */
    method PrepareChroot(jail: Jail, files: map<string, string>) returns (r: Option<Jail>, ghost order: seq<string>)
      ensures multiset(order) == multiset(files.Keys) && forall k <- order :: k in files
      ensures r.Some? || reliable ==> LinkAll(jail, files, order) == r
      ensures r.Some? ==> forall path <- Targets(jail.root, files.Keys) ::
                path in r.value.files && FromSome(jail.root, files, files.Keys, path, r.value.files[path])
      ensures r.Some? && Flat(jail.root, jail.files.Keys) ==>
                r.value.root == jail.root && r.value.files.Keys == jail.files.Keys + Targets(jail.root, files.Keys)
    {
      var linked, todo := jail, files.Keys;
      order := [];
      while todo != {}
        invariant todo <= files.Keys && multiset(order) + multiset(todo) == multiset(files.Keys)
        invariant (forall k <- order :: k in files) && LinkAll(jail, files, order) == Some(linked)
        decreases |todo|
      {
        var key :| key in todo;
        var ok := Call();
        var next := Link(linked, key, files[key]);
        if !ok || next.None? {
          order := AnyRest(jail, files, order, key, todo);
          return None, order;
        }
        assert (order + [key])[..|order|] == order;
        linked, todo, order := next.value, todo - {key}, order + [key];
      }
      r := Some(linked);
      AllAreLinked(jail, files, order);
    }

    lemma AllAreLinked(jail: Jail, files: map<string, string>, order: seq<string>)
      requires multiset(order) == multiset(files.Keys) && (forall k <- order :: k in files)
      requires LinkAll(jail, files, order).Some?
      ensures var r := LinkAll(jail, files, order).value;
              && (forall path <- Targets(jail.root, files.Keys) ::
                    path in r.files && FromSome(jail.root, files, files.Keys, path, r.files[path]))
              && (Flat(jail.root, jail.files.Keys) ==>
                    r.root == jail.root && r.files.Keys == jail.files.Keys + Targets(jail.root, files.Keys))
    {
      forall k ensures k in order <==> k in files.Keys {
        assert k in multiset(order) <==> k in order;
        assert k in multiset(files.Keys) <==> k in files.Keys;
      }
      assert Members(order) == files.Keys;
      forall path | path in Targets(jail.root, files.Keys) { LinkedIsFromSome(jail, files, order, path); }
      if Flat(jail.root, jail.files.Keys) { LinkAllIff(jail, files, order); }
    }

    /** spawnSlot and the other ways to start a process tied to `ctx`, in a chroot with
        `files` for a jailed one: exec.Cmd.Start fails if the context is done. */
    method Spawn(jailer: Option<Jailer>, files: map<string, string>, ctx: Option<Ctx>)
      returns (p: Option<Pid>, ghost pick: nat)
      modifies this`procs
      ensures match p
              case None => procs == old(procs)
              case Some(id) => id == |old(procs)| && Open(done, ctx) && Prepare(jailer, files, pick).Some?
                               && procs == old(procs) + [Spawned(Prepare(jailer, files, pick).value, ctx)]
      ensures p.None? && reliable ==> (ctx.Some? && ctx.value in done) || Prepare(jailer, files, pick).None?
      ensures p.Some? ==> procs[p.value].vm.Empty? && !procs[p.value].preloaded && procs[p.value].kills == 0 &&
                          procs[p.value].ctx == ctx && (jailer.Some? <==> procs[p.value].chroot.Some?)
    {
      pick := 0;
      var chroot: Option<Jail> := None;
      if jailer.Some? {
        ghost var order: seq<string>;
        chroot, order := PrepareChroot(Jail(Root(jailer.value.base), map[]), files);
        pick := OrderCanBe(files, order);
        if chroot.None? {
          return None, pick;
        }
      }
      var ok := Call();
      if ok && Open(done, ctx) {
        p, procs := Some(|procs|), procs + [Spawned(chroot, ctx)];
      } else {
        p := None;
      }
    }

    method Kill(p: Pid)
      requires p < |procs|
      modifies this`procs
      ensures procs == old(procs)[p := Vm.Kill(old(procs)[p])]
    {
      procs := procs[p := Vm.Kill(procs[p])];
    }

    /** snapForSlot: prepares the chroot of a jailed slot; the paths its socket will see. */
    method SnapForSlot(p: Pid, snap: Snapshot) returns (inside: Option<Snapshot>)
      requires p < |procs|
      modifies this`procs
      ensures match inside
              case None => procs == old(procs) && procs[p].chroot.Some?
              case Some(paths) => Vm.SnapForSlot(old(procs)[p], snap).Some?
                                  && paths == Vm.SnapForSlot(old(procs)[p], snap).value.1
                                  && procs == old(procs)[p := Vm.SnapForSlot(old(procs)[p], snap).value.0]
      ensures inside.None? && reliable ==> Vm.SnapForSlot(old(procs)[p], snap).None?
      ensures old(procs)[p].chroot.None? ==> inside == Some(snap)
    {
      if procs[p].chroot.None? {
        return Some(snap);
      }
      var jail := procs[p].chroot.value;
      var files := map[MEM_FILE := snap.mem, STATE_FILE := snap.state];
      var chroot, order := PrepareChroot(jail, files);
      LayoutKeys(snap);
      LayoutInAnyOrder(jail, snap, order);
      if chroot.None? {
        return None;
      }
      procs := procs[p := procs[p].(chroot := chroot)];
      inside := Some(LAYOUT);
    }

    /** LoadOnSocket: the socket may fail even when the process would accept, and fails
        if the context is done. */
    method Load(p: Pid, paths: Snapshot, ctx: Option<Ctx>) returns (ok: bool)
      requires p < |procs|
      modifies this`procs
      ensures ok ==> Vm.Load(old(procs)[p], paths).Some? && Open(done, ctx)
      ensures !ok && reliable ==> Vm.Load(old(procs)[p], paths).None? || (ctx.Some? && ctx.value in done)
      ensures procs == if ok then old(procs)[p := Vm.Load(old(procs)[p], paths).value] else old(procs)
      ensures ok ==> old(procs)[p].vm.Empty? && procs[p].vm.Loaded? &&
                     (procs[p].chroot.None? ==> procs[p].vm.snap == paths)
    {
      ok := Call();
      var loaded := Vm.Load(procs[p], paths);
      ok := ok && loaded.Some? && Open(done, ctx);
      if ok {
        procs := procs[p := loaded.value];
      }
    }

    /** The load of RestoreOnSocket, which also resumes when `combined`. */
    method Restore(p: Pid, paths: Snapshot, combined: bool, ctx: Option<Ctx>) returns (ok: bool)
      requires p < |procs|
      modifies this`procs
      ensures ok ==> Vm.Load(old(procs)[p], paths).Some? && Open(done, ctx)
      ensures !ok && reliable ==> Vm.Load(old(procs)[p], paths).None? || (ctx.Some? && ctx.value in done)
      ensures procs == if !ok then old(procs)
                       else
                         var q := Vm.Load(old(procs)[p], paths).value;
                         old(procs)[p := if combined then q.(vm := Running(q.vm.snap)) else q]
      ensures ok ==> old(procs)[p].vm.Empty? && (if combined then procs[p].vm.Running? else procs[p].vm.Loaded?) &&
                     (procs[p].chroot.None? ==> procs[p].vm.snap == paths)
    {
      ok := Load(p, paths, ctx);
      if ok && combined {
        procs := procs[p := procs[p].(vm := Running(procs[p].vm.snap))];
      }
    }

    /** ResumeOnSocket */
    method Resume(p: Pid, ctx: Option<Ctx>) returns (ok: bool)
      requires p < |procs|
      modifies this`procs
      ensures ok ==> old(procs)[p].vm.Loaded? && (ctx.Some? ==> ctx.value !in done)
      ensures !ok && reliable ==> !old(procs)[p].vm.Loaded? || (ctx.Some? && ctx.value in done)
      ensures procs == if ok then old(procs)[p := old(procs)[p].(vm := Running(old(procs)[p].vm.snap))] else old(procs)
    {
      ok := Call();
      var resumed := Vm.Resume(procs[p]);
      ok := ok && resumed.Some? && Open(done, ctx);
      if ok {
        procs := procs[p := resumed.value];
      }
    }
  }

  // -------------------------------------------------- runs of one goroutine

  /** Goroutine `t` alone can bring the machine from `s` to `r`. */
  ghost predicate Reaches(s: State, t: nat, r: State) {
    exists es :: OnlySteps(es, t) && Exec(s, es) == r
  }

  ghost predicate OnlySteps(es: seq<Event>, t: nat) {
    forall e <- es :: e.Step? && e.t == t
  }

  /** `t` moved on; the goroutines before it stay where they were. */
  ghost predicate OnlyMoved(before: seq<Pc>, t: nat, after: seq<Pc>) {
    |before| <= |after| && forall k | 0 <= k < |before| && k != t :: after[k] == before[k]
  }

  lemma Stays(s: State, t: nat)
    ensures Reaches(s, t, s)
  {
    assert OnlySteps([], t) && Exec(s, []) == s;
  }

  lemma OneMore(s: State, t: nat, r: State, ok: bool, pick: Pid)
    requires Reaches(s, t, r) && t < |r.threads|
    ensures Reaches(s, t, StepThread(r, t, ok, pick))
  {
    var es :| OnlySteps(es, t) && Exec(s, es) == r;
    var e := Step(t, ok, pick);
    assert (es + [e])[..|es|] == es;
    assert OnlySteps(es + [e], t) && Exec(s, es + [e]) == Apply(r, e);
  }

  /** `r` is `s` after one step of goroutine `t`. */
  ghost predicate Stepped(s: State, t: nat, r: State) {
    t < |s.threads| && exists ok: bool, pick: nat :: r == StepThread(s, t, ok, pick)
  }

  lemma OneStepMore(s: State, t: nat, mid: State, r: State)
    requires Reaches(s, t, mid) && Stepped(mid, t, r)
    ensures Reaches(s, t, r)
  {
    var ok: bool, pick: nat :| r == StepThread(mid, t, ok, pick);
    OneMore(s, t, mid, ok, pick);
  }

  lemma LayoutKeys(snap: Snapshot)
    ensures multiset(map[MEM_FILE := snap.mem, STATE_FILE := snap.state].Keys) == multiset{MEM_FILE, STATE_FILE}
  {
    LayoutTargets([]);
    assert map[MEM_FILE := snap.mem, STATE_FILE := snap.state].Keys == {MEM_FILE, STATE_FILE};
  }

  /** A new slot takes a snapshot if and only if there is room for its files. */
  lemma SlotLoads(template: Option<Jailer>, q: Process, snap: Snapshot)
    requires q.vm.Empty? && MadeFrom(template, q.chroot)
    ensures Vm.SnapForSlot(q, snap).Some? <==> Fits(template)
    ensures Vm.SnapForSlot(q, snap).Some? ==>
              var (prepared, inside) := Vm.SnapForSlot(q, snap).value;
              && Vm.Load(prepared, inside) == Some(prepared.(vm := Loaded(snap)))
              && prepared == q.(chroot := prepared.chroot) && (prepared.chroot.Some? <==> q.chroot.Some?)
  {
    SlotTakesIffFits(template, q, snap);
    if Vm.SnapForSlot(q, snap).Some? { SlotPathsResolveToHost(q, snap, false); }
  }

  /** A slot just spawned. */
  ghost predicate Unused(procs: seq<Process>, template: Option<Jailer>, slot: Pid) {
    slot < |procs| && procs[slot].vm.Empty? && !procs[slot].preloaded && procs[slot].kills == 0 &&
    MadeFrom(template, procs[slot].chroot)
  }

  /** What has become of it: filled with the preload, if any, or dead and killed once. */
  predicate Used(before: seq<Process>, after: seq<Process>, preload: Option<Snapshot>, slot: Pid, filled: bool)
    requires slot < |before|
  {
    && |after| == |before| && after == before[slot := after[slot]]
    && var q, q' := before[slot], after[slot];
       && q'.ctx == q.ctx && (q'.chroot.Some? <==> q.chroot.Some?)
       && if filled then q'.kills == 0 && q'.preloaded == preload.Some? &&
                         q'.vm == if preload.Some? then Loaded(preload.value) else Empty
          else q'.vm.Dead? && q'.kills == 1
  }

  /** The errors counted and the clock of the last one, before and after, when one more was
      met or none. */
  predicate Errors(errs: nat, errs': nat, last: nat, last': nat, now: nat, more: bool) {
    if more then errs' == errs + 1 && last' == now else errs' == errs && last' == last
  }

  /** Nothing stands in the way of a refill under `ctx`. */
  ghost predicate Able(reliable: bool, template: Option<Jailer>, ctx: Option<Ctx>, done: set<Ctx>) {
    reliable && Fits(template) && (ctx.Some? ==> ctx.value !in done)
  }

  datatype TakeResult = Slot(p: Pid) | Drained | PoolClosed

  class WarmPool {
    const host: Host
    const size: nat
    const template: Option<Jailer>
    var preload: Option<Snapshot>
    var idle: seq<Pid>
    var closed: bool
    var refillErrs: nat
    var takes: nat
    var drains: nat
    var lastRefillFail: nat
    ghost var drainRefills: nat
    ghost var asked: nat
    ghost var closeKills: nat

    ghost predicate Valid()
      reads this, host
    {
      && (forall k | 0 <= k < |idle| :: idle[k] < |host.procs|)
      && forall k, l | 0 <= k < l < |idle| :: idle[k] != idle[l]
    }

    ghost function View(): WarmState
      reads this
    {
      WarmState(size, template, preload, idle, closed, refillErrs, takes, drains, lastRefillFail,
                drainRefills, asked, closeKills)
    }

    /** The machine state the heap stands for. */
    ghost function World(): State
      reads this, host
    {
      State(host.procs, View(), host.attached, host.live, host.threads, host.now, host.done)
    }

    constructor Fresh(host: Host, size: nat, template: Option<Jailer>)
      ensures this.host == host && this.size == size && this.template == template
      ensures View() == WarmState(size, template, None, [], false, 0, 0, 0, 0, 0, 0, 0)
    {
      this.host, this.size, this.template := host, size, template;
      preload, idle, closed := None, [], false;
      refillErrs, takes, drains, lastRefillFail := 0, 0, 0, 0;
      drainRefills, asked, closeKills := 0, 0, 0;
    }

    /** Take, by goroutine `t`: the last idle slot; when there is none, a Refill under no
        context, unless one failed less than 500 ms ago. */
    method Take(ghost start: State, ghost t: nat, ghost req: Request) returns (r: TakeResult)
      requires Valid() && t < |host.threads| && host.threads[t] == FTake(req) && Reaches(start, t, World())
      modifies this`idle, this`takes, this`drains, this`drainRefills, host`threads
      ensures Valid() && Reaches(start, t, World())
      ensures (r.PoolClosed? <==> closed) && (r.Drained? <==> !closed && old(idle) == [])
      ensures if r.Slot? then r.p < |host.procs| && old(idle) == idle + [r.p] else idle == old(idle)
      ensures takes == old(takes) + (if r.Slot? then 1 else 0) && drains == old(drains) + (if r.Drained? then 1 else 0)
      ensures host.threads == old(host.threads)[t := if r.Slot? then FWarm(req, r.p) else FCold(req)] +
                              if r.Drained? && (lastRefillFail == 0 || host.now - lastRefillFail >= 500_000_000)
                              then [RSpawn(None)] else []
    {
      r := Pop(start, t, req);
      if r.Drained? {
        Drain(start, t, req);
      }
    }

    /** The critical section of Take. */
    method Pop(ghost start: State, ghost t: nat, ghost req: Request) returns (r: TakeResult)
      requires Valid() && t < |host.threads| && host.threads[t] == FTake(req) && Reaches(start, t, World())
      modifies this`idle, this`takes, this`drains, host`threads
      ensures Valid() && Reaches(start, t, World())
      ensures host.threads == old(host.threads)[t := match r case Slot(p) => FWarm(req, p)
                                                     case Drained => FDrained(req) case PoolClosed => FCold(req)]
      ensures (r.PoolClosed? <==> closed) && (r.Drained? <==> !closed && old(idle) == [])
      ensures if r.Slot? then r.p < |host.procs| && old(idle) == idle + [r.p] else idle == old(idle)
      ensures takes == old(takes) + (if r.Slot? then 1 else 0) && drains == old(drains) + (if r.Drained? then 1 else 0)
    {
      ghost var before := World();
      if closed || |idle| == 0 {
        r := GoWithout(t, req);
      } else {
        var slot := PopLast(t, req);
        r := Slot(slot);
      }
      OneStepMore(start, t, before, World());
    }

    method GoWithout(ghost t: nat, ghost req: Request) returns (r: TakeResult)
      requires Valid() && t < |host.threads| && host.threads[t] == FTake(req) && (closed || idle == [])
      modifies this`drains, host`threads
      ensures Valid() && Stepped(old(World()), t, World()) && r == (if closed then PoolClosed else Drained)
      ensures host.threads == old(host.threads)[t := if closed then FCold(req) else FDrained(req)]
      ensures drains == old(drains) + if closed then 0 else 1
    {
      ghost var after := StepThread(World(), t, true, 0);
      if closed {
        r := PoolClosed;
      } else {
        drains := drains + 1;
        r := Drained;
      }
      host.threads := host.threads[t := if closed then FCold(req) else FDrained(req)];
      assert World() == after;
    }

    method PopLast(ghost t: nat, ghost req: Request) returns (slot: Pid)
      requires Valid() && t < |host.threads| && host.threads[t] == FTake(req) && !closed && idle != []
      modifies this`idle, this`takes, host`threads
      ensures Valid() && Stepped(old(World()), t, World()) && slot < |host.procs| && old(idle) == idle + [slot]
      ensures host.threads == old(host.threads)[t := FWarm(req, slot)] && takes == old(takes) + 1
    {
      ghost var after := StepThread(World(), t, true, 0);
      slot := idle[|idle| - 1];
      idle, takes := idle[..|idle| - 1], takes + 1;
      host.threads := host.threads[t := FWarm(req, slot)];
      assert World() == after;
    }

    /** A drained Take starts a Refill outside the backoff window. */
    method Drain(ghost start: State, ghost t: nat, ghost req: Request)
      requires Valid() && t < |host.threads| && host.threads[t] == FDrained(req) && Reaches(start, t, World())
      modifies this`drainRefills, host`threads
      ensures Valid() && Reaches(start, t, World())
      ensures host.threads == old(host.threads)[t := FCold(req)] +
                              if lastRefillFail == 0 || host.now - lastRefillFail >= 500_000_000 then [RSpawn(None)] else []
    {
      OneMore(start, t, World(), true, 0);
      if lastRefillFail == 0 || host.now - lastRefillFail >= REFILL_BACKOFF {
        drainRefills := drainRefills + 1;
        host.threads := host.threads[t := FCold(req)] + [RSpawn(None)];
      } else {
        host.threads := host.threads[t := FCold(req)];
      }
    }

    method RefillFailed()
      modifies this`refillErrs, this`lastRefillFail
      ensures refillErrs == old(refillErrs) + 1 && lastRefillFail == host.now
    {
      refillErrs, lastRefillFail := refillErrs + 1, host.now;
    }

    /** Refill, called from outside: its goroutine starts. */
    ghost method Ask(ctx: Option<Ctx>)
      modifies this`asked, host`threads
      ensures World() == Apply(old(World()), PoolMachine.Event.Refill(ctx))
    {
      asked := asked + 1;
      host.threads := host.threads + [RSpawn(ctx)];
    }

    /** The goroutine Refill starts, run to its end: a new slot comes last in `idle`, with
        the preload in it, if any; or the error is counted and the clock noted, or the pool
        was closed, and a process that was spawned is dead, killed once. */
    method Refill(ghost t: nat, ctx: Option<Ctx>)
      requires Valid() && t < |host.threads| && host.threads[t] == RSpawn(ctx)
      modifies this`idle, this`refillErrs, this`lastRefillFail, this`closeKills, host`procs, host`threads
      ensures Valid() && Reaches(old(World()), t, World())
      ensures host.threads == old(host.threads)[t := Exit]
      ensures var n := |old(host.procs)|;
              && n <= |host.procs| <= n + 1 && host.procs[..n] == old(host.procs)
              && (idle == old(idle) || (!closed && |host.procs| == n + 1 && idle == old(idle) + [n]))
              && Errors(old(refillErrs), refillErrs, old(lastRefillFail), lastRefillFail, host.now,
                        idle == old(idle) && (!closed || |host.procs| == n))
              && (|host.procs| == n + 1 ==>
                    var q := host.procs[n];
                    && q.ctx == (if template.Some? then ctx else None) && (q.chroot.Some? <==> template.Some?)
                    && if idle == old(idle) then q.vm.Dead? && q.kills == 1
                       else q.kills == 0 && q.preloaded == preload.Some? &&
                            q.vm == if preload.Some? then Loaded(preload.value) else Empty)
      ensures host.reliable && !closed && Fits(template) && (ctx.Some? ==> ctx.value !in host.done) ==> idle != old(idle)
    {
      ghost var start := World();
      Stays(start, t);
      var slot := SpawnSlot(start, t, ctx);
      if slot.Some? {
        FillSlot(start, t, slot.value, ctx);
      }
    }

    /** What Refill does with the slot it spawned. */
    method FillSlot(ghost start: State, ghost t: nat, slot: Pid, ctx: Option<Ctx>)
      requires Valid() && t < |host.threads| && host.threads[t] == RCheck(ctx, slot) && slot < |host.procs|
      requires slot !in idle && Reaches(start, t, World()) && Unused(host.procs, template, slot)
      modifies this`idle, this`refillErrs, this`lastRefillFail, this`closeKills, host`procs, host`threads
      ensures Valid() && Reaches(start, t, World())
      ensures host.threads == old(host.threads)[t := Exit]
      ensures idle == old(idle) || (!closed && idle == old(idle) + [slot])
      ensures Errors(old(refillErrs), refillErrs, old(lastRefillFail), lastRefillFail, host.now,
                     idle == old(idle) && !closed)
      ensures Used(old(host.procs), host.procs, preload, slot, idle != old(idle))
      ensures Able(host.reliable, template, ctx, host.done) && !closed ==> idle != old(idle)
    {
      var snap, wasClosed := preload, closed;
      Check(start, t, slot, ctx);
      FillChecked(start, t, slot, ctx, snap, wasClosed);
    }

    /** The rest, with what the critical section has read. */
    method FillChecked(ghost start: State, ghost t: nat, slot: Pid, ctx: Option<Ctx>, snap: Option<Snapshot>,
                       wasClosed: bool)
      requires Valid() && t < |host.threads| && slot < |host.procs| && snap == preload && wasClosed == closed
      requires host.threads[t] == if wasClosed then RKill(slot)
                                  else if snap.Some? then RPrep(ctx, slot, snap.value) else RPublish(slot)
      requires slot !in idle && Reaches(start, t, World()) && Unused(host.procs, template, slot)
      modifies this`idle, this`refillErrs, this`lastRefillFail, this`closeKills, host`procs, host`threads
      ensures Valid() && Reaches(start, t, World())
      ensures host.threads == old(host.threads)[t := Exit]
      ensures idle == old(idle) || (!closed && idle == old(idle) + [slot])
      ensures Errors(old(refillErrs), refillErrs, old(lastRefillFail), lastRefillFail, host.now,
                     idle == old(idle) && !closed)
      ensures Used(old(host.procs), host.procs, preload, slot, idle != old(idle))
      ensures Able(host.reliable, template, ctx, host.done) && !closed ==> idle != old(idle)
    {
      if !wasClosed && snap.Some? {
        LoadThenFinish(start, t, slot, snap.value, ctx);
      } else {
        FinishEmpty(start, t, slot, !wasClosed);
      }
    }

    /** The end of a Refill that has nothing to load. */
    method FinishEmpty(ghost start: State, ghost t: nat, slot: Pid, ok: bool)
      requires Valid() && t < |host.threads| && host.threads[t] == (if ok then RPublish(slot) else RKill(slot))
      requires slot < |host.procs| && slot !in idle && Reaches(start, t, World())
      requires Unused(host.procs, template, slot) && (ok <==> !closed) && (ok ==> preload.None?)
      modifies this`idle, this`closeKills, host`procs, host`threads
      ensures Valid() && Reaches(start, t, World())
      ensures host.threads == old(host.threads)[t := Exit]
      ensures idle == (if ok then old(idle) + [slot] else old(idle)) && Used(old(host.procs), host.procs, preload, slot, ok)
    {
      Finish(start, t, slot, ok);
    }

    method LoadThenFinish(ghost start: State, ghost t: nat, slot: Pid, snap: Snapshot, ctx: Option<Ctx>)
      requires Valid() && t < |host.threads| && host.threads[t] == RPrep(ctx, slot, snap) && slot < |host.procs|
      requires slot !in idle && Reaches(start, t, World()) && Unused(host.procs, template, slot)
      requires !closed && preload == Some(snap)
      modifies this`idle, this`refillErrs, this`lastRefillFail, this`closeKills, host`procs, host`threads
      ensures Valid() && Reaches(start, t, World())
      ensures host.threads == old(host.threads)[t := Exit]
      ensures idle == old(idle) || idle == old(idle) + [slot]
      ensures Errors(old(refillErrs), refillErrs, old(lastRefillFail), lastRefillFail, host.now, idle == old(idle))
      ensures Used(old(host.procs), host.procs, preload, slot, idle != old(idle))
      ensures Able(host.reliable, template, ctx, host.done) ==> idle != old(idle)
    {
      var ok := LoadSlot(start, t, slot, snap, ctx);
      Finish(start, t, slot, ok);
    }

    /** The end of a Refill whose slot could be used, or could not. */
    method Finish(ghost start: State, ghost t: nat, slot: Pid, ok: bool)
      requires Valid() && t < |host.threads| && host.threads[t] == (if ok then RPublish(slot) else RKill(slot))
      requires slot < |host.procs| && slot !in idle && Reaches(start, t, World())
      modifies this`idle, this`closeKills, host`procs, host`threads
      ensures Valid() && Reaches(start, t, World())
      ensures host.threads == old(host.threads)[t := Exit]
      ensures idle == (if ok && !closed then old(idle) + [slot] else old(idle))
      ensures host.procs == (if ok && !closed then old(host.procs)
                             else old(host.procs)[slot := Vm.Kill(old(host.procs)[slot])])
    {
      if ok {
        Publish(start, t, slot);
      } else {
        Discard(start, t, slot);
      }
    }

    method SpawnSlot(ghost start: State, ghost t: nat, ctx: Option<Ctx>) returns (slot: Option<Pid>)
      requires Valid() && t < |host.threads| && host.threads[t] == RSpawn(ctx) && Reaches(start, t, World())
      modifies this`refillErrs, this`lastRefillFail, host`procs, host`threads
      ensures Valid() && Reaches(start, t, World())
      ensures host.threads == old(host.threads)[t := if slot.Some? then RCheck(ctx, slot.value) else Exit]
      ensures slot.Some? ==> slot.value == |old(host.procs)| && Unused(host.procs, template, slot.value) &&
                             slot.value !in idle && host.procs == old(host.procs) + [host.procs[slot.value]] &&
                             host.procs[slot.value].ctx == if template.Some? then ctx else None
      ensures slot.None? ==> host.procs == old(host.procs)
      ensures Errors(old(refillErrs), refillErrs, old(lastRefillFail), lastRefillFail, host.now, slot.None?)
      ensures Able(host.reliable, template, ctx, host.done) ==> slot.Some?
    {
      ghost var before := World();
      ghost var pick: nat;
      slot, pick := host.Spawn(template, SlotFiles(template), SlotCtx(template, ctx));
      SpawnIsMadeFrom(template, pick);
      OneMore(start, t, before, slot.Some?, pick);
      if slot.None? {
        RefillFailed();
      }
      host.threads := host.threads[t := if slot.Some? then RCheck(ctx, slot.value) else Exit];
    }

    /** Refill's first critical section: read `preload` and `closed`. */
    method Check(ghost start: State, ghost t: nat, slot: Pid, ghost ctx: Option<Ctx>)
      requires Valid() && t < |host.threads| && host.threads[t] == RCheck(ctx, slot) && Reaches(start, t, World())
      modifies this`closeKills, host`threads
      ensures Valid() && Reaches(start, t, World())
      ensures host.threads == old(host.threads)[t := if closed then RKill(slot)
                                                     else if preload.Some? then RPrep(ctx, slot, preload.value)
                                                     else RPublish(slot)]
    {
      OneMore(start, t, World(), true, 0);
      if closed {
        closeKills := closeKills + 1;
      }
      host.threads := host.threads[t := if closed then RKill(slot)
                                        else if preload.Some? then RPrep(ctx, slot, preload.value) else RPublish(slot)];
    }

    /** Loads the preload snapshot into a spawned slot and flags it. */
    method LoadSlot(ghost start: State, ghost t: nat, slot: Pid, snap: Snapshot, ctx: Option<Ctx>) returns (ok: bool)
      requires Valid() && t < |host.threads| && host.threads[t] == RPrep(ctx, slot, snap) && slot < |host.procs|
      requires Reaches(start, t, World()) && Unused(host.procs, template, slot)
      modifies this`refillErrs, this`lastRefillFail, host`procs, host`threads
      ensures Valid() && Reaches(start, t, World())
      ensures host.threads == old(host.threads)[t := if ok then RPublish(slot) else RKill(slot)]
      ensures |host.procs| == |old(host.procs)| && host.procs == old(host.procs)[slot := host.procs[slot]]
      ensures var q, q' := old(host.procs)[slot], host.procs[slot];
              && q'.ctx == q.ctx && q'.kills == 0 && (q'.chroot.Some? <==> q.chroot.Some?)
              && (ok ==> q'.preloaded && q'.vm == Loaded(snap))
      ensures Errors(old(refillErrs), refillErrs, old(lastRefillFail), lastRefillFail, host.now, !ok)
      ensures Able(host.reliable, template, ctx, host.done) ==> ok
    {
      var inside := PrepNew(start, t, slot, snap, ctx);
      if inside.None? {
        return false;
      }
      ok := LoadAndFlag(start, t, slot, snap, inside.value, ctx);
    }

    /** The load of a prepared slot, and the flag. */
    method LoadAndFlag(ghost start: State, ghost t: nat, slot: Pid, ghost snap: Snapshot, inside: Snapshot,
                       ctx: Option<Ctx>)
      returns (ok: bool)
      requires Valid() && t < |host.threads| && host.threads[t] == RLoad(ctx, slot, inside) && slot < |host.procs|
      requires Reaches(start, t, World())
      requires Vm.Load(host.procs[slot], inside) == Some(host.procs[slot].(vm := Loaded(snap)))
      modifies this`refillErrs, this`lastRefillFail, host`procs, host`threads
      ensures Valid() && Reaches(start, t, World())
      ensures host.threads == old(host.threads)[t := if ok then RPublish(slot) else RKill(slot)]
      ensures host.procs == if ok then
                              old(host.procs)[slot := old(host.procs)[slot].(vm := Loaded(snap), preloaded := true)]
                            else old(host.procs)
      ensures Errors(old(refillErrs), refillErrs, old(lastRefillFail), lastRefillFail, host.now, !ok)
      ensures host.reliable && (ctx.Some? ==> ctx.value !in host.done) ==> ok
    {
      ok := LoadPaths(start, t, slot, inside, ctx);
      if ok {
        Flag(start, t, slot);
      }
    }

    /** snapForSlot for a new slot. */
    method PrepNew(ghost start: State, ghost t: nat, slot: Pid, snap: Snapshot, ghost ctx: Option<Ctx>)
      returns (inside: Option<Snapshot>)
      requires Valid() && t < |host.threads| && host.threads[t] == RPrep(ctx, slot, snap) && slot < |host.procs|
      requires Reaches(start, t, World()) && Unused(host.procs, template, slot)
      modifies this`refillErrs, this`lastRefillFail, host`procs, host`threads
      ensures Valid() && Reaches(start, t, World())
      ensures host.threads == old(host.threads)[t := if inside.Some? then RLoad(ctx, slot, inside.value) else RKill(slot)]
      ensures |host.procs| == |old(host.procs)| && host.procs == old(host.procs)[slot := host.procs[slot]]
      ensures var q, q' := old(host.procs)[slot], host.procs[slot];
              q' == q.(chroot := q'.chroot) && (q'.chroot.Some? <==> q.chroot.Some?)
      ensures inside.Some? ==> Vm.Load(host.procs[slot], inside.value) == Some(host.procs[slot].(vm := Loaded(snap)))
      ensures inside.None? && host.reliable ==> !Fits(template)
      ensures Errors(old(refillErrs), refillErrs, old(lastRefillFail), lastRefillFail, host.now, inside.None?)
    {
      SlotLoads(template, host.procs[slot], snap);
      inside := PrepSlot(start, t, slot, snap, ctx);
    }

    method PrepSlot(ghost start: State, ghost t: nat, slot: Pid, snap: Snapshot, ghost ctx: Option<Ctx>)
      returns (inside: Option<Snapshot>)
      requires Valid() && t < |host.threads| && host.threads[t] == RPrep(ctx, slot, snap) && slot < |host.procs|
      requires Reaches(start, t, World())
      modifies this`refillErrs, this`lastRefillFail, host`procs, host`threads
      ensures Valid() && Reaches(start, t, World()) && |host.procs| == |old(host.procs)|
      ensures host.threads == old(host.threads)[t := if inside.Some? then RLoad(ctx, slot, inside.value) else RKill(slot)]
      ensures if inside.Some? then
                var prepared := Vm.SnapForSlot(old(host.procs)[slot], snap);
                && prepared.Some? && inside == Some(prepared.value.1)
                && host.procs == old(host.procs)[slot := prepared.value.0]
              else host.procs == old(host.procs) && (host.reliable ==> Vm.SnapForSlot(host.procs[slot], snap).None?)
      ensures Errors(old(refillErrs), refillErrs, old(lastRefillFail), lastRefillFail, host.now, inside.None?)
    {
      ghost var before := World();
      inside := host.SnapForSlot(slot, snap);
      OneMore(start, t, before, inside.Some?, 0);
      if inside.None? {
        RefillFailed();
      }
      host.threads := host.threads[t := if inside.Some? then RLoad(ctx, slot, inside.value) else RKill(slot)];
    }

    method LoadPaths(ghost start: State, ghost t: nat, slot: Pid, inside: Snapshot, ctx: Option<Ctx>) returns (ok: bool)
      requires Valid() && t < |host.threads| && host.threads[t] == RLoad(ctx, slot, inside) && slot < |host.procs|
      requires Reaches(start, t, World())
      modifies this`refillErrs, this`lastRefillFail, host`procs, host`threads
      ensures Valid() && Reaches(start, t, World()) && |host.procs| == |old(host.procs)|
      ensures host.threads == old(host.threads)[t := if ok then RFlag(slot) else RKill(slot)]
      ensures var loaded := Vm.Load(old(host.procs)[slot], inside);
              if ok then loaded.Some? && host.procs == old(host.procs)[slot := loaded.value]
              else host.procs == old(host.procs) &&
                   (host.reliable ==> loaded.None? || (ctx.Some? && ctx.value in host.done))
      ensures Errors(old(refillErrs), refillErrs, old(lastRefillFail), lastRefillFail, host.now, !ok)
    {
      ghost var before := World();
      ok := host.Load(slot, inside, ctx);
      OneMore(start, t, before, ok, 0);
      if !ok {
        RefillFailed();
      }
      host.threads := host.threads[t := if ok then RFlag(slot) else RKill(slot)];
    }

    method Flag(ghost start: State, ghost t: nat, slot: Pid)
      requires Valid() && t < |host.threads| && host.threads[t] == RFlag(slot) && slot < |host.procs|
      requires Reaches(start, t, World())
      modifies host`procs, host`threads
      ensures Valid() && Reaches(start, t, World())
      ensures host.procs == old(host.procs)[slot := old(host.procs)[slot].(preloaded := true)]
      ensures host.threads == old(host.threads)[t := RPublish(slot)]
    {
      OneMore(start, t, World(), true, 0);
      host.procs := host.procs[slot := host.procs[slot].(preloaded := true)];
      host.threads := host.threads[t := RPublish(slot)];
    }

    /** Refill's last critical section: publish the slot, or kill it in a closed pool. */
    method Publish(ghost start: State, ghost t: nat, slot: Pid)
      requires Valid() && t < |host.threads| && host.threads[t] == RPublish(slot) && slot < |host.procs|
      requires slot !in idle && Reaches(start, t, World())
      modifies this`idle, this`closeKills, host`procs, host`threads
      ensures Valid() && Reaches(start, t, World())
      ensures idle == (if closed then old(idle) else old(idle) + [slot])
      ensures host.procs == (if closed then old(host.procs)[slot := Vm.Kill(old(host.procs)[slot])] else old(host.procs))
      ensures host.threads == old(host.threads)[t := Exit]
    {
      ghost var before := World();
      if !closed {
        Append(t, slot);
      } else {
        Reject(t, slot);
      }
      OneStepMore(start, t, before, World());
    }

    method Append(ghost t: nat, slot: Pid)
      requires Valid() && t < |host.threads| && host.threads[t] == RPublish(slot) && slot < |host.procs|
      requires slot !in idle && !closed
      modifies this`idle, host`threads
      ensures Valid() && Stepped(old(World()), t, World()) && idle == old(idle) + [slot]
      ensures host.threads == old(host.threads)[t := Exit]
    {
      ghost var after := StepThread(World(), t, true, 0);
      idle := idle + [slot];
      host.threads := host.threads[t := Exit];
      assert World() == after;
    }

    method Reject(ghost t: nat, slot: Pid)
      requires Valid() && t < |host.threads| && host.threads[t] == RPublish(slot) && slot < |host.procs| && closed
      modifies this`closeKills, host`procs, host`threads
      ensures Valid() && Stepped(old(World()), t, World())
      ensures host.procs == old(host.procs)[slot := Vm.Kill(old(host.procs)[slot])]
      ensures host.threads == old(host.threads)[t := Exit]
    {
      ghost var after := StepThread(World(), t, true, 0);
      closeKills := closeKills + 1;
      host.Kill(slot);
      host.threads := host.threads[t := Exit];
      assert World() == after;
    }

    /** Kills a slot that will not be published. */
    method Discard(ghost start: State, ghost t: nat, slot: Pid)
      requires Valid() && t < |host.threads| && host.threads[t] == RKill(slot) && slot < |host.procs|
      requires Reaches(start, t, World())
      modifies host`procs, host`threads
      ensures Valid() && Reaches(start, t, World())
      ensures host.procs == old(host.procs)[slot := Vm.Kill(old(host.procs)[slot])]
      ensures host.threads == old(host.threads)[t := Exit]
    {
      OneMore(start, t, World(), true, 0);
      host.Kill(slot);
      host.threads := host.threads[t := Exit];
    }

    /** Close: each idle slot is killed once, the pool is empty and stays closed. */
    method Close()
      requires Valid()
      modifies this`closed, this`idle, this`closeKills, host`procs
      ensures Valid() && World() == CloseIdle(old(World())) && closed && idle == []
      ensures |host.procs| == |old(host.procs)| && forall p | 0 <= p < |host.procs| ::
                if p in old(idle) then
                  host.procs[p] == old(host.procs)[p].(vm := Dead, kills := old(host.procs)[p].kills + 1)
                else host.procs[p] == old(host.procs)[p]
    {
      KilledOnce(host.procs, idle);
      CloseAll();
    }

    method CloseAll()
      requires Valid()
      modifies this`closed, this`idle, this`closeKills, host`procs
      ensures Valid() && World() == CloseIdle(old(World())) && closed && idle == []
      ensures host.procs == Kills(old(host.procs), old(idle))
    {
      KillsIsCloseIdle(World());
      closed := true;
      KillIdle();
      closeKills, idle := closeKills + |idle|, [];
    }

    method KillIdle()
      requires Valid()
      modifies host`procs
      ensures host.procs == Kills(old(host.procs), idle)
    {
      ghost var before := host.procs;
      for i := 0 to |idle|
        invariant host.procs == Kills(before, idle[..i])
      {
        assert idle[..i + 1] == idle[..i] + [idle[i]];
        KillsMore(before, idle[..i], idle[i]);
        host.Kill(idle[i]);
      }
      assert idle[..|idle|] == idle;
    }

    /** Preload, one idle slot after the other: whether it failed. */
    method Preload(snap: Snapshot, ctx: Option<Ctx>) returns (err: bool)
      requires Valid()
      modifies this`preload, host`procs
      ensures Valid() && |host.procs| == |old(host.procs)|
      ensures if snap.mem == "" || snap.state == "" || (old(preload).Some? && old(preload) != Some(snap))
              then err && World() == old(World())
              else preload == Some(snap) &&
                   (!err <==> forall k | 0 <= k < |idle| ::
                                  LoadedFrom(old(host.procs)[idle[k]], host.procs[idle[k]], snap))
      ensures forall k | 0 <= k < |idle| :: LoadedFrom(old(host.procs)[idle[k]], host.procs[idle[k]], snap) ||
                                            NotLoaded(old(host.procs)[idle[k]], host.procs[idle[k]])
      ensures forall p | 0 <= p < |host.procs| && p !in idle :: host.procs[p] == old(host.procs)[p]
      ensures host.reliable && (ctx.Some? ==> ctx.value !in host.done) && snap.mem != "" && snap.state != "" &&
              (old(preload).None? || old(preload) == Some(snap)) ==>
                ((forall k | 0 <= k < |idle| :: Takes(old(host.procs)[idle[k]], snap)) ==> !err)
    {
      err := true;
      if snap.mem == "" || snap.state == "" {
        return;
      }
      if preload.Some? && (preload.value.mem != snap.mem || preload.value.state != snap.state) {
        return;
      }
      preload := Some(snap);
      err := PreloadIdle(snap, ctx);
    }

    /** Preload's loads, one idle slot after the other. */
    method PreloadIdle(snap: Snapshot, ctx: Option<Ctx>) returns (err: bool)
      requires Valid()
      modifies host`procs
      ensures Valid() && |host.procs| == |old(host.procs)|
      ensures !err <==> forall k | 0 <= k < |idle| :: LoadedFrom(old(host.procs)[idle[k]], host.procs[idle[k]], snap)
      ensures forall k | 0 <= k < |idle| :: LoadedFrom(old(host.procs)[idle[k]], host.procs[idle[k]], snap) ||
                                            NotLoaded(old(host.procs)[idle[k]], host.procs[idle[k]])
      ensures forall p | 0 <= p < |host.procs| && p !in idle :: host.procs[p] == old(host.procs)[p]
      ensures host.reliable && (ctx.Some? ==> ctx.value !in host.done) ==>
                ((forall k | 0 <= k < |idle| :: Takes(old(host.procs)[idle[k]], snap)) ==> !err)
    {
      ghost var before := host.procs;
      err := false;
      for i := 0 to |idle|
        invariant |host.procs| == |before|
        invariant forall k | 0 <= k < i :: LoadedFrom(before[idle[k]], host.procs[idle[k]], snap) ||
                                           NotLoaded(before[idle[k]], host.procs[idle[k]])
        invariant !err <==> forall k | 0 <= k < i :: LoadedFrom(before[idle[k]], host.procs[idle[k]], snap)
        invariant forall p | 0 <= p < |before| && p !in idle[..i] :: host.procs[p] == before[p]
        invariant host.reliable && (ctx.Some? ==> ctx.value !in host.done) ==>
                    ((forall k | 0 <= k < i :: Takes(before[idle[k]], snap)) ==> !err)
        modifies host`procs
      {
        assert idle[i] !in idle[..i];
        var ok := PreloadSlot(idle[i], snap, ctx);
        err := err || !ok;
      }
    }

    /** What Preload does to one slot. */
    method PreloadSlot(slot: Pid, snap: Snapshot, ctx: Option<Ctx>) returns (ok: bool)
      requires slot < |host.procs|
      modifies host`procs
      ensures |host.procs| == |old(host.procs)| && host.procs == old(host.procs)[slot := host.procs[slot]]
      ensures if ok then LoadedFrom(old(host.procs)[slot], host.procs[slot], snap)
              else NotLoaded(old(host.procs)[slot], host.procs[slot])
      ensures host.reliable && (ctx.Some? ==> ctx.value !in host.done) && Takes(old(host.procs)[slot], snap) ==> ok
    {
      ghost var before := host.procs[slot];
      var inside := host.SnapForSlot(slot, snap);
      if inside.None? {
        return false;
      }
      if before.vm.Empty? {
        SlotPathsResolveToHost(before, snap, false);
      }
      ok := host.Load(slot, inside.value, ctx);
      if ok {
        host.procs := host.procs[slot := host.procs[slot].(preloaded := true)];
      }
    }
  }

  /** An unloaded slot with `snap` linked into its chroot and loaded, and the flag set. */
  ghost predicate LoadedFrom(before: Process, after: Process, snap: Snapshot) {
    && before.vm.Empty? && Vm.SnapForSlot(before, snap).Some?
    && after == Vm.SnapForSlot(before, snap).value.0.(vm := Loaded(snap), preloaded := true)
  }

  /** A slot that a load of `snap` can succeed on. */
  ghost predicate Takes(slot: Process, snap: Snapshot) {
    slot.vm.Empty? && Vm.SnapForSlot(slot, snap).Some?
  }

  /** At most the chroot has changed. */
  ghost predicate NotLoaded(before: Process, after: Process) {
    after == before.(chroot := after.chroot)
  }

  /** One kill for each entry of `ids`. */
  ghost function Kills(procs: seq<Process>, ids: seq<Pid>): (r: seq<Process>)
    ensures |r| == |procs|
  {
    if ids == [] then procs
    else
      var r := Kills(procs, ids[..|ids| - 1]);
      var p := ids[|ids| - 1];
      if p < |r| then r[p := Vm.Kill(r[p])] else r
  }

  lemma {:induction false} KillsCounts(procs: seq<Process>, ids: seq<Pid>)
    ensures forall p | 0 <= p < |procs| ::
              Kills(procs, ids)[p] == if p in ids then procs[p].(vm := Dead, kills := procs[p].kills + multiset(ids)[p])
                                      else procs[p]
  {
    if ids != [] {
      var last := |ids| - 1;
      KillsCounts(procs, ids[..last]);
      assert ids == ids[..last] + [ids[last]];
    }
  }

  lemma KilledOnce(procs: seq<Process>, ids: seq<Pid>)
    requires forall i, j | 0 <= i < j < |ids| :: ids[i] != ids[j]
    ensures forall p | 0 <= p < |procs| ::
              var q := Kills(procs, ids)[p];
              if p in ids then q == procs[p].(vm := Dead, kills := procs[p].kills + 1) else q == procs[p]
  {
    KillsCounts(procs, ids);
    forall p | p in ids ensures multiset(ids)[p] == 1 { OnceListed(ids, p); }
  }

  lemma {:induction false} OnceListed(ids: seq<Pid>, p: Pid)
    requires p in ids && forall i, j | 0 <= i < j < |ids| :: ids[i] != ids[j]
    ensures multiset(ids)[p] == 1
  {
    var last := |ids| - 1;
    assert ids == ids[..last] + [ids[last]];
    if ids[last] != p { OnceListed(ids[..last], p); }
  }

  lemma KillsMore(procs: seq<Process>, ids: seq<Pid>, p: Pid)
    requires p < |procs|
    ensures Kills(procs, ids + [p]) == Kills(procs, ids)[p := Vm.Kill(Kills(procs, ids)[p])]
  {
    assert (ids + [p])[..|ids|] == ids;
  }

  lemma KillsIsCloseIdle(s: State)
    ensures CloseIdle(s) == s.(procs := Kills(s.procs, s.warm.idle), warm := s.warm.(closed := true, idle := [],
                               closeKills := s.warm.closeKills + |s.warm.idle|))
  {
    KillsCounts(s.procs, s.warm.idle);
    var killed := Kills(s.procs, s.warm.idle);
    forall p | 0 <= p < |s.procs| ensures CloseIdle(s).procs[p] == killed[p] {}
    assert CloseIdle(s).procs == killed;
  }

  /** NewWarmPool on a host that runs nothing yet: every slot, or none and every
      process it spawned killed once. */
  method NewWarmPool(host: Host, size: int, template: Option<Jailer>, ctx: Option<Ctx>)
    returns (r: Option<WarmPool>)
    requires host.procs == [] && host.threads == [] && host.live == map[]
    modifies host`procs
    ensures match r
            case Some(p) => fresh(p) && p.host == host && p.size == size && p.template == template && p.preload == None
                            && p.Valid() && Init(p.World())
            case None => forall q <- host.procs :: q.vm == Dead && q.kills == 1
    ensures size < 1 ==> r.None? && host.procs == []
    ensures forall q <- host.procs :: q.ctx == if template.Some? then ctx else None
    ensures host.reliable && size >= 1 && SlotsCanStart(template, ctx, host.done) ==> r.Some?
  {
    if size < 1 {
      return None;
    }
    var p: WarmPool := new WarmPool.Fresh(host, size, template);
    var results := SpawnAll(host, size, template, ctx);
    var firstErr: Option<nat> := None;
    for i := 0 to size
      invariant firstErr.None? ==> forall k | 0 <= k < i :: results[k].Some?
      invariant firstErr.Some? ==> firstErr.value < i && results[firstErr.value].None?
    {
      if results[i].None? && firstErr.None? {
        firstErr := Some(i);
      }
    }
    if firstErr.Some? {
      KillSpawned(host, results, if template.Some? then ctx else None);
      return None;
    }
    assert forall k | 0 <= k < size :: results[k].Some?;
    r := Some(p);
    PublishAll(p, results, if template.Some? then ctx else None);
  }

  /** The constructor's critical section: all slots become idle. */
  method PublishAll(p: WarmPool, results: seq<Option<Pid>>, ghost bound: Option<Ctx>)
    requires p.View() == WarmState(p.size, p.template, None, [], false, 0, 0, 0, 0, 0, 0, 0)
    requires p.size == |results| > 0 && (forall slot <- results :: slot.Some?) && Iota(Slots(results), |p.host.procs|)
    requires forall q <- p.host.procs :: NewSlot(p.template, q, bound)
    requires Open(p.host.done, bound) && (p.template.None? ==> bound.None?)
    requires p.host.threads == [] && p.host.live == map[]
    modifies p`idle
    ensures p.Valid() && Init(p.World())
  {
    AllSlots(results);
    assert results[..0] == [];
    for i := 0 to |results|
      invariant p.View() == WarmState(p.size, p.template, None, Slots(results[..i]), false, 0, 0, 0, 0, 0, 0, 0)
      modifies p`idle
    {
      assert results[..i + 1][..i] == results[..i];
      p.idle := p.idle + [results[i].value];
    }
    assert results[..|results|] == results;
    assert p.idle == seq(p.size, i => i);
    forall q | q in p.host.procs ensures IdleReady(q, p.View(), p.host.done) && q.ctx == bound {
      assert NewSlot(p.template, q, bound);
    }
  }

  /** A slot can be spawned: always without a jail, otherwise while the context is not
      done and if the jailer's files can be linked. */
  ghost predicate SlotsCanStart(template: Option<Jailer>, ctx: Option<Ctx>, done: set<Ctx>) {
    template.Some? ==>
      var root := Root(template.value.base);
      (ctx.Some? ==> ctx.value !in done) && Flat(root, Targets(root, template.value.extras.Keys))
  }

  /** The numbers below `n`, in order. */
  predicate Iota(ids: seq<Pid>, n: nat) {
    |ids| == n && forall k | 0 <= k < n :: ids[k] == k
  }

  /** The spawning goroutines, in the order in which their results arrive. */
  method SpawnAll(host: Host, size: nat, template: Option<Jailer>, ctx: Option<Ctx>)
    returns (results: seq<Option<Pid>>)
    requires host.procs == []
    modifies host`procs
    ensures |results| == size && Iota(Slots(results), |host.procs|)
    ensures forall q <- host.procs :: NewSlot(template, q, if template.Some? then ctx else None)
    ensures host.procs != [] ==> Open(host.done, if template.Some? then ctx else None)
    ensures host.reliable && SlotsCanStart(template, ctx, host.done) ==> forall slot <- results :: slot.Some?
  {
    results := [];
    for i := 0 to size
      invariant |results| == i && Iota(Slots(results), |host.procs|)
      invariant forall q <- host.procs :: NewSlot(template, q, if template.Some? then ctx else None)
      invariant host.procs != [] ==> Open(host.done, if template.Some? then ctx else None)
      invariant host.reliable && SlotsCanStart(template, ctx, host.done) ==> forall slot <- results :: slot.Some?
    {
      var slot := SpawnNew(host, template, ctx);
      assert (results + [slot])[..i] == results;
      results := results + [slot];
      assert slot.Some? ==> host.procs == host.procs[..slot.value] + [host.procs[slot.value]];
    }
  }

  ghost predicate NewSlot(template: Option<Jailer>, q: Process, ctx: Option<Ctx>) {
    q == Spawned(q.chroot, ctx) && MadeFrom(template, q.chroot)
  }

  /** spawnSlot */
  method SpawnNew(host: Host, template: Option<Jailer>, ctx: Option<Ctx>) returns (slot: Option<Pid>)
    modifies host`procs
    ensures slot.None? ==> host.procs == old(host.procs)
    ensures slot.Some? ==> slot.value == |old(host.procs)| && |host.procs| == slot.value + 1 &&
                           host.procs[..slot.value] == old(host.procs) &&
                           Open(host.done, if template.Some? then ctx else None) &&
                           NewSlot(template, host.procs[slot.value], if template.Some? then ctx else None)
    ensures host.reliable && SlotsCanStart(template, ctx, host.done) ==> slot.Some?
  {
    ghost var pick: nat;
    slot, pick := host.Spawn(template, SlotFiles(template), SlotCtx(template, ctx));
    SpawnIsMadeFrom(template, pick);
    PrepareIff(template, SlotFiles(template), pick);
  }

  /** The slots among the results of spawning, in order of arrival. */
  function Slots(results: seq<Option<Pid>>): seq<Pid> {
    if results == [] then []
    else
      var last := results[|results| - 1];
      Slots(results[..|results| - 1]) + if last.Some? then [last.value] else []
  }

  lemma {:induction false} AllSlots(results: seq<Option<Pid>>)
    requires forall k | 0 <= k < |results| :: results[k].Some?
    ensures |Slots(results)| == |results|
  {
    if results != [] {
      AllSlots(results[..|results| - 1]);
    }
  }

  lemma {:induction false} SlotIsListed(results: seq<Option<Pid>>, i: nat)
    requires i < |results| && results[i].Some?
    ensures results[i].value in Slots(results)
  {
    if i < |results| - 1 {
      SlotIsListed(results[..|results| - 1], i);
    }
  }

  /** Every spawned slot of a constructor that failed is killed. */
  method KillSpawned(host: Host, results: seq<Option<Pid>>, ghost bound: Option<Ctx>)
    requires Iota(Slots(results), |host.procs|)
    requires forall q <- host.procs :: q.kills == 0 && q.ctx == bound
    modifies host`procs
    ensures forall q <- host.procs :: q.vm == Dead && q.kills == 1 && q.ctx == bound
  {
    ghost var before := host.procs;
    for i := 0 to |results|
      invariant host.procs == Kills(before, Slots(results[..i]))
    {
      assert results[..i + 1][..i] == results[..i];
      if results[i].Some? {
        SlotIsListed(results, i);
        KillsMore(before, Slots(results[..i]), results[i].value);
        host.Kill(results[i].value);
      } else {
        assert Slots(results[..i]) + [] == Slots(results[..i]);
      }
    }
    assert results[..|results|] == results;
    KillsCounts(before, Slots(results));
    forall p | 0 <= p < |before|
      ensures host.procs[p].vm == Dead && host.procs[p].kills == 1 && host.procs[p].ctx == bound
    {
      PoolOwnership.IotaOnce(|before|, p);
      assert Slots(results) == seq(|before|, i => i);
      assert Slots(results)[p] == p && before[p] in before;
    }
  }

  /** NewUltraWarmPool: every slot loaded from `snap` and flagged, or no pool and every
      process killed once. */
  method NewUltraWarmPool(host: Host, size: int, template: Option<Jailer>, snap: Snapshot,
                          ctx: Option<Ctx>)
    returns (r: Option<WarmPool>)
    requires host.procs == [] && host.threads == [] && host.live == map[]
    modifies host`procs
    ensures match r
            case Some(p) => fresh(p) && p.host == host && p.size == size && p.template == template
                            && p.preload == Some(snap) && p.Valid() && Init(p.World())
            case None => forall q <- host.procs :: q.vm == Dead && q.kills == 1
    ensures forall q <- host.procs :: q.ctx == if template.Some? then ctx else None
    ensures size >= 1 && snap.mem != "" && snap.state != "" && Able(host.reliable, template, ctx, host.done) ==> r.Some?
  {
    FittingSlotsCanStart(template, ctx, host.done);
    r := NewWarmPool(host, size, template, ctx);
    if r.Some? {
      var err := PreloadNew(r.value, snap, ctx);
      r := if err then None else r;
    }
  }

  lemma FittingSlotsCanStart(template: Option<Jailer>, ctx: Option<Ctx>, done: set<Ctx>)
    ensures Fits(template) && (ctx.Some? ==> ctx.value !in done) ==> SlotsCanStart(template, ctx, done)
  {
    if template.Some? && Fits(template) {
      var root, extras := Root(template.value.base), template.value.extras.Keys;
      FlatLess(root, Targets(root, extras), Targets(root, extras + {MEM_FILE, STATE_FILE}));
    }
  }

  /** Preload on a new pool, which is closed if that fails. */
  method PreloadNew(p: WarmPool, snap: Snapshot, ctx: Option<Ctx>) returns (err: bool)
    requires p.Valid() && Init(p.World()) && p.preload.None?
    modifies p`preload, p`closed, p`idle, p`closeKills, p.host`procs
    ensures p.Valid() && |p.host.procs| == |old(p.host.procs)|
    ensures !err ==> p.preload == Some(snap) && Init(p.World())
    ensures err ==> forall q <- p.host.procs :: q.vm == Dead && q.kills == 1
    ensures forall k | 0 <= k < |p.host.procs| :: p.host.procs[k].ctx == old(p.host.procs)[k].ctx
    ensures snap.mem != "" && snap.state != "" && Able(p.host.reliable, p.template, ctx, p.host.done) ==> !err
  {
    ghost var made := p.World();
    NewSlotsTake(made, snap);
    err := TryPreload(p, snap, ctx);
    if err {
      CloseNew(p);
    }
  }

  method TryPreload(p: WarmPool, snap: Snapshot, ctx: Option<Ctx>) returns (err: bool)
    requires p.Valid() && Init(p.World()) && p.preload.None?
    modifies p`preload, p.host`procs
    ensures p.Valid() && |p.host.procs| == |old(p.host.procs)|
    ensures !err ==> p.preload == Some(snap) && Init(p.World())
    ensures forall k | 0 <= k < |p.host.procs| ::
              p.host.procs[k].ctx == old(p.host.procs)[k].ctx && p.host.procs[k].kills == 0
    ensures snap.mem != "" && snap.state != "" && p.host.reliable && (ctx.Some? ==> ctx.value !in p.host.done) ==>
              ((forall k | 0 <= k < |p.idle| :: Takes(old(p.host.procs)[p.idle[k]], snap)) ==> !err)
  {
    ghost var made := p.World();
    err := p.Preload(snap, ctx);
    if snap.mem != "" && snap.state != "" {
      PreloadedInit(made, p.World(), snap);
    }
    ContextsStay(made, p.World(), snap);
  }

  method CloseNew(p: WarmPool)
    requires p.Valid() && p.idle == seq(|p.host.procs|, k => k) && forall q <- p.host.procs :: q.kills == 0
    modifies p`closed, p`idle, p`closeKills, p.host`procs
    ensures p.Valid() && |p.host.procs| == |old(p.host.procs)|
    ensures forall k | 0 <= k < |p.host.procs| ::
              && p.host.procs[k].vm == Dead && p.host.procs[k].kills == 1
              && p.host.procs[k].ctx == old(p.host.procs)[k].ctx
  {
    ghost var before := p.host.procs;
    p.Close();
    forall k | 0 <= k < |before|
      ensures p.host.procs[k] == before[k].(vm := Dead, kills := 1)
    {
      assert seq(|before|, k => k)[k] == k && before[k] in before;
    }
  }

  lemma NewSlotsTake(s: State, snap: Snapshot)
    requires Init(s) && s.warm.preload.None?
    ensures Fits(s.warm.template) ==> forall k | 0 <= k < |s.warm.idle| :: Takes(s.procs[s.warm.idle[k]], snap)
  {
    forall k | 0 <= k < |s.warm.idle| ensures Fits(s.warm.template) ==> Takes(s.procs[s.warm.idle[k]], snap) {
      assert s.procs[k] in s.procs;
      SlotLoads(s.warm.template, s.procs[k], snap);
    }
  }

  lemma ContextsStay(s: State, r: State, snap: Snapshot)
    requires |r.procs| == |s.procs| && s.warm.idle == seq(|s.procs|, i => i)
    requires forall k | 0 <= k < |s.warm.idle| :: LoadedFrom(s.procs[s.warm.idle[k]], r.procs[s.warm.idle[k]], snap) ||
                                                  NotLoaded(s.procs[s.warm.idle[k]], r.procs[s.warm.idle[k]])
    ensures forall k | 0 <= k < |r.procs| :: r.procs[k].ctx == s.procs[k].ctx && r.procs[k].kills == s.procs[k].kills
  {
    forall k | 0 <= k < |r.procs| ensures r.procs[k].ctx == s.procs[k].ctx && r.procs[k].kills == s.procs[k].kills {
      assert s.warm.idle[k] == k;
    }
  }

  /** Preload on every slot of a new pool leaves a new ultra-warm pool. */
  lemma PreloadedInit(s: State, r: State, snap: Snapshot)
    requires Init(s) && s.warm.preload.None? && |r.procs| == |s.procs|
    requires r == s.(procs := r.procs, warm := s.warm.(preload := Some(snap)))
    requires forall k | 0 <= k < |s.warm.idle| :: LoadedFrom(s.procs[s.warm.idle[k]], r.procs[s.warm.idle[k]], snap) ||
                                                  NotLoaded(s.procs[s.warm.idle[k]], r.procs[s.warm.idle[k]])
    ensures forall q <- r.procs :: q.kills == 0
    ensures (forall k | 0 <= k < |s.warm.idle| :: LoadedFrom(s.procs[s.warm.idle[k]], r.procs[s.warm.idle[k]], snap)) ==>
            Init(r)
  {
    forall k | 0 <= k < |r.procs|
      ensures s.warm.idle[k] == k && r.procs[k].kills == 0 && r.procs[k].ctx == s.procs[k].ctx
      ensures LoadedFrom(s.procs[k], r.procs[k], snap) ==> IdleReady(r.procs[k], r.warm, r.done)
    {
      assert s.procs[k] in s.procs;
      SlotIsReady(s.procs[k], r.procs[k], s.warm, s.done, snap);
    }
  }

  lemma SlotIsReady(before: Process, after: Process, warm: WarmState, done: set<Ctx>, snap: Snapshot)
    requires IdleReady(before, warm, done) && warm.preload.None?
    ensures LoadedFrom(before, after, snap) ==> IdleReady(after, warm.(preload := Some(snap)), done)
  {
    SlotTakesIffFits(warm.template, before, snap);
  }
}
