/** Pool as the code holds it: the map of live forks, filled by Fork and emptied by
    Release and Shutdown. Every method's effect is a run of the step machine, so the
    theorems over all runs hold of the heap. */
module ForkPools {
  import opened Wrappers
  import opened Jails
  import opened Vm
  import opened PoolMachine
  import opened WarmPools
  import PoolForks
  import PoolOwnership
  import PoolSnapshots
  import PoolLedger

  /** Result, reduced to its identity and its error. */
  datatype Result = Forked(p: Pid) | Failed

  datatype ForkError = NoError | BadRequest | ContextDone

  ghost predicate Distinct(out: seq<Result>) {
    forall i, j | 0 <= i < j < |out| && out[i].Forked? && out[j].Forked? :: out[i] != out[j]
  }

  /** What is left of a goroutine of Fork once it is done. */
  ghost predicate Ended(pc: Pc, req: Request, r: Result) {
    match r
    case Forked(p) => pc == FDone(LiveFork(req, true), p) || pc == FDone(LiveFork(req, false), p)
    case Failed => pc == FFailed
  }

  /** Some run of the machine leads from `s` to `r`. */
  ghost predicate Runs(s: State, r: State) {
    exists es :: Exec(s, es) == r
  }

  /** A state some run from a constructor reaches. */
  ghost predicate Reachable(s: State) {
    exists s0 :: Init(s0) && Runs(s0, s)
  }

  lemma OneRuns(s: State, e: Event, r: State)
    requires Apply(s, e) == r
    ensures Runs(s, r)
  {
    assert [e][..0] == [];
    assert Exec(s, [e]) == r;
  }

  lemma RunsCompose(s: State, mid: State, r: State)
    requires Runs(s, mid) && Runs(mid, r)
    ensures Runs(s, r)
  {
    var es :| Exec(s, es) == mid;
    var fs :| Exec(mid, fs) == r;
    PoolForks.ExecAppend(s, es, fs);
  }

  lemma RunsOn(s: State, mid: State, t: nat, r: State)
    requires Runs(s, mid) && Reaches(mid, t, r)
    ensures Runs(s, r)
  {
    var es :| OnlySteps(es, t) && Exec(mid, es) == r;
    RunsCompose(s, mid, r);
  }

  lemma ReachableOn(s: State, r: State)
    requires Reachable(s) && Runs(s, r)
    ensures Reachable(r)
  {
    var s0 :| Init(s0) && Runs(s0, s);
    RunsCompose(s0, s, r);
  }

  /** What one goroutine does to a reachable state leaves a reachable state: every
      method below keeps its pool within the runs the theorems speak of. */
  lemma StaysReachable(s: State, t: nat, r: State)
    requires Reaches(s, t, r)
    ensures Reachable(s) ==> Reachable(r)
  {
    if Reachable(s) {
      var s0 :| Init(s0) && Runs(s0, s);
      RunsOn(s0, s, t, r);
    }
  }

  /** What Fork hands out in one call are different processes. */
  lemma ForksAreDistinct(r: State, req: Request, n: nat, out: seq<Result>)
    requires Reachable(r) && Progress(r.threads, n, req, out, |out|)
    ensures Distinct(out)
  {
    var s0 :| Init(s0) && Runs(s0, r);
    var es :| Exec(s0, es) == r;
    ForksOfARunAreDistinct(s0, es, req, n, out);
  }

  lemma ForksOfARunAreDistinct(s: State, es: seq<Event>, req: Request, n: nat, out: seq<Result>)
    requires Init(s) && Progress(Exec(s, es).threads, n, req, out, |out|)
    ensures Distinct(out)
  {
    forall i, j | 0 <= i < j < |out| && out[i].Forked? && out[j].Forked? ensures out[i] != out[j] {
      TwoForksDiffer(s, es, req, n + i, n + j, out[i], out[j]);
    }
  }

  lemma TwoForksDiffer(s: State, es: seq<Event>, req: Request, i: nat, j: nat, a: Result, b: Result)
    requires Init(s) && i != j && i < |Exec(s, es).threads| && j < |Exec(s, es).threads| && a.Forked? && b.Forked?
    requires Ended(Exec(s, es).threads[i], req, a) && Ended(Exec(s, es).threads[j], req, b)
    ensures a != b
  {
    PoolLedger.SuccessesAreDistinct(s, es, i, j, a.p);
  }

  lemma TeardownStep(s: State, t: nat, ok: bool, p: Pid, claimed: set<Pid>, todo: set<Pid>, stopped: nat, failed: nat,
                     close: bool)
    requires t < |s.threads| && s.threads[t] == SKill(claimed, todo, stopped, failed, close) && p in todo
    ensures StepThread(s, t, ok, p) ==
            Become(KillProc(s, p), t, SKill(claimed, todo - {p}, if ok then stopped + 1 else stopped,
                                            if ok then failed else failed + 1, close))
  {
  }

  /** The goroutines of a Fork from index `n` on: the first |done| have ended with the
      results `done`, the rest have not begun. */
  ghost predicate Progress(threads: seq<Pc>, n: nat, req: Request, done: seq<Result>, count: nat) {
    && n + count <= |threads| && |done| <= count
    && (forall k | 0 <= k < |done| :: Ended(threads[n + k], req, done[k]))
    && forall k | n + |done| <= k < n + count :: threads[k] == FStart(req)
  }

  lemma MoreProgress(before: seq<Pc>, after: seq<Pc>, n: nat, req: Request, done: seq<Result>, r: Result, count: nat)
    requires Progress(before, n, req, done, count) && |done| < count
    requires OnlyMoved(before, n + |done|, after) && Ended(after[n + |done|], req, r)
    ensures Progress(after, n, req, done + [r], count)
  {
  }

  /** The live map after a Fork call: what was there, and exactly the forks it returned. */
  predicate Joined(before: map<Pid, LiveFork>, after: map<Pid, LiveFork>, req: Request, out: seq<Result>) {
    && (forall id <- after :: id in before || Forked(id) in out)
    && (forall id <- before :: id in after)
    && forall i | 0 <= i < |out| && out[i].Forked? :: out[i].p in after && after[out[i].p].req == req
  }

  lemma JoinedMore(before: map<Pid, LiveFork>, mid: map<Pid, LiveFork>, after: map<Pid, LiveFork>, req: Request,
                   out: seq<Result>, r: Result)
    requires Joined(before, mid, req, out)
    requires r.Failed? ==> after == mid
    requires r.Forked? ==> r.p in after && after[r.p].req == req && after == mid[r.p := after[r.p]]
    ensures Joined(before, after, req, out + [r])
  {
    assert r.Forked? ==> (out + [r])[|out|] == Forked(r.p);
  }

  /** The processes in `forks` and those in `idle` have been killed, once for each. */
  predicate TornDown(before: seq<Process>, after: seq<Process>, forks: set<Pid>, idle: seq<Pid>) {
    |after| == |before| && forall p | 0 <= p < |after| ::
      && (p in forks || p in idle ==> after[p].vm.Dead?) && (p !in forks && p !in idle ==> after[p] == before[p])
      && after[p].kills == before[p].kills + (if p in forks then 1 else 0) + (if p in idle then 1 else 0)
  }

  lemma NothingTorn(procs: seq<Process>)
    ensures TornDown(procs, procs, {}, [])
  {
  }

  lemma OneMoreTorn(before: seq<Process>, mid: seq<Process>, forks: set<Pid>, p: Pid)
    requires TornDown(before, mid, forks, []) && p !in forks && p < |mid|
    ensures TornDown(before, mid[p := Vm.Kill(mid[p])], forks + {p}, [])
  {
  }

  /** A slot that a fork of `snap` can run on. */
  ghost predicate Restorable(q: Process, snap: Snapshot) {
    if q.preloaded then q.vm.Loaded? else q.vm.Empty? && Vm.SnapForSlot(q, snap).Some?
  }

  /** The slot `q` has become a fork: it runs what it had loaded, or `snap`. */
  predicate Restored(q: Process, q': Process, snap: Snapshot) {
    && q'.kills == q.kills && q'.ctx == q.ctx && (q.preloaded ==> q.vm.Loaded?)
    && q'.vm == Running(if q.preloaded && q.vm.Loaded? then q.vm.snap else snap)
  }

  /** What Choose does to a slot: prepared if it is to be loaded, otherwise as it was; on a
      reliable host it gives up only on a slot that cannot be prepared. */
  ghost predicate Chosen(before: seq<Process>, after: seq<Process>, slot: Pid, snap: Snapshot, c: Choice, reliable: bool)
    requires slot < |before|
  {
    var prepared := Vm.SnapForSlot(before[slot], snap);
    match c
    case Ready => after == before
    case Bad => after == before && (reliable ==> prepared.None?)
    case Use(paths) => prepared.Some? && paths == prepared.value.1 && after == before[slot := prepared.value.0]
  }

  lemma SlotRuns(q: Process, snap: Snapshot)
    ensures !q.preloaded && q.vm.Empty? && Vm.SnapForSlot(q, snap).Some? ==>
              var (prepared, inside) := Vm.SnapForSlot(q, snap).value;
              Vm.Load(prepared, inside) == Some(prepared.(vm := Loaded(snap))) && prepared == q.(chroot := prepared.chroot)
    ensures Vm.SnapForSlot(q, snap).Some? && !q.vm.Empty? ==>
              var (prepared, inside) := Vm.SnapForSlot(q, snap).value; Vm.Load(prepared, inside).None?
  {
    if q.vm.Empty? && Vm.SnapForSlot(q, snap).Some? { SlotPathsResolveToHost(q, snap, true); }
  }

  /** A process that has been resumed, or not. */
  predicate WokenUp(before: seq<Process>, after: seq<Process>, p: Pid, ok: bool)
    requires p < |before|
  {
    if ok then before[p].vm.Loaded? && after == before[p := before[p].(vm := Running(before[p].vm.snap))]
    else after == before
  }

  /** A process just spawned for a cold fork of `req`. */
  ghost predicate ToLoad(q: Process, req: Request) {
    q.vm.Empty? && q.kills == 0 && q.ctx == req.ctx && PoolSnapshots.Linked(req, q.chroot)
  }

  lemma ColdLoads(q: Process, req: Request)
    requires ToLoad(q, req)
    ensures var loaded := Vm.Load(q, ColdPaths(req));
            && loaded.Some? && loaded.value.vm.Loaded? && loaded.value == q.(vm := loaded.value.vm)
            && (req.jail.None? ==> loaded.value.vm.snap == req.snap)
  {
    PoolSnapshots.ColdPathsResolve(q, req);
  }

  /** A process spawned and made a cold fork of `req`. */
  predicate ColdForked(q: Process, req: Request) {
    q.vm.Running? && q.kills == 0 && q.ctx == req.ctx && (req.jail.None? ==> q.vm.snap == req.snap)
  }

  lemma UpdateTwice(threads: seq<Pc>, t: nat, a: Pc, b: Pc, more: seq<Pc>)
    requires t < |threads|
    ensures (threads[t := a] + more)[t := b] == threads[t := b] + more && threads[t := a][t := b] == threads[t := b]
  {
  }

  class Pool {
    const host: Host
    ghost const wp: WarmPool  // the warm pool of the machine, attached or not
    var live: map<Pid, LiveFork>
    var warmPool: WarmPool?

    ghost predicate Valid()
      reads this, host, wp
    {
      && wp.host == host && wp.Valid() && (warmPool == null || warmPool == wp)
      && host.live == live && host.attached == (warmPool != null)
      && forall p <- live :: p < |host.procs|
    }

    ghost function World(): State
      reads host, wp
      requires wp.host == host
    {
      wp.World()
    }

    /** NewPool, beside the warm pool `wp` that WithWarmPool may attach. */
    constructor (host: Host, ghost wp: WarmPool)
      requires wp.host == host && wp.Valid() && host.live == map[] && !host.attached
      ensures this.host == host && this.wp == wp && live == map[] && Valid()
    {
      this.host, this.wp := host, wp;
      live, warmPool := map[], null;
    }

    method WithWarmPool(w: WarmPool)
      requires Valid() && w == wp
      modifies this`warmPool, host`attached
      ensures Valid() && World() == Apply(old(World()), Attach) && warmPool == w
    {
      warmPool := w;
      host.attached := true;
    }

    /** A fork in the live map of a pool that only these methods have touched runs the
        snapshot its path promises until its context is done, in a process no idle slot
        shares. */
    lemma LiveRunsItsSnapshot(id: Pid)
      requires Valid() && Reachable(World()) && id in live
      ensures PoolSnapshots.RunsAsPromised(World(), wp.View(), live[id], id) && id !in wp.idle
    {
      var s0 :| Init(s0) && Runs(s0, World());
      var es :| Exec(s0, es) == World();
      PoolSnapshots.LiveForksRunTheirSnapshot(s0, es, id);
      PoolSnapshots.PreloadNeverChanges(s0, es);
      PoolOwnership.EveryProcessHasOneOwner(s0, es);
      PoolOwnership.LiveFacts(World(), id);
    }

    // --------------------------------------------------- the public methods

    /** Fork: `out` filled by index, one goroutine per slot of it, also when the context
        is done before or is cancelled on the way. */
    method Fork(req: Request, count: int) returns (err: ForkError, out: array<Result>)
      requires Valid()
      modifies this`live, wp, host`procs, host`threads, host`live, host`done
      ensures Valid() && (err.BadRequest? <==> count <= 0 || req.snap.mem == "" || req.snap.state == "")
      ensures err.BadRequest? ==> World() == old(World())
      ensures !err.BadRequest? ==> (err.ContextDone? <==> !Open(host.done, req.ctx))
      ensures !err.BadRequest? ==>
                && fresh(out) && out.Length == count && |host.threads| >= |old(host.threads)| + count
                && Runs(old(World()), World())
                && (forall i | 0 <= i < count :: Ended(host.threads[|old(host.threads)| + i], req, out[i]))
                && Joined(old(live), live, req, out[..])
      ensures !err.BadRequest? && Reachable(old(World())) ==> Reachable(World()) && Distinct(out[..])
    {
      ghost var start, n := World(), |host.threads|;
      if count <= 0 || req.snap.mem == "" || req.snap.state == "" {
        out := new Result[0];
        return BadRequest, out;
      }
      out := new Result[count];
      Begin(req, count);
      OneRuns(start, PoolMachine.Event.Fork(req, count), World());
      RunForks(start, n, req, out);
      if Reachable(start) {
        ReachableOn(start, World());
        ForksAreDistinct(World(), req, n, out[..]);
      }
      err := if Open(host.done, req.ctx) then NoError else ContextDone;
    }

    /** Every goroutine of a Fork runs to its end; goroutine `n + i` fills `out[i]`. */
    method RunForks(ghost start: State, ghost n: nat, req: Request, out: array<Result>)
      requires Valid() && Runs(start, World()) && Progress(host.threads, n, req, [], out.Length)
      modifies this`live, wp, host`procs, host`threads, host`live, host`done, out
      ensures Valid() && Runs(start, World()) && Progress(host.threads, n, req, out[..], out.Length)
      ensures Joined(old(live), live, req, out[..])
    {
      for i := 0 to out.Length
        invariant Valid() && Runs(start, World())
        invariant Progress(host.threads, n, req, out[..i], out.Length) && Joined(old(live), live, req, out[..i])
      {
        ghost var done := out[..i];
        out[i] := RunFork(start, n, req, done, out.Length, old(live));
        assert out[..i + 1] == done + [out[i]];
      }
      assert out[..out.Length] == out[..];
    }

    /** The next goroutine of a Fork, and what else happens meanwhile. */
    method RunFork(ghost start: State, ghost n: nat, req: Request, ghost done: seq<Result>, ghost count: nat,
                   ghost was: map<Pid, LiveFork>)
      returns (r: Result)
      requires Valid() && Runs(start, World()) && Progress(host.threads, n, req, done, count) && |done| < count
      requires Joined(was, live, req, done)
      modifies this`live, wp, host`procs, host`threads, host`live, host`done
      ensures Valid() && Runs(start, World()) && Progress(host.threads, n, req, done + [r], count)
      ensures Joined(was, live, req, done + [r])
    {
      r := ForkNext(start, n, req, done, count, was);
      Elapse(start);
    }

    method ForkNext(ghost start: State, ghost n: nat, req: Request, ghost done: seq<Result>, ghost count: nat,
                    ghost was: map<Pid, LiveFork>)
      returns (r: Result)
      requires Valid() && Runs(start, World()) && Progress(host.threads, n, req, done, count) && |done| < count
      requires Joined(was, live, req, done)
      modifies this`live, wp, host`procs, host`threads, host`live
      ensures Valid() && Runs(start, World()) && Progress(host.threads, n, req, done + [r], count)
      ensures Joined(was, live, req, done + [r])
    {
      ghost var before, mid := World(), live;
      r := ForkAs(n + |done|, req);
      RunsOn(start, before, n + |done|, World());
      MoreProgress(before.threads, host.threads, n, req, done, r, count);
      JoinedMore(was, mid, live, req, done, r);
    }

    /** What Fork needs to know of forkOne. */
    method ForkAs(ghost t: nat, req: Request) returns (r: Result)
      requires Valid() && t < |host.threads| && host.threads[t] == FStart(req)
      modifies this`live, wp, host`procs, host`threads, host`live
      ensures Valid() && Reaches(old(World()), t, World())
      ensures OnlyMoved(old(host.threads), t, host.threads) && Ended(host.threads[t], req, r)
      ensures r.Failed? ==> live == old(live)
      ensures r.Forked? ==> r.p in live && live[r.p].req == req && live == old(live)[r.p := live[r.p]]
    {
      r := ForkOne(t, req);
    }

    /** Contexts are cancelled or pass their deadlines, and watchers kill what is tied to
        those that are done. */
    method Elapse(ghost start: State)
      requires Valid() && Runs(start, World())
      modifies host`procs, host`done
      ensures Valid() && Runs(start, World())
    {
      var events: int := *;
      while events > 0
        invariant Valid() && Runs(start, World())
      {
        events := events - 1;
        var cancelled: bool := *;
        if cancelled {
          CancelAny(start);
        } else {
          ReapAny(start);
        }
      }
    }

    method CancelAny(ghost start: State)
      requires Valid() && Runs(start, World())
      modifies host`done
      ensures Valid() && Runs(start, World())
    {
      ghost var before := World();
      var ctx: Ctx :| ctx >= 0;
      host.done := host.done + {ctx};
      OneRuns(before, Cancel(ctx), World());
      RunsCompose(start, before, World());
    }

    method ReapAny(ghost start: State)
      requires Valid() && Runs(start, World())
      modifies host`procs
      ensures Valid() && Runs(start, World())
    {
      ghost var before := World();
      var p: int := *;
      if 0 <= p < |host.procs| && Doomed(host.done, host.procs[p]) {
        host.procs := host.procs[p := host.procs[p].(vm := Dead)];
        OneRuns(before, Reap(p), World());
        RunsCompose(start, before, World());
      }
    }

    /** The goroutines of a Fork start. */
    ghost method Begin(req: Request, count: nat)
      requires Valid() && ValidFork(req, count)
      modifies host`threads
      ensures Valid() && World() == Apply(old(World()), PoolMachine.Event.Fork(req, count))
      ensures Progress(host.threads, |old(host.threads)|, req, [], count)
    {
      host.threads := host.threads + seq(count, _ => FStart(req));
    }

    /** Release, by goroutine `t`: whoever takes the fork out of `live` tears it down. */
    method Release(ghost t: nat, id: Pid) returns (found: bool)
      requires Valid() && t < |host.threads| && host.threads[t] == TClaim(id)
      modifies this`live, host`procs, host`threads, host`live
      ensures Valid() && Reaches(old(World()), t, World()) && host.threads == old(host.threads)[t := TDone(found)]
      ensures Reachable(old(World())) ==> Reachable(World())
      ensures (found <==> id in old(live)) && live == old(live) - {id} && (!found ==> host.procs == old(host.procs))
      ensures found ==> host.procs == old(host.procs)[id := Vm.Kill(old(host.procs)[id])]
    {
      ghost var start := World();
      Stays(start, t);
      found := Take(start, t, id);
      if found {
        TearDown(start, t, id);
      }
      StaysReachable(start, t, World());
    }

    method TearDown(ghost start: State, ghost t: nat, id: Pid)
      requires Valid() && t < |host.threads| && host.threads[t] == TKill(id) && id < |host.procs|
      requires Reaches(start, t, World())
      modifies host`procs, host`threads
      ensures Valid() && Reaches(start, t, World()) && host.threads == old(host.threads)[t := TDone(true)]
      ensures host.procs == old(host.procs)[id := Vm.Kill(old(host.procs)[id])]
    {
      OneMore(start, t, World(), true, 0);
      host.Kill(id);
      host.threads := host.threads[t := TDone(true)];
    }

    /** The critical section of Release. */
    method Take(ghost start: State, ghost t: nat, id: Pid) returns (found: bool)
      requires Valid() && t < |host.threads| && host.threads[t] == TClaim(id) && Reaches(start, t, World())
      modifies this`live, host`threads, host`live
      ensures Valid() && Reaches(start, t, World()) && (found <==> id in old(live)) && live == old(live) - {id}
      ensures host.threads == old(host.threads)[t := if found then TKill(id) else TDone(false)]
    {
      OneMore(start, t, World(), true, 0);
      found := id in live;
      if found {
        live := live - {id};
        host.live := live;
      }
      host.threads := host.threads[t := if found then TKill(id) else TDone(false)];
    }

    /** Shutdown, by goroutine `t`: swap the map out, kill what was in it, close the pool. */
    method Shutdown(ghost t: nat) returns (stopped: nat, failed: nat)
      requires Valid() && t < |host.threads| && host.threads[t] == SClaim
      modifies this`live, this`warmPool, wp, host`procs, host`threads, host`live, host`attached
      ensures Valid() && Reaches(old(World()), t, World())
      ensures host.threads == old(host.threads)[t := SDone(old(live).Keys, stopped, failed)]
      ensures stopped + failed == |old(live)| && live == map[] && warmPool == null && (host.reliable ==> failed == 0)
      ensures if old(warmPool) != null then wp.closed && wp.idle == []
              else wp.closed == old(wp.closed) && wp.idle == old(wp.idle)
      ensures |host.procs| == |old(host.procs)| && forall p | 0 <= p < |host.procs| ::
                var q, q' := old(host.procs)[p], host.procs[p];
                var forked, idle := p in old(live), old(warmPool) != null && p in old(wp.idle);
                && (forked || idle ==> q'.vm.Dead?) && (!forked && !idle ==> q' == q)
                && q'.kills == q.kills + (if forked then 1 else 0) + (if idle then 1 else 0)
      ensures Reachable(old(World())) ==> Reachable(World())
    {
      ghost var start := World();
      Stays(start, t);
      stopped, failed := TearAllDown(start, t);
      StaysReachable(start, t, World());
    }

    method TearAllDown(ghost start: State, ghost t: nat) returns (stopped: nat, failed: nat)
      requires Valid() && t < |host.threads| && host.threads[t] == SClaim && Reaches(start, t, World())
      modifies this`live, this`warmPool, wp, host`procs, host`threads, host`live, host`attached
      ensures Valid() && Reaches(start, t, World())
      ensures host.threads == old(host.threads)[t := SDone(old(live).Keys, stopped, failed)]
      ensures stopped + failed == |old(live)| && live == map[] && warmPool == null && (host.reliable ==> failed == 0)
      ensures if old(warmPool) != null then wp.closed && wp.idle == []
              else wp.closed == old(wp.closed) && wp.idle == old(wp.idle)
      ensures TornDown(old(host.procs), host.procs, old(live).Keys, if old(warmPool) != null then old(wp.idle) else [])
    {
      var claimed, w := live.Keys, warmPool;
      Claim(start, t);
      stopped, failed := TearRest(start, t, claimed, w);
    }

    method TearRest(ghost start: State, ghost t: nat, claimed: set<Pid>, w: WarmPool?) returns (stopped: nat, failed: nat)
      requires Valid() && t < |host.threads| && host.threads[t] == SKill(claimed, claimed, 0, 0, w != null)
      requires Reaches(start, t, World()) && (w == null || w == wp) && forall p <- claimed :: p < |host.procs|
      modifies wp, host`procs, host`threads
      ensures Valid() && Reaches(start, t, World()) && stopped + failed == |claimed| && (host.reliable ==> failed == 0)
      ensures host.threads == old(host.threads)[t := SDone(claimed, stopped, failed)]
      ensures if w != null then wp.closed && wp.idle == [] else wp.closed == old(wp.closed) && wp.idle == old(wp.idle)
      ensures TornDown(old(host.procs), host.procs, claimed, if w != null then old(wp.idle) else [])
    {
      stopped, failed := KillAll(start, t, claimed, w != null);
      if w != null {
        CloseWarm(start, t, w, claimed, stopped, failed);
      }
    }

    /** The critical section of Shutdown. */
    method Claim(ghost start: State, ghost t: nat)
      requires Valid() && t < |host.threads| && host.threads[t] == SClaim && Reaches(start, t, World())
      modifies this`live, this`warmPool, host`threads, host`live, host`attached
      ensures Valid() && Reaches(start, t, World()) && live == map[] && warmPool == null
      ensures host.threads == old(host.threads)[t := SKill(old(live).Keys, old(live).Keys, 0, 0, old(warmPool) != null)]
    {
      OneMore(start, t, World(), true, 0);
      host.threads := host.threads[t := SKill(live.Keys, live.Keys, 0, 0, warmPool != null)];
      live, warmPool := map[], null;
      host.live, host.attached := map[], false;
    }

    method CloseWarm(ghost start: State, ghost t: nat, w: WarmPool, ghost claimed: set<Pid>, ghost stopped: nat,
                     ghost failed: nat)
      requires Valid() && w == wp && t < |host.threads| && host.threads[t] == SClose(claimed, stopped, failed)
      requires Reaches(start, t, World())
      modifies wp, host`procs, host`threads
      ensures Valid() && Reaches(start, t, World()) && wp.closed && wp.idle == []
      ensures host.threads == old(host.threads)[t := SDone(claimed, stopped, failed)]
      ensures TornDown(old(host.procs), host.procs, {}, old(wp.idle))
    {
      OneMore(start, t, World(), true, 0);
      w.Close();
      host.threads := host.threads[t := SDone(claimed, stopped, failed)];
    }

    /** The teardown loop, in whatever order the map iterates. */
    method KillAll(ghost start: State, ghost t: nat, claimed: set<Pid>, ghost close: bool)
      returns (stopped: nat, failed: nat)
      requires Valid() && t < |host.threads| && host.threads[t] == SKill(claimed, claimed, 0, 0, close)
      requires Reaches(start, t, World()) && forall p <- claimed :: p < |host.procs|
      modifies host`procs, host`threads
      ensures Valid() && Reaches(start, t, World()) && stopped + failed == |claimed| && (host.reliable ==> failed == 0)
      ensures TornDown(old(host.procs), host.procs, claimed, [])
      ensures host.threads == old(host.threads)[t := if close then SClose(claimed, stopped, failed)
                                                     else SDone(claimed, stopped, failed)]
    {
      var todo := claimed;
      stopped, failed := 0, 0;
      ghost var before := host.procs;
      assert claimed - todo == {};
      NothingTorn(before);
      while todo != {}
        invariant Valid() && Reaches(start, t, World()) && todo <= claimed
        invariant host.threads == old(host.threads)[t := SKill(claimed, todo, stopped, failed, close)]
        invariant stopped + failed + |todo| == |claimed| && (host.reliable ==> failed == 0)
        invariant TornDown(before, host.procs, claimed - todo, [])
        decreases todo
      {
        todo, stopped, failed := KillNext(start, t, claimed, todo, stopped, failed, close, before);
      }
      assert claimed - {} == claimed;
      Killed(start, t, claimed, stopped, failed, close);
    }

    /** One round of the loop. */
    method KillNext(ghost start: State, ghost t: nat, ghost claimed: set<Pid>, todo: set<Pid>, stopped: nat, failed: nat,
                    ghost close: bool, ghost before: seq<Process>)
      returns (rest: set<Pid>, stopped': nat, failed': nat)
      requires Valid() && t < |host.threads| && host.threads[t] == SKill(claimed, todo, stopped, failed, close)
      requires Reaches(start, t, World()) && {} < todo <= claimed && (forall p <- claimed :: p < |host.procs|)
      requires TornDown(before, host.procs, claimed - todo, [])
      modifies host`procs, host`threads
      ensures Valid() && Reaches(start, t, World()) && rest < todo && |rest| + 1 == |todo|
      ensures stopped' + failed' == stopped + failed + 1 && (host.reliable ==> failed' == failed)
      ensures host.threads == old(host.threads)[t := SKill(claimed, rest, stopped', failed', close)]
      ensures TornDown(before, host.procs, claimed - rest, [])
    {
      var p :| p in todo;
      OneMoreTorn(before, host.procs, claimed - todo, p);
      var ok := KillOne(start, t, p, claimed, todo, stopped, failed, close);
      rest := todo - {p};
      assert claimed - rest == (claimed - todo) + {p};
      stopped', failed' := if ok then stopped + 1 else stopped, if ok then failed else failed + 1;
    }

    ghost method Killed(start: State, t: nat, claimed: set<Pid>, stopped: nat, failed: nat, close: bool)
      requires Valid() && t < |host.threads| && host.threads[t] == SKill(claimed, {}, stopped, failed, close)
      requires Reaches(start, t, World())
      modifies host`threads
      ensures Valid() && Reaches(start, t, World())
      ensures host.threads == old(host.threads)[t := if close then SClose(claimed, stopped, failed)
                                                     else SDone(claimed, stopped, failed)]
    {
      OneMore(start, t, World(), true, 0);
      host.threads := host.threads[t := if close then SClose(claimed, stopped, failed)
                                        else SDone(claimed, stopped, failed)];
    }

    method KillOne(ghost start: State, ghost t: nat, p: Pid, ghost claimed: set<Pid>, ghost todo: set<Pid>,
                   ghost stopped: nat, ghost failed: nat, ghost close: bool) returns (ok: bool)
      requires Valid() && t < |host.threads| && host.threads[t] == SKill(claimed, todo, stopped, failed, close)
      requires Reaches(start, t, World()) && p in todo && p < |host.procs|
      modifies host`procs, host`threads
      ensures Valid() && Reaches(start, t, World()) && (host.reliable ==> ok)
      ensures host.procs == old(host.procs)[p := Vm.Kill(old(host.procs)[p])]
      ensures host.threads == old(host.threads)[t := SKill(claimed, todo - {p}, if ok then stopped + 1 else stopped,
                                                           if ok then failed else failed + 1, close)]
    {
      ok := host.Call();
      OneMore(start, t, World(), ok, p);
      TeardownStep(World(), t, ok, p, claimed, todo, stopped, failed, close);
      host.Kill(p);
      host.threads := host.threads[t := SKill(claimed, todo - {p}, if ok then stopped + 1 else stopped,
                                              if ok then failed else failed + 1, close)];
    }

    // ------------------------------------------------------------ forkOne
    // Goroutine `t` has come from `start`; every method below takes it further.

    /** forkOne: on the last idle slot of an attached open pool, if there is one, otherwise
        cold. A process it got either becomes the one new live fork, or is dead. A warm fork
        starts a refill under its own context; so does a drained pool under none, unless a
        refill failed less than 500 ms ago. If the system calls succeed, the fork fails
        only if its context is done, the slot is of no use, or its jail cannot be filled. */
    method ForkOne(ghost t: nat, req: Request) returns (r: Result)
      requires Valid() && t < |host.threads| && host.threads[t] == FStart(req)
      modifies this`live, wp`idle, wp`takes, wp`drains, wp`drainRefills, host`procs, host`threads, host`live
      ensures Valid() && Reaches(old(World()), t, World())
      ensures var open, n := warmPool != null && !wp.closed, |old(host.procs)|;
              var warm := open && old(wp.idle) != [];
              var p := if warm then old(wp.idle)[|old(wp.idle)| - 1] else n;
              && old(wp.idle) == wp.idle + (if warm then [p] else [])
              && (r.Forked? ==> r.p == p && live == old(live)[p := LiveFork(req, warm)] && p < |host.procs|)
              && (r.Failed? ==> live == old(live) && (p < |host.procs| ==> host.procs[p].vm.Dead?))
              && (if warm then |host.procs| == n && host.procs == old(host.procs)[p := host.procs[p]]
                  else n <= |host.procs| <= n + 1 && host.procs[..n] == old(host.procs))
              && host.threads == old(host.threads)[t := if r.Forked? then FDone(LiveFork(req, warm), p) else FFailed] +
                   if warm then [RSpawn(req.ctx)]
                   else if open && (wp.lastRefillFail == 0 || host.now - wp.lastRefillFail >= 500_000_000)
                   then [RSpawn(None)] else []
      ensures var warm := warmPool != null && !wp.closed && old(wp.idle) != [];
              r.Forked? ==>
                && (req.ctx.Some? ==> req.ctx.value !in host.done)
                && (!warm ==> Fits(req.jail) && ColdForked(host.procs[r.p], req))
                && (warm ==>
                      var slot := old(host.procs)[r.p];
                      Restorable(slot, req.snap) && Restored(slot, host.procs[r.p], req.snap))
      ensures var warm := warmPool != null && !wp.closed && old(wp.idle) != [];
              host.reliable && (req.ctx.Some? ==> req.ctx.value !in host.done) ==>
                ((if warm then Restorable(old(host.procs)[old(wp.idle)[|old(wp.idle)| - 1]], req.snap)
                  else Fits(req.jail)) ==> r.Forked?)
    {
      ghost var start := World();
      Stays(start, t);
      var slot, started := TakeSlot(start, t, req);
      if slot.Some? {
        r := WarmFork(start, t, req, slot.value, old(host.threads));
      } else {
        r := ColdFork(start, t, req, old(host.threads), started);
      }
    }

    /** A slot of the attached warm pool, if there is one to be had. */
    method TakeSlot(ghost start: State, ghost t: nat, req: Request) returns (slot: Option<Pid>, ghost started: seq<Pc>)
      requires Valid() && t < |host.threads| && host.threads[t] == FStart(req) && Reaches(start, t, World())
      modifies wp`idle, wp`takes, wp`drains, wp`drainRefills, host`threads
      ensures Valid() && Reaches(start, t, World())
      ensures slot.Some? <==> warmPool != null && !wp.closed && old(wp.idle) != []
      ensures slot.Some? ==> slot.value < |host.procs| && old(wp.idle) == wp.idle + [slot.value] &&
                             host.threads == old(host.threads)[t := FWarm(req, slot.value)]
      ensures slot.None? ==> wp.idle == old(wp.idle) && host.threads == old(host.threads)[t := FCold(req)] + started
      ensures started == if warmPool != null && !wp.closed && slot.None? &&
                            (wp.lastRefillFail == 0 || host.now - wp.lastRefillFail >= 500_000_000)
                         then [RSpawn(None)] else []
    {
      var w := warmPool;
      Begun(start, t, req);
      started := [];
      if w == null {
        return None, [];
      }
      var r := w.Take(start, t, req);
      slot := if r.Slot? then Some(r.p) else None;
      started := if r.Drained? && (wp.lastRefillFail == 0 || host.now - wp.lastRefillFail >= 500_000_000)
                 then [RSpawn(None)] else [];
    }

    ghost method Begun(start: State, t: nat, req: Request)
      requires Valid() && t < |host.threads| && host.threads[t] == FStart(req) && Reaches(start, t, World())
      modifies host`threads
      ensures Valid() && Reaches(start, t, World())
      ensures host.threads == old(host.threads)[t := if warmPool == null then FCold(req) else FTake(req)]
    {
      OneMore(start, t, World(), true, 0);
      host.threads := host.threads[t := if warmPool == null then FCold(req) else FTake(req)];
    }

    /** The warm path from Take's slot on. */
    method WarmFork(ghost start: State, ghost t: nat, req: Request, slot: Pid, ghost were: seq<Pc>) returns (r: Result)
      requires Valid() && t < |host.threads| && host.threads[t] == FWarm(req, slot) && slot < |host.procs|
      requires Reaches(start, t, World()) && t < |were| && host.threads == were[t := FWarm(req, slot)]
      modifies this`live, host`procs, host`threads, host`live
      ensures Valid() && Reaches(start, t, World())
      ensures host.threads == were[t := if r.Forked? then FDone(LiveFork(req, true), slot) else FFailed] + [RSpawn(req.ctx)]
      ensures |host.procs| == |old(host.procs)| && host.procs == old(host.procs)[slot := host.procs[slot]]
      ensures r.Forked? ==> r.p == slot && live == old(live)[slot := LiveFork(req, true)] &&
                            Restored(old(host.procs)[slot], host.procs[slot], req.snap)
      ensures r.Failed? ==> live == old(live) && host.procs[slot].vm.Dead?
      ensures r.Forked? ==> Restorable(old(host.procs)[slot], req.snap) && (req.ctx.Some? ==> req.ctx.value !in host.done)
      ensures host.reliable && (req.ctx.Some? ==> req.ctx.value !in host.done) ==>
                (Restorable(old(host.procs)[slot], req.snap) ==> r.Forked?)
    {
      var ok := RunSlot(start, t, req, slot);
      if ok {
        Won(start, t, req, slot);
        r := Forked(slot);
      } else {
        Lost(start, t, req, slot);
        r := Failed;
      }
      UpdateTwice(were, t, FWarm(req, slot), host.threads[t], []);
    }

    /** A slot that runs: its replacement is ordered and it goes live. */
    method Won(ghost start: State, ghost t: nat, req: Request, slot: Pid)
      requires Valid() && t < |host.threads| && host.threads[t] == FRefillOk(req, slot) && slot < |host.procs|
      requires Reaches(start, t, World())
      modifies this`live, host`threads, host`live
      ensures Valid() && Reaches(start, t, World()) && live == old(live)[slot := LiveFork(req, true)]
      ensures host.threads == old(host.threads)[t := FDone(LiveFork(req, true), slot)] + [RSpawn(req.ctx)]
    {
      Replenish(start, t, req.ctx);
      Enter(start, t, LiveFork(req, true), slot);
    }

    /** A slot that does not: it is killed and its replacement ordered. */
    method Lost(ghost start: State, ghost t: nat, req: Request, slot: Pid)
      requires Valid() && t < |host.threads| && host.threads[t] == FKill(req, slot) && slot < |host.procs|
      requires Reaches(start, t, World())
      modifies host`procs, host`threads
      ensures Valid() && Reaches(start, t, World())
      ensures host.procs == old(host.procs)[slot := Vm.Kill(old(host.procs)[slot])]
      ensures host.threads == old(host.threads)[t := FFailed] + [RSpawn(req.ctx)]
    {
      Drop(start, t, req, slot);
      Replenish(start, t, req.ctx);
    }

    method RunSlot(ghost start: State, ghost t: nat, req: Request, slot: Pid) returns (ok: bool)
      requires Valid() && t < |host.threads| && host.threads[t] == FWarm(req, slot) && slot < |host.procs|
      requires Reaches(start, t, World())
      modifies host`procs, host`threads
      ensures Valid() && Reaches(start, t, World())
      ensures host.threads == old(host.threads)[t := if ok then FRefillOk(req, slot) else FKill(req, slot)]
      ensures |host.procs| == |old(host.procs)| && host.procs == old(host.procs)[slot := host.procs[slot]]
      ensures ok ==> Restored(old(host.procs)[slot], host.procs[slot], req.snap) &&
                     Restorable(old(host.procs)[slot], req.snap) && (req.ctx.Some? ==> req.ctx.value !in host.done)
      ensures host.reliable && (req.ctx.Some? ==> req.ctx.value !in host.done) ==>
                (Restorable(old(host.procs)[slot], req.snap) ==> ok)
    {
      SlotRuns(host.procs[slot], req.snap);
      var inside := Choose(start, t, req, slot);
      match inside {
        case Ready => ok := ResumeSlot(start, t, req, slot);
        case Bad => ok := false;
        case Use(paths) => ok := RestoreSlot(start, t, req, slot, paths);
      }
    }

    /** A preloaded slot is resumed; any other is given the request's snapshot. */
    method Choose(ghost start: State, ghost t: nat, req: Request, slot: Pid) returns (c: Choice)
      requires Valid() && t < |host.threads| && host.threads[t] == FWarm(req, slot) && slot < |host.procs|
      requires Reaches(start, t, World())
      modifies host`procs, host`threads
      ensures Valid() && Reaches(start, t, World())
      ensures host.threads == old(host.threads)[t := match c case Ready => FResume(req, slot)
                                                     case Bad => FKill(req, slot)
                                                     case Use(paths) => FLoad(req, slot, paths)]
      ensures c.Ready? <==> old(host.procs)[slot].preloaded
      ensures Chosen(old(host.procs), host.procs, slot, req.snap, c, host.reliable)
    {
      Look(start, t, req, slot);
      if host.procs[slot].preloaded {
        c := Ready;
      } else if host.procs[slot].chroot.None? {
        c := Use(req.snap);
      } else {
        c := Prepare(start, t, req, slot);
      }
    }

    /** forkOne's choice between resuming a slot, loading it and preparing it first. */
    ghost method Look(start: State, t: nat, req: Request, slot: Pid)
      requires Valid() && t < |host.threads| && host.threads[t] == FWarm(req, slot) && slot < |host.procs|
      requires Reaches(start, t, World())
      modifies host`threads
      ensures Valid() && Reaches(start, t, World())
      ensures host.threads == old(host.threads)[t := if host.procs[slot].preloaded then FResume(req, slot)
                                                     else if host.procs[slot].chroot.None? then FLoad(req, slot, req.snap)
                                                     else FPrep(req, slot)]
    {
      OneMore(start, t, World(), true, 0);
      host.threads := host.threads[t := if host.procs[slot].preloaded then FResume(req, slot)
                                        else if host.procs[slot].chroot.None? then FLoad(req, slot, req.snap)
                                        else FPrep(req, slot)];
    }

    /** PrepareSnapForJailedSlot */
    method Prepare(ghost start: State, ghost t: nat, req: Request, slot: Pid) returns (c: Choice)
      requires Valid() && t < |host.threads| && host.threads[t] == FPrep(req, slot) && slot < |host.procs|
      requires Reaches(start, t, World())
      modifies host`procs, host`threads
      ensures Valid() && Reaches(start, t, World()) && !c.Ready?
      ensures host.threads == old(host.threads)[t := if c.Use? then FLoad(req, slot, c.paths) else FKill(req, slot)]
      ensures Chosen(old(host.procs), host.procs, slot, req.snap, c, host.reliable)
    {
      ghost var before := World();
      var inside := host.SnapForSlot(slot, req.snap);
      OneMore(start, t, before, inside.Some?, 0);
      if inside.None? {
        host.threads := host.threads[t := FKill(req, slot)];
        c := Bad;
      } else {
        host.threads := host.threads[t := FLoad(req, slot, inside.value)];
        c := Use(inside.value);
      }
    }

    /** ResumeOnSocket on a loaded slot. */
    method ResumeSlot(ghost start: State, ghost t: nat, req: Request, slot: Pid) returns (ok: bool)
      requires Valid() && t < |host.threads| && host.threads[t] == FResume(req, slot) && slot < |host.procs|
      requires Reaches(start, t, World())
      modifies host`procs, host`threads
      ensures Valid() && Reaches(start, t, World())
      ensures host.threads == old(host.threads)[t := if ok then FRefillOk(req, slot) else FKill(req, slot)]
      ensures WokenUp(old(host.procs), host.procs, slot, ok)
      ensures ok ==> old(host.procs)[slot].vm.Loaded? && (req.ctx.Some? ==> req.ctx.value !in host.done)
      ensures host.reliable && old(host.procs)[slot].vm.Loaded? && (req.ctx.Some? ==> req.ctx.value !in host.done) ==> ok
    {
      ghost var before := World();
      ok := host.Resume(slot, req.ctx);
      OneMore(start, t, before, ok, 0);
      host.threads := host.threads[t := if ok then FRefillOk(req, slot) else FKill(req, slot)];
    }

    /** RestoreOnSocket: one call, or a load and a resume. */
    method RestoreSlot(ghost start: State, ghost t: nat, req: Request, slot: Pid, paths: Snapshot) returns (ok: bool)
      requires Valid() && t < |host.threads| && host.threads[t] == FLoad(req, slot, paths) && slot < |host.procs|
      requires Reaches(start, t, World())
      modifies host`procs, host`threads
      ensures Valid() && Reaches(start, t, World())
      ensures host.threads == old(host.threads)[t := if ok then FRefillOk(req, slot) else FKill(req, slot)]
      ensures |host.procs| == |old(host.procs)| && host.procs == old(host.procs)[slot := host.procs[slot]]
      ensures var loaded := Vm.Load(old(host.procs)[slot], paths);
              && (ok ==> loaded.Some? && host.procs[slot] == loaded.value.(vm := Running(loaded.value.vm.snap)))
              && (ok ==> (req.ctx.Some? ==> req.ctx.value !in host.done))
              && (host.reliable && loaded.Some? && (req.ctx.Some? ==> req.ctx.value !in host.done) ==> ok)
    {
      ok := LoadPaths(start, t, req, slot, paths);
      if ok && !req.combined {
        ok := ResumeSlot(start, t, req, slot);
      }
    }

    /** The load of RestoreOnSocket, on a slot. */
    method LoadPaths(ghost start: State, ghost t: nat, req: Request, slot: Pid, paths: Snapshot) returns (ok: bool)
      requires Valid() && t < |host.threads| && host.threads[t] == FLoad(req, slot, paths) && slot < |host.procs|
      requires Reaches(start, t, World())
      modifies host`procs, host`threads
      ensures Valid() && Reaches(start, t, World())
      ensures host.threads == old(host.threads)[t := if !ok then FKill(req, slot)
                                                     else if req.combined then FRefillOk(req, slot) else FResume(req, slot)]
      ensures var loaded := Vm.Load(old(host.procs)[slot], paths);
              && (ok ==> loaded.Some? && (req.ctx.Some? ==> req.ctx.value !in host.done))
              && (host.reliable && loaded.Some? && (req.ctx.Some? ==> req.ctx.value !in host.done) ==> ok)
              && host.procs == if !ok then old(host.procs)
                               else if req.combined then
                                 old(host.procs)[slot := loaded.value.(vm := Running(loaded.value.vm.snap))]
                               else old(host.procs)[slot := loaded.value]
    {
      ghost var before := World();
      ok := host.Restore(slot, paths, req.combined, req.ctx);
      OneMore(start, t, before, ok, 0);
      host.threads := host.threads[t := if !ok then FKill(req, slot)
                                        else if req.combined then FRefillOk(req, slot) else FResume(req, slot)];
    }

    /** Refill, as forkOne calls it: its goroutine starts. */
    ghost method Replenish(start: State, t: nat, ctx: Option<Ctx>)
      requires Valid() && t < |host.threads| && Reaches(start, t, World())
      requires match host.threads[t] case FRefillOk(req, _) => req.ctx == ctx case FRefillErr(c) => c == ctx case _ => false
      modifies host`threads
      ensures Valid() && Reaches(start, t, World())
      ensures host.threads == old(host.threads)[t := match old(host.threads)[t]
                                                     case FRefillOk(req, p) => FInsert(LiveFork(req, true), p)
                                                     case _ => FFailed] + [RSpawn(ctx)]
    {
      OneMore(start, t, World(), true, 0);
      host.threads := host.threads[t := match host.threads[t]
                                        case FRefillOk(req, p) => FInsert(LiveFork(req, true), p)
                                        case _ => FFailed] + [RSpawn(ctx)];
    }

    /** Kills a slot that could not be restored. */
    method Drop(ghost start: State, ghost t: nat, ghost req: Request, slot: Pid)
      requires Valid() && t < |host.threads| && host.threads[t] == FKill(req, slot) && slot < |host.procs|
      requires Reaches(start, t, World())
      modifies host`procs, host`threads
      ensures Valid() && Reaches(start, t, World())
      ensures host.procs == old(host.procs)[slot := Vm.Kill(old(host.procs)[slot])]
      ensures host.threads == old(host.threads)[t := FRefillErr(req.ctx)]
    {
      OneMore(start, t, World(), true, 0);
      host.Kill(slot);
      host.threads := host.threads[t := FRefillErr(req.ctx)];
    }

    /** The critical section that enters a fork in `live`. */
    method Enter(ghost start: State, ghost t: nat, fork: LiveFork, p: Pid)
      requires Valid() && t < |host.threads| && host.threads[t] == FInsert(fork, p) && p < |host.procs|
      requires Reaches(start, t, World())
      modifies this`live, host`threads, host`live
      ensures Valid() && Reaches(start, t, World())
      ensures host.threads == old(host.threads)[t := FDone(fork, p)] && live == old(live)[p := fork]
    {
      OneMore(start, t, World(), true, 0);
      live := live[p := fork];
      host.live := live;
      host.threads := host.threads[t := FDone(fork, p)];
    }

    /** The cold path, jailed or not. */
    method ColdFork(ghost start: State, ghost t: nat, req: Request, ghost were: seq<Pc>, ghost started: seq<Pc>)
      returns (r: Result)
      requires Valid() && t < |were| && host.threads == were[t := FCold(req)] + started && Reaches(start, t, World())
      modifies this`live, host`procs, host`threads, host`live
      ensures Valid() && Reaches(start, t, World())
      ensures var n := |old(host.procs)|;
              && host.threads == were[t := if r.Forked? then FDone(LiveFork(req, false), n) else FFailed] + started
              && n <= |host.procs| <= n + 1 && host.procs[..n] == old(host.procs)
              && (r.Forked? ==> r.p == n < |host.procs| && live == old(live)[n := LiveFork(req, false)] &&
                                ColdForked(host.procs[n], req))
              && (r.Failed? ==> live == old(live) && (n < |host.procs| ==> host.procs[n].vm.Dead?))
      ensures r.Forked? ==> Fits(req.jail) && (req.ctx.Some? ==> req.ctx.value !in host.done)
      ensures host.reliable && Fits(req.jail) && (req.ctx.Some? ==> req.ctx.value !in host.done) ==> r.Forked?
    {
      var p := ColdSpawn(start, t, req);
      r := Failed;
      if p.Some? {
        var ok := ColdFinish(start, t, req, p.value);
        r := if ok then Forked(p.value) else Failed;
      }
      UpdateTwice(were, t, FCold(req), host.threads[t], started);
    }

    /** The cold path once its process is there. */
    method ColdFinish(ghost start: State, ghost t: nat, req: Request, p: Pid) returns (ok: bool)
      requires Valid() && t < |host.threads| && host.threads[t] == FColdLoad(req, p) && p < |host.procs|
      requires Reaches(start, t, World()) && ToLoad(host.procs[p], req)
      modifies this`live, host`procs, host`threads, host`live
      ensures Valid() && Reaches(start, t, World())
      ensures host.threads == old(host.threads)[t := if ok then FDone(LiveFork(req, false), p) else FFailed]
      ensures |host.procs| == |old(host.procs)| && host.procs == old(host.procs)[p := host.procs[p]]
      ensures if ok then live == old(live)[p := LiveFork(req, false)] && ColdForked(host.procs[p], req)
              else live == old(live) && host.procs[p].vm.Dead?
      ensures host.reliable && (req.ctx.Some? ==> req.ctx.value !in host.done) ==> ok
    {
      ok := ColdRun(start, t, req, p);
      if ok {
        Enter(start, t, LiveFork(req, false), p);
      } else {
        ColdDrop(start, t, p);
      }
    }

    method ColdSpawn(ghost start: State, ghost t: nat, req: Request) returns (p: Option<Pid>)
      requires Valid() && t < |host.threads| && host.threads[t] == FCold(req) && Reaches(start, t, World())
      modifies host`procs, host`threads
      ensures Valid() && Reaches(start, t, World())
      ensures host.threads == old(host.threads)[t := if p.Some? then FColdLoad(req, p.value) else FFailed]
      ensures p.None? ==> host.procs == old(host.procs)
      ensures p.Some? ==> p.value == |old(host.procs)| && |host.procs| == p.value + 1 &&
                          host.procs[..p.value] == old(host.procs) && ToLoad(host.procs[p.value], req)
      ensures p.Some? ==> Fits(req.jail) && (req.ctx.Some? ==> req.ctx.value !in host.done)
      ensures host.reliable && Fits(req.jail) && (req.ctx.Some? ==> req.ctx.value !in host.done) ==> p.Some?
    {
      ghost var before := World();
      ghost var pick: nat;
      p, pick := host.Spawn(req.jail, ColdFiles(req), req.ctx);
      PoolSnapshots.ColdFitsIff(req, pick);
      OneMore(start, t, before, p.Some?, pick);
      host.threads := host.threads[t := if p.Some? then FColdLoad(req, p.value) else FFailed];
    }

    /** The restore of a process spawned for the fork. */
    method ColdRun(ghost start: State, ghost t: nat, req: Request, p: Pid) returns (ok: bool)
      requires Valid() && t < |host.threads| && host.threads[t] == FColdLoad(req, p) && p < |host.procs|
      requires Reaches(start, t, World()) && ToLoad(host.procs[p], req)
      modifies host`procs, host`threads
      ensures Valid() && Reaches(start, t, World())
      ensures host.threads == old(host.threads)[t := if ok then FInsert(LiveFork(req, false), p) else FColdKill(p)]
      ensures |host.procs| == |old(host.procs)| && host.procs == old(host.procs)[p := host.procs[p]]
      ensures ok ==> ColdForked(host.procs[p], req)
      ensures host.reliable && (req.ctx.Some? ==> req.ctx.value !in host.done) ==> ok
    {
      ColdLoads(host.procs[p], req);
      ok := ColdRestore(start, t, req, p);
    }

    /** fc.Restore, or RestoreOnSocket inside the chroot of a jailed fork. */
    method ColdRestore(ghost start: State, ghost t: nat, req: Request, p: Pid) returns (ok: bool)
      requires Valid() && t < |host.threads| && host.threads[t] == FColdLoad(req, p) && p < |host.procs|
      requires Reaches(start, t, World())
      modifies host`procs, host`threads
      ensures Valid() && Reaches(start, t, World())
      ensures host.threads == old(host.threads)[t := if ok then FInsert(LiveFork(req, false), p) else FColdKill(p)]
      ensures |host.procs| == |old(host.procs)| && host.procs == old(host.procs)[p := host.procs[p]]
      ensures var loaded := Vm.Load(old(host.procs)[p], ColdPaths(req));
              && (ok ==> loaded.Some? && host.procs[p] == loaded.value.(vm := Running(loaded.value.vm.snap)))
              && (host.reliable && loaded.Some? && (req.ctx.Some? ==> req.ctx.value !in host.done) ==> ok)
    {
      var combined := req.jail.Some? && req.combined;
      ok := ColdLoad(start, t, req, p, combined);
      if ok && !combined {
        ok := ColdResume(start, t, req, p);
      }
    }

    method ColdLoad(ghost start: State, ghost t: nat, req: Request, p: Pid, combined: bool) returns (ok: bool)
      requires Valid() && t < |host.threads| && host.threads[t] == FColdLoad(req, p) && p < |host.procs|
      requires Reaches(start, t, World()) && combined == (req.jail.Some? && req.combined)
      modifies host`procs, host`threads
      ensures Valid() && Reaches(start, t, World())
      ensures host.threads == old(host.threads)[t := if !ok then FColdKill(p)
                                                     else if combined then FInsert(LiveFork(req, false), p)
                                                     else FColdResume(req, p)]
      ensures var loaded := Vm.Load(old(host.procs)[p], ColdPaths(req));
              && (ok ==> loaded.Some?)
              && (host.reliable && loaded.Some? && (req.ctx.Some? ==> req.ctx.value !in host.done) ==> ok)
              && host.procs == if !ok then old(host.procs)
                               else if combined then
                                 old(host.procs)[p := loaded.value.(vm := Running(loaded.value.vm.snap))]
                               else old(host.procs)[p := loaded.value]
    {
      ghost var before := World();
      ok := host.Restore(p, ColdPaths(req), combined, req.ctx);
      OneMore(start, t, before, ok, 0);
      host.threads := host.threads[t := if !ok then FColdKill(p)
                                        else if combined then FInsert(LiveFork(req, false), p) else FColdResume(req, p)];
    }

    method ColdResume(ghost start: State, ghost t: nat, req: Request, p: Pid) returns (ok: bool)
      requires Valid() && t < |host.threads| && host.threads[t] == FColdResume(req, p) && p < |host.procs|
      requires Reaches(start, t, World())
      modifies host`procs, host`threads
      ensures Valid() && Reaches(start, t, World())
      ensures host.threads == old(host.threads)[t := if ok then FInsert(LiveFork(req, false), p) else FColdKill(p)]
      ensures WokenUp(old(host.procs), host.procs, p, ok)
      ensures host.reliable && old(host.procs)[p].vm.Loaded? && (req.ctx.Some? ==> req.ctx.value !in host.done) ==> ok
    {
      ghost var before := World();
      ok := host.Resume(p, req.ctx);
      OneMore(start, t, before, ok, 0);
      host.threads := host.threads[t := if ok then FInsert(LiveFork(req, false), p) else FColdKill(p)];
    }

    method ColdDrop(ghost start: State, ghost t: nat, p: Pid)
      requires Valid() && t < |host.threads| && host.threads[t] == FColdKill(p) && p < |host.procs|
      requires Reaches(start, t, World())
      modifies host`procs, host`threads
      ensures Valid() && Reaches(start, t, World())
      ensures host.procs == old(host.procs)[p := Vm.Kill(old(host.procs)[p])]
      ensures host.threads == old(host.threads)[t := FFailed]
    {
      OneMore(start, t, World(), true, 0);
      host.Kill(p);
      host.threads := host.threads[t := FFailed];
    }
  }

  /** How forkOne treats a warm slot: resume it, give up, or restore from `paths`. */
  datatype Choice = Ready | Bad | Use(paths: Snapshot)
}
