/** The Firecracker process behind a slot or a fork, and the three calls that
    drive its API socket. A jailed process resolves paths inside its chroot. */
module Vm {
  import opened Wrappers
  import opened Jails

  datatype Snapshot = Snapshot(mem: string, state: string)

  datatype VmState = Empty | Loaded(snap: Snapshot) | Running(snap: Snapshot) | Dead

  /** A context that some caller can cancel, or that has a deadline. None stands for
      context.Background(), which is never done. */
  type Ctx = nat

  /** `chroot` is None for an unjailed process; `kills` counts the pools' kill calls;
      `ctx` is the context exec.CommandContext ties the process to. */
  datatype Process = Process(vm: VmState, chroot: Option<Jail>, preloaded: bool, kills: nat, ctx: Option<Ctx>)

  const LAYOUT := Snapshot(MEM_FILE, STATE_FILE)

  function Spawned(chroot: Option<Jail>, ctx: Option<Ctx>): Process {
    Process(Empty, chroot, false, 0, ctx)
  }

  function FileAt(jail: Jail, path: string): Option<string> {
    var target := Target(jail.root, path);
    if target in jail.files then Some(jail.files[target]) else None
  }

  function Resolve(p: Process, path: string): Option<string> {
    match p.chroot
    case None => Some(path)
    case Some(jail) => FileAt(jail, path)
  }

  /** PUT /snapshot/load: what the process has mapped afterwards, if it accepts. */
  function Load(p: Process, paths: Snapshot): Option<Process> {
    match (Resolve(p, paths.mem), Resolve(p, paths.state))
    case (Some(mem), Some(state)) => if p.vm.Empty? then Some(p.(vm := Loaded(Snapshot(mem, state)))) else None
    case _ => None
  }

  /** PATCH /vm Resumed. */
  function Resume(p: Process): Option<Process> {
    if p.vm.Loaded? then Some(p.(vm := Running(p.vm.snap))) else None
  }

  /** RestoreOnSocket, with ResumeOnLoad set as every caller sets it: one PUT
      that also resumes, or a PUT followed by a PATCH. */
  function Restore(p: Process, paths: Snapshot, combined: bool): Option<Process> {
    match Load(p, paths)
    case None => None
    case Some(q) => if combined then Some(q.(vm := Running(q.vm.snap))) else Resume(q)
  }

  function Kill(p: Process): Process {
    p.(vm := Dead, kills := p.kills + 1)
  }

  /** The two layout files, as PrepareChroot links them for a slot: in this order, or in
      the other, which comes to the same. */
  function LinkLayout(jail: Jail, host: Snapshot): Option<Jail> {
    match Link(jail, MEM_FILE, host.mem)
    case None => None
    case Some(j) => Link(j, STATE_FILE, host.state)
  }

  /** snapForSlot: the prepared process and the paths to hand to its socket, if the files
      can be linked. */
  function SnapForSlot(p: Process, host: Snapshot): Option<(Process, Snapshot)> {
    match p.chroot
    case None => Some((p, host))
    case Some(jail) =>
      match LinkLayout(jail, host)
      case None => None
      case Some(j) => Some((p.(chroot := Some(j)), LAYOUT))
  }

  /** LinkLayout is PrepareChroot's loop in both orders. */
  lemma LayoutOrderIsNoMatter(jail: Jail, host: Snapshot)
    ensures var files := map[MEM_FILE := host.mem, STATE_FILE := host.state];
            LinkAll(jail, files, [MEM_FILE, STATE_FILE]) == LinkAll(jail, files, [STATE_FILE, MEM_FILE])
            == LinkLayout(jail, host)
  {
    var files := map[MEM_FILE := host.mem, STATE_FILE := host.state];
    LayoutTargets(jail.root);
    var m, t := Target(jail.root, MEM_FILE), Target(jail.root, STATE_FILE);
    LinkedBeside(jail, t, m, host.mem);
    LinkedBeside(jail, m, t, host.state);
    TwoKeys(jail, files, MEM_FILE, STATE_FILE);
    TwoKeys(jail, files, STATE_FILE, MEM_FILE);
    assert jail.files[m := host.mem][t := host.state] == jail.files[t := host.state][m := host.mem];
  }

  /** Whichever of the two files is linked first. */
  lemma LayoutInAnyOrder(jail: Jail, host: Snapshot, order: seq<string>)
    requires multiset(order) == multiset{MEM_FILE, STATE_FILE}
    ensures forall k <- order :: k in map[MEM_FILE := host.mem, STATE_FILE := host.state]
    ensures LinkAll(jail, map[MEM_FILE := host.mem, STATE_FILE := host.state], order) == LinkLayout(jail, host)
  {
    LayoutOrderIsNoMatter(jail, host);
    TwoOrders(order, MEM_FILE, STATE_FILE);
  }

  lemma TwoOrders(order: seq<string>, a: string, b: string)
    requires multiset(order) == multiset{a, b}
    ensures order == [a, b] || order == [b, a]
  {
    assert |multiset(order)| == |order| == 2;
    assert order == [order[0], order[1]];
    assert order[0] in multiset(order) && order[1] in multiset(order);
    assert multiset(order)[order[0]] == multiset{a, b}[order[0]];
  }

  lemma TwoKeys(jail: Jail, files: map<string, string>, a: string, b: string)
    requires a in files && b in files
    ensures LinkAll(jail, files, [a, b]) == match Link(jail, a, files[a])
                                            case None => None
                                            case Some(j) => Link(j, b, files[b])
  {
    assert [a, b][..1] == [a] && [a][..0] == [];
    assert LinkAll(jail, files, [a]) == Link(jail, a, files[a]);
  }

  lemma LinkedBeside(jail: Jail, path: Path, beside: Path, host: string)
    requires !(beside < path) && !(path < beside)
    ensures Blocked(jail.(files := jail.files[beside := host]), path) == Blocked(jail, path)
  {
    var more := jail.files[beside := host];
    if f :| f in jail.files && (f < path || path < f) { assert f in more; }
    if f :| f in more && (f < path || path < f) { assert f in jail.files; }
  }

  /** The chroot paths of a jailed slot resolve back to the host snapshot, whatever
      the chroot held before; both restore sequences then run exactly that snapshot. */
  lemma SlotPathsResolveToHost(p: Process, host: Snapshot, combined: bool)
    requires p.vm.Empty? && SnapForSlot(p, host).Some?
    ensures var (q, inside) := SnapForSlot(p, host).value;
            && Load(q, inside) == Some(q.(vm := Loaded(host)))
            && Restore(q, inside, combined) == Some(q.(vm := Running(host)))
            && q == p.(chroot := q.chroot) && (p.chroot.None? ==> q == p)
  {
    if p.chroot.Some? { LayoutTargets(p.chroot.value.root); }
  }

  /** A slot can be given a snapshot exactly if the two layout paths are free in its
      chroot or hold files. */
  lemma SlotTakesSnapshotIff(jail: Jail, host: Snapshot)
    requires Flat(jail.root, jail.files.Keys)
    ensures var paths := jail.files.Keys + Targets(jail.root, {MEM_FILE, STATE_FILE});
            match LinkLayout(jail, host)
            case Some(r) => Flat(jail.root, paths) && r.root == jail.root && r.files.Keys == paths
            case None => !Flat(jail.root, paths)
  {
    var files := map[MEM_FILE := host.mem, STATE_FILE := host.state];
    LayoutOrderIsNoMatter(jail, host);
    LinkAllIff(jail, files, [MEM_FILE, STATE_FILE]);
    assert Members([MEM_FILE, STATE_FILE]) == {MEM_FILE, STATE_FILE};
  }

  // ---------------------------------------------- slots of one warm pool

  /** The chroot of a slot made from the jailer `template`: its extra files are linked,
      and perhaps the two layout files. */
  ghost predicate MadeFrom(template: Option<Jailer>, chroot: Option<Jail>) {
    match template
    case None => chroot.None?
    case Some(j) => chroot.Some? && chroot.value.root == Root(j.base) && HasExtras(j, chroot.value)
  }

  ghost predicate HasExtras(j: Jailer, jail: Jail) {
    && Flat(jail.root, jail.files.Keys)
    && (jail.files.Keys == Targets(jail.root, j.extras.Keys) ||
        jail.files.Keys == Targets(jail.root, j.extras.Keys + {MEM_FILE, STATE_FILE}))
  }

  lemma SpawnIsMadeFrom(template: Option<Jailer>, pick: nat)
    ensures match template
            case None => Prepare(template, map[], pick) == Some(None)
            case Some(j) => Prepare(template, j.extras, pick).Some? ==>
                              MadeFrom(template, Prepare(template, j.extras, pick).value)
    ensures template.Some? && Fits(template) ==> Prepare(template, template.value.extras, pick).Some?
  {
    if template.Some? {
      var j, root := template.value, Root(template.value.base);
      PrepareIff(template, j.extras, pick);
      var all := j.extras.Keys + {MEM_FILE, STATE_FILE};
      if Fits(template) { FlatLess(root, Targets(root, j.extras.Keys), Targets(root, all)); }
    }
  }

  /** Such a slot can be given a snapshot exactly if the jailer's files leave room for
      it, and it stays such a slot. */
  lemma SlotTakesIffFits(template: Option<Jailer>, p: Process, host: Snapshot)
    requires MadeFrom(template, p.chroot)
    ensures SnapForSlot(p, host).Some? <==> Fits(template)
    ensures SnapForSlot(p, host).Some? ==> MadeFrom(template, SnapForSlot(p, host).value.0.chroot)
  {
    if template.Some? {
      var j, jail := template.value, p.chroot.value;
      SlotTakesSnapshotIff(jail, host);
      var extras, layout := j.extras.Keys, {MEM_FILE, STATE_FILE};
      assert Targets(jail.root, extras) + Targets(jail.root, layout) == Targets(jail.root, extras + layout);
      assert Targets(jail.root, extras + layout) + Targets(jail.root, layout) == Targets(jail.root, extras + layout);
    }
  }
}
