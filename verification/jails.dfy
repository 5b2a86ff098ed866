/** The chroot of a jailed process: which host file PrepareChroot has linked at which
    path. A key is joined to the chroot root and cleaned, so several spellings of a key
    are one path, and the files are linked in whatever order Go ranges over the map. */
module Jails {
  import opened Wrappers
  import opened TemplateKey
  import Json

  /** A component of a cleaned absolute host path. `Id` is the UUID of the jailed process:
      it is fresh, so no key names it. */
  datatype Comp = Named(name: string) | Id

  type Path = seq<Comp>

  /** `files` are the links made so far, by full path. */
  datatype Jail = Jail(root: Path, files: map<Path, string>)

  /** JailerConfig: ChrootBaseDir as its components, and ExtraHostFiles. */
  datatype Jailer = Jailer(base: seq<string>, extras: map<string, string>)

  // DefaultChrootLayout
  const MEM_NAME := "memfile.bin"
  const STATE_NAME := "state.bin"
  const MEM_FILE := "/" + MEM_NAME
  const STATE_FILE := "/" + STATE_NAME

  /** ChrootRoot */
  function Root(base: seq<string>): Path {
    seq(|base|, i requires 0 <= i < |base| => Named(base[i])) + [Named("firecracker"), Id, Named("root")]
  }

  // ------------------------------------------------------- filepath.Join

  function Push(stack: Path, part: string): Path {
    if part == "" || part == "." then stack
    else if part == ".." then (if stack == [] then [] else stack[..|stack| - 1])
    else stack + [Named(part)]
  }

  function Walk(stack: Path, parts: seq<string>): Path
    decreases |parts|
  {
    if parts == [] then stack else Walk(Push(stack, parts[0]), parts[1..])
  }

  /** filepath.Join(root, key): the path a key is linked at. */
  function Target(root: Path, key: string): Path {
    Walk(root, Split(key))
  }

  function Targets(root: Path, keys: set<string>): set<Path> {
    set k | k in keys :: Target(root, k)
  }

  /** A slash in front, an empty or `.` component, and a component that is left again do
      not change where a key is linked. */
  lemma SameTarget(root: Path, key: string, sub: string)
    requires '/' !in sub && sub != "" && sub != "." && sub != ".."
    ensures Target(root, "/" + key) == Target(root, "./" + key) == Target(root, sub + "/../" + key) == Target(root, key)
  {
    Prefix(root, "", key);
    Prefix(root, ".", key);
    assert "" + "/" + key == "/" + key && "." + "/" + key == "./" + key;
    InAndOut(root, key, sub);
  }

  lemma InAndOut(root: Path, key: string, sub: string)
    requires '/' !in sub && sub != "" && sub != "." && sub != ".."
    ensures Target(root, sub + "/../" + key) == Target(root, key)
  {
    Prefix(root, sub, "../" + key);
    Prefix(root + [Named(sub)], "..", key);
    assert sub + "/" + ("../" + key) == sub + "/../" + key && ".." + "/" + key == "../" + key;
    assert (root + [Named(sub)])[..|root|] == root;
  }

  lemma Prefix(root: Path, part: string, key: string)
    requires '/' !in part
    ensures Target(root, part + "/" + key) == Target(Push(root, part), key)
  {
    SplitAfterName(part, key);
    assert ([part] + Split(key))[1..] == Split(key);
  }

  /** A clean key of one component is linked right below the root. */
  lemma PlainTarget(root: Path, name: string)
    requires '/' !in name && |name| > 2
    ensures Target(root, "/" + name) == root + [Named(name)]
  {
    Prefix(root, "", name);
    assert "" + "/" + name == "/" + name;
    SplitWithoutSlash(name);
    OnePart(root, name);
  }

  lemma OnePart(root: Path, name: string)
    requires |name| > 2
    ensures Walk(root, [name]) == root + [Named(name)]
  {
    assert [name][1..] == [];
    assert Walk(root, [name]) == Walk(Push(root, name), []);
  }

  /** The two layout paths are different files right below the root. */
  lemma LayoutTargets(root: Path)
    ensures Target(root, MEM_FILE) == root + [Named(MEM_NAME)]
    ensures Target(root, STATE_FILE) == root + [Named(STATE_NAME)]
    ensures Target(root, MEM_FILE) != Target(root, STATE_FILE)
  {
    LayoutNames();
    PlainTarget(root, MEM_NAME);
    PlainTarget(root, STATE_NAME);
    assert (root + [Named(MEM_NAME)])[|root|] != (root + [Named(STATE_NAME)])[|root|];
  }

  lemma LayoutNames()
    ensures '/' !in MEM_NAME && '/' !in STATE_NAME && |MEM_NAME| > 2 && |STATE_NAME| > 2 && |MEM_NAME| != |STATE_NAME|
  {
    NotIn('/', "memfile.bin");
    NotIn('/', "state.bin");
  }

  lemma NotIn(c: char, s: string)
    requires forall i | 0 <= i < |s| :: s[i] != c
    ensures c !in s
  {
  }

  /** Four more spellings of a layout path. */
  lemma Spellings(root: Path)
    ensures Target(root, MEM_NAME) == Target(root, "/" + MEM_FILE) == Target(root, MEM_FILE)
    ensures Target(root, "/./" + MEM_NAME) == Target(root, "/x/../" + MEM_NAME) == Target(root, MEM_FILE)
  {
    FourSpellings(root, MEM_NAME);
  }

  lemma FourSpellings(root: Path, name: string)
    ensures Target(root, name) == Target(root, "/" + ("/" + name)) == Target(root, "/" + name)
    ensures Target(root, "/./" + name) == Target(root, "/x/../" + name) == Target(root, "/" + name)
  {
    SameTarget(root, name, "x");
    SameTarget(root, "/" + name, "x");
    SlashInFront(root, "/./" + name, "./" + name);
    SlashInFront(root, "/x/../" + name, "x/../" + name);
    assert "x/../" + name == "x" + "/../" + name;
  }

  lemma SlashInFront(root: Path, key: string, rest: string)
    requires key == "/" + rest
    ensures Target(root, key) == Target(root, rest)
  {
    SameTarget(root, rest, "x");
  }

  // ---------------------------------------------------------------- links

  /** Paths that can all be files: none is the root or above it, and none is below
      another. */
  ghost predicate Flat(root: Path, paths: set<Path>) {
    && (forall f <- paths :: !(f <= root))
    && forall f, g | f in paths && g in paths :: !(f < g)
  }

  /** A path that cannot become a file, because a directory is there or a file is on the
      way. A file at the path itself is removed first. */
  predicate Blocked(jail: Jail, path: Path) {
    path <= jail.root || exists f <- jail.files :: f < path || path < f
  }

  function Link(jail: Jail, key: string, host: string): Option<Jail> {
    var path := Target(jail.root, key);
    if Blocked(jail, path) then None else Some(jail.(files := jail.files[path := host]))
  }

  /** PrepareChroot's loop over the keys in the given order. */
  function LinkAll(jail: Jail, files: map<string, string>, order: seq<string>): Option<Jail>
    requires forall k <- order :: k in files
  {
    if order == [] then Some(jail)
    else
      var n := |order| - 1;
      match LinkAll(jail, files, order[..n])
      case None => None
      case Some(j) => Link(j, order[n], files[order[n]])
  }

  function Members(order: seq<string>): set<string> {
    set k | k in order
  }

  lemma MembersOfPrefix(root: Path, order: seq<string>)
    requires order != []
    ensures var n := |order| - 1;
            && Members(order) == Members(order[..n]) + {order[n]}
            && Targets(root, Members(order)) == Targets(root, Members(order[..n])) + {Target(root, order[n])}
  {
    var n := |order| - 1;
    assert order == order[..n] + [order[n]];
    assert Members(order) == Members(order[..n]) + {order[n]};
  }

  lemma FlatMore(jail: Jail, path: Path)
    ensures Flat(jail.root, jail.files.Keys + {path}) <==> Flat(jail.root, jail.files.Keys) && !Blocked(jail, path)
  {
    assert forall f <- jail.files.Keys :: f in jail.files.Keys + {path};
    assert path in jail.files.Keys + {path};
  }

  lemma FlatLess(root: Path, less: set<Path>, paths: set<Path>)
    requires less <= paths && Flat(root, paths)
    ensures Flat(root, less)
  {
  }

  /** In whatever order, linking succeeds exactly if all the paths can be files, and then
      these are linked. */
  lemma {:induction false} LinkAllIff(jail: Jail, files: map<string, string>, order: seq<string>)
    requires Flat(jail.root, jail.files.Keys) && forall k <- order :: k in files
    ensures var paths := jail.files.Keys + Targets(jail.root, Members(order));
            match LinkAll(jail, files, order)
            case Some(r) => Flat(jail.root, paths) && r.root == jail.root && r.files.Keys == paths
            case None => !Flat(jail.root, paths)
  {
    if order == [] {
      assert jail.files.Keys + Targets(jail.root, {}) == jail.files.Keys;
    } else {
      var n := |order| - 1;
      LinkAllIff(jail, files, order[..n]);
      MembersOfPrefix(jail.root, order);
      var paths := jail.files.Keys + Targets(jail.root, Members(order[..n]));
      assert paths + {Target(jail.root, order[n])} == jail.files.Keys + Targets(jail.root, Members(order));
      match LinkAll(jail, files, order[..n])
      case None =>
        var more := paths + {Target(jail.root, order[n])};
        if Flat(jail.root, more) { FlatLess(jail.root, paths, more); }
      case Some(r) => FlatMore(r, Target(jail.root, order[n]));
    }
  }

  /** What is linked at a path some key has. */
  ghost predicate FromSome(root: Path, files: map<string, string>, keys: set<string>, path: Path, host: string) {
    exists k :: k in keys && k in files && Target(root, k) == path && host == files[k]
  }

  lemma {:induction false} LinkedIsFromSome(jail: Jail, files: map<string, string>, order: seq<string>, path: Path)
    requires forall k <- order :: k in files
    requires LinkAll(jail, files, order).Some? && path in Targets(jail.root, Members(order))
    ensures var r := LinkAll(jail, files, order).value;
            r.root == jail.root && path in r.files && FromSome(jail.root, files, Members(order), path, r.files[path])
  {
    var n := |order| - 1;
    SameRoot(jail, files, order[..n]);
    MembersOfPrefix(jail.root, order);
    if path == Target(jail.root, order[n]) {
      assert order[n] in Members(order);
    } else {
      LinkedIsFromSome(jail, files, order[..n], path);
    }
  }

  lemma {:induction false} SameRoot(jail: Jail, files: map<string, string>, order: seq<string>)
    requires forall k <- order :: k in files
    ensures LinkAll(jail, files, order).Some? ==> LinkAll(jail, files, order).value.root == jail.root
  {
    if order != [] { SameRoot(jail, files, order[..|order| - 1]); }
  }

  // ------------------------------------------------------- order of a map

  function Without(keys: seq<string>, i: nat): (r: seq<string>)
    requires i < |keys|
    ensures |r| == |keys| - 1 && multiset(r) + multiset{keys[i]} == multiset(keys)
  {
    assert keys == keys[..i] + [keys[i]] + keys[i + 1..];
    keys[..i] + keys[i + 1..]
  }

  /** The `pick`-th order of the keys. */
  function Shuffled(keys: seq<string>, pick: nat): (r: seq<string>)
    ensures |r| == |keys| && multiset(r) == multiset(keys)
    decreases |keys|
  {
    if keys == [] then []
    else [keys[pick % |keys|]] + Shuffled(Without(keys, pick % |keys|), pick / |keys|)
  }

  lemma PickSplits(i: nat, n: nat, more: nat)
    requires i < n
    ensures (i + n * more) % n == i && (i + n * more) / n == more
  {
    var x := i + n * more;
    assert x == n * (x / n) + x % n;
    SmallMultiple(n, x / n - more);
  }

  lemma SmallMultiple(n: nat, d: int)
    ensures d == 0 || n * d >= n || n * d + n <= 0
  {
    if d > 0 { Multiple(n, d); }
    if d < 0 { Multiple(n, -d); }
  }

  lemma Multiple(n: nat, d: nat)
    requires d > 0
    ensures n * d >= n
  {
    assert n * d == n * (d - 1) + n;
  }

  lemma FirstThen(keys: seq<string>, i: nat, more: nat) returns (pick: nat)
    requires i < |keys|
    ensures Shuffled(keys, pick) == [keys[i]] + Shuffled(Without(keys, i), more)
  {
    pick := Numbered(i, |keys|, more);
  }

  lemma Numbered(i: nat, n: nat, more: nat) returns (pick: nat)
    requires i < n
    ensures pick % n == i && pick / n == more
  {
    PickSplits(i, n, more);
    pick := i + n * more;
  }

  /** Every order of the keys is one of them. */
  lemma {:induction false} EveryOrderCanBe(keys: seq<string>, order: seq<string>) returns (pick: nat)
    requires multiset(order) == multiset(keys)
    ensures Shuffled(keys, pick) == order
    decreases |keys|
  {
    assert |multiset(order)| == |order| && |multiset(keys)| == |keys|;
    if keys == [] {
      pick := 0;
    } else {
      var i := Place(keys, order);
      assert order == [order[0]] + order[1..];
      OneLess(order[0], order[1..], Without(keys, i));
      var more := EveryOrderCanBe(Without(keys, i), order[1..]);
      pick := FirstThen(keys, i, more);
    }
  }

  lemma OneLess(x: string, a: seq<string>, b: seq<string>)
    requires multiset([x] + a) == multiset(b) + multiset{x}
    ensures multiset(a) == multiset(b)
  {
    assert multiset([x] + a) - multiset{x} == multiset(a);
    assert multiset(b) + multiset{x} - multiset{x} == multiset(b);
  }

  lemma Place(keys: seq<string>, order: seq<string>) returns (i: nat)
    requires multiset(order) == multiset(keys) && order != []
    ensures i < |keys| && keys[i] == order[0]
  {
    assert order[0] in multiset(order);
    assert order[0] in multiset(keys);
    i :| 0 <= i < |keys| && keys[i] == order[0];
  }

  /** The `pick`-th order in which Go may range over the map. */
  function Order(files: map<string, string>, pick: nat): (r: seq<string>)
    ensures Members(r) == files.Keys
  {
    var keys := Json.SortedKeys(files.Keys);
    var r := Shuffled(keys, pick);
    SameMembers(keys, r);
    r
  }

  /** Every order of the map's keys is one of them. */
  lemma OrderCanBe(files: map<string, string>, order: seq<string>) returns (pick: nat)
    requires multiset(order) == multiset(files.Keys)
    ensures Order(files, pick) == order
  {
    EachKeyOnce(files.Keys);
    pick := EveryOrderCanBe(Json.SortedKeys(files.Keys), order);
  }

  lemma {:induction false} EachKeyOnce(keys: set<string>)
    ensures multiset(Json.SortedKeys(keys)) == multiset(keys)
  {
    if keys != {} {
      var sorted := Json.SortedKeys(keys);
      EachKeyOnce(keys - {sorted[0]});
      assert sorted == [sorted[0]] + Json.SortedKeys(keys - {sorted[0]});
      assert multiset(keys) == multiset{sorted[0]} + multiset(keys - {sorted[0]});
    }
  }

  /** Linking goes wrong for good: no key added later helps. */
  lemma {:induction false} BlockedForGood(jail: Jail, files: map<string, string>, order: seq<string>, more: seq<string>)
    requires (forall k <- order + more :: k in files) && (forall k <- order :: k in files)
    requires LinkAll(jail, files, order).None?
    ensures LinkAll(jail, files, order + more).None?
  {
    if more == [] {
      assert order + more == order;
    } else {
      assert (order + more)[..|order + more| - 1] == order + more[..|more| - 1];
      forall k | k in order + more[..|more| - 1] ensures k in files { assert k in order + more; }
      BlockedForGood(jail, files, order, more[..|more| - 1]);
    }
  }

  /** Keys linked so far, the next one and all others: an order of the whole map, which
      leads nowhere if the next key cannot be linked. */
  lemma AnyRest(jail: Jail, files: map<string, string>, order: seq<string>, key: string, todo: set<string>)
    returns (all: seq<string>)
    requires multiset(order) + multiset(todo) == multiset(files.Keys) && key in todo && todo <= files.Keys
    requires (forall k <- order :: k in files) && LinkAll(jail, files, order).Some?
    ensures multiset(all) == multiset(files.Keys) && forall k <- all :: k in files
    ensures Link(LinkAll(jail, files, order).value, key, files[key]).None? ==> LinkAll(jail, files, all).None?
  {
    var rest := Json.SortedKeys(todo - {key});
    all := (order + [key]) + rest;
    WholeOrder(order, key, todo);
    SameAsKeys(all, files.Keys);
    assert (order + [key])[..|order|] == order;
    if Link(LinkAll(jail, files, order).value, key, files[key]).None? {
      BlockedForGood(jail, files, order + [key], rest);
    }
  }

  lemma WholeOrder(order: seq<string>, key: string, todo: set<string>)
    requires key in todo
    ensures multiset((order + [key]) + Json.SortedKeys(todo - {key})) == multiset(order) + multiset(todo)
  {
    EachKeyOnce(todo - {key});
    assert todo == (todo - {key}) + {key};
    assert multiset(todo) == multiset(todo - {key}) + multiset{key};
  }

  lemma SameAsKeys(order: seq<string>, keys: set<string>)
    requires multiset(order) == multiset(keys)
    ensures forall k <- order :: k in keys
  {
    forall k | k in order ensures k in keys { assert k in multiset(order) && k in multiset(keys); }
  }

  lemma SameMembers(a: seq<string>, b: seq<string>)
    requires multiset(a) == multiset(b)
    ensures forall k :: k in a <==> k in b
  {
    forall k ensures k in a <==> k in b {
      assert k in multiset(a) <==> k in a;
      assert k in multiset(b) <==> k in b;
    }
  }

  /** Any key can come last. */
  lemma AnyKeyCanBeLast(files: map<string, string>, key: string) returns (pick: nat)
    requires key in files
    ensures var order := Order(files, pick); order != [] && order[|order| - 1] == key
  {
    var keys := Json.SortedKeys(files.Keys);
    var i :| 0 <= i < |keys| && keys[i] == key;
    pick := EveryOrderCanBe(keys, Without(keys, i) + [key]);
  }

  // -------------------------------------------------------------- jailing

  /** PrepareChroot for a process that has just got its UUID, the host files in their
      `pick`-th order: the chroot, if it could be prepared; None for no jail. */
  function Prepare(jailer: Option<Jailer>, files: map<string, string>, pick: nat): Option<Option<Jail>> {
    match jailer
    case None => Some(None)
    case Some(j) =>
      match LinkAll(Jail(Root(j.base), map[]), files, Order(files, pick))
      case None => None
      case Some(jail) => Some(Some(jail))
  }

  /** The jailer's extra files and the two layout files can all be linked. */
  ghost predicate Fits(jailer: Option<Jailer>) {
    jailer.Some? ==>
      var root := Root(jailer.value.base);
      Flat(root, Targets(root, jailer.value.extras.Keys + {MEM_FILE, STATE_FILE}))
  }

  lemma PrepareIff(jailer: Option<Jailer>, files: map<string, string>, pick: nat)
    ensures match jailer
            case None => Prepare(jailer, files, pick) == Some(None)
            case Some(j) =>
              var root := Root(j.base);
              match Prepare(jailer, files, pick)
              case None => !Flat(root, Targets(root, files.Keys))
              case Some(c) => Flat(root, Targets(root, files.Keys)) && c.Some? && c.value.root == root
                              && c.value.files.Keys == Targets(root, files.Keys)
  {
    if jailer.Some? {
      var root := Root(jailer.value.base);
      LinkAllIff(Jail(root, map[]), files, Order(files, pick));
      assert {} + Targets(root, files.Keys) == Targets(root, files.Keys);
    }
  }

  /** What is linked at the path of a key belongs to some key with that path, and to any
      of them in some order. */
  lemma PreparedFile(j: Jailer, files: map<string, string>, pick: nat, key: string)
    requires Prepare(Some(j), files, pick).Some? && key in files
    ensures var root := Root(j.base);
            var jail := Prepare(Some(j), files, pick).value.value;
            && Target(root, key) in jail.files
            && FromSome(root, files, files.Keys, Target(root, key), jail.files[Target(root, key)])
  {
    LinkedIsFromSome(Jail(Root(j.base), map[]), files, Order(files, pick), Target(Root(j.base), key));
  }

  lemma LastKeyWins(j: Jailer, files: map<string, string>, key: string) returns (pick: nat)
    requires key in files && Flat(Root(j.base), Targets(Root(j.base), files.Keys))
    ensures var path := Target(Root(j.base), key);
            && Prepare(Some(j), files, pick).Some?
            && var jail := Prepare(Some(j), files, pick).value.value;
               path in jail.files && jail.files[path] == files[key]
  {
    pick := AnyKeyCanBeLast(files, key);
    PrepareIff(Some(j), files, pick);
    SameRoot(Jail(Root(j.base), map[]), files, Order(files, pick)[..|Order(files, pick)| - 1]);
  }

  /** Extra files linked at the layout paths only take no room from the layout files. */
  lemma LayoutAloneFits(j: Jailer)
    requires var root := Root(j.base); Targets(root, j.extras.Keys) <= Targets(root, {MEM_FILE, STATE_FILE})
    ensures Fits(Some(j))
  {
    var root, layout := Root(j.base), {MEM_FILE, STATE_FILE};
    LayoutIsFlat(root);
    assert Targets(root, j.extras.Keys + layout) == Targets(root, j.extras.Keys) + Targets(root, layout);
    assert Targets(root, j.extras.Keys) + Targets(root, layout) == Targets(root, layout);
  }

  lemma LayoutIsFlat(root: Path)
    ensures Flat(root, Targets(root, {MEM_FILE, STATE_FILE}))
  {
    LayoutTargets(root);
    var m, t := root + [Named(MEM_NAME)], root + [Named(STATE_NAME)];
    assert |m| == |t| == |root| + 1;
    assert Targets(root, {MEM_FILE, STATE_FILE}) == {m, t};
  }
}
