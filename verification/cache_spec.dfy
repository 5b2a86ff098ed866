/** The byte-bounded LRU directory cache as a recency-ordered sequence, most recent
    first, with Go's int64 arithmetic and the directory tree it evicts from. */
module CacheSpec {
  import opened Wrappers
  import opened Int64
  import TemplateKey

  // ------------------------------------------------------- names and paths

  predicate BadChar(c: char) {
    c == '/' || c == '\\' || c as int == 0 || c == '\n' || c == '\r' || c == '\t'
  }

  /** validCacheComponent */
  predicate ValidComponent(s: string) {
    && s != "" && s[0] != '.'
    && (forall c <- s :: !BadChar(c))
    && (forall i | 0 < i < |s| :: s[i] != '.' || s[i - 1] != '.')
  }

  function CacheKey(name: string, version: string): string {
    name + "/" + version
  }

  /** filepath.Join(Root, name, version): `base` is the cleaned Root with its separator. */
  function Path(base: string, key: string): string {
    base + key
  }

  ghost predicate ValidKey(key: string) {
    exists n, v :: ValidComponent(n) && ValidComponent(v) && key == CacheKey(n, v)
  }

  /** `d` is `path` or lies below it: what os.RemoveAll(path) removes. */
  predicate Under(d: string, path: string) {
    d == path || path + "/" <= d
  }

  function RemoveAll(dirs: set<string>, path: string): set<string> {
    set d | d in dirs && !Under(d, path)
  }

  /** On accepted names the key determines the name and the version, and ParseKey finds
      them again. */
  lemma KeyIsInjective(n: string, v: string, n': string, v': string)
    requires ValidComponent(n) && ValidComponent(v) && ValidComponent(n')
    ensures CacheKey(n, v) == CacheKey(n', v') ==> n == n' && v == v'
    ensures TemplateKey.ParseKey(CacheKey(n, v)) == Some((n, v))
  {
    if CacheKey(n, v) == CacheKey(n', v') {
      TemplateKey.KeySplits(n, v, n', v');
    }
    TemplateKey.ParseKeyInvertsKey(CacheKey(n, v), n, v);
  }

  /** The cache accepts fewer names than ParseKey: no backslash and no two dots in a row. */
  lemma CacheIsStricterThanParseKey(s: string)
    ensures ValidComponent(s) <==>
            TemplateKey.Part(s) && '\\' !in s && forall i | 0 < i < |s| :: s[i] != '.' || s[i - 1] != '.'
  {
    if TemplateKey.Part(s) && '\\' !in s {
      forall c | c in s ensures !BadChar(c) {}
    }
    if ValidComponent(s) {
      assert !BadChar('a') && BadChar('\\');
    }
  }

  /** A valid key has one slash, so no cache path lies below another. */
  lemma NoPathBelowAnother(base: string, key: string, other: string)
    requires ValidKey(key) && ValidKey(other)
    ensures Under(Path(base, other), Path(base, key)) <==> other == key
  {
    NotInside(key, other);
    DropBase(base, key + "/", other);
    assert base + (key + "/") == Path(base, key) + "/";
    if Path(base, other) == Path(base, key) {
      assert other == Path(base, other)[|base|..] && key == Path(base, key)[|base|..];
    }
  }

  lemma DropBase(base: string, a: string, b: string)
    ensures base + a <= base + b ==> a <= b
  {
    assert (base + a)[|base|..] == a && (base + b)[|base|..] == b;
    if base + a <= base + b {
      assert (base + a)[|base|..] == (base + b)[..|base| + |a|][|base|..] == (base + b)[|base|..][..|a|];
    }
  }

  lemma NotInside(key: string, other: string)
    requires ValidKey(key) && ValidKey(other)
    ensures !(key + "/" <= other)
  {
    OneSlash(key);
    OneSlash(other);
    var i :| 0 <= i < |key| && key[i] == '/';
    assert (key + "/")[i] == '/' && (key + "/")[|key|] == '/';
  }

  lemma OneSlash(key: string)
    requires ValidKey(key)
    ensures exists i :: 0 <= i < |key| && key[i] == '/'
    ensures forall i, j | 0 <= i < j < |key| :: key[i] == '/' ==> key[j] != '/'
  {
    var n, v :| ValidComponent(n) && ValidComponent(v) && key == CacheKey(n, v);
    assert key[|n|] == '/';
    forall i | 0 <= i < |key| && i != |n| ensures key[i] != '/' {
      if i < |n| {
        assert key[i] == n[i] && n[i] in n;
      } else {
        assert key[i] == v[i - |n| - 1] && v[i - |n| - 1] in v;
      }
    }
  }

  // ------------------------------------------------------------- the cache

  datatype Entry = Entry(key: string, path: string, size: int)

  datatype Cache = Cache(entries: seq<Entry>, bytes: int, dirs: set<string>)

  const TWO_62: int := 0x4000_0000_0000_0000

  function Sum(es: seq<Entry>): int {
    if es == [] then 0 else Sum(es[..|es| - 1]) + es[|es| - 1].size
  }

  /** The position of a key. */
  function Find(es: seq<Entry>, key: string): (r: Option<nat>)
    ensures r.Some? ==> r.value < |es| && es[r.value].key == key
    ensures r.None? ==> forall e <- es :: e.key != key
  {
    if es == [] then None
    else if es[|es| - 1].key == key then Some(|es| - 1)
    else
      assert forall e | e in es :: e in es[..|es| - 1] || e == es[|es| - 1];
      Find(es[..|es| - 1], key)
  }

  function Without(es: seq<Entry>, i: nat): seq<Entry>
    requires i < |es|
  {
    es[..i] + es[i + 1..]
  }

  function EvictOne(c: Cache): Cache {
    if c.entries == [] then c
    else
      var n := |c.entries| - 1;
      var e := c.entries[n];
      Cache(c.entries[..n], Wrap64(c.bytes - e.size), RemoveAll(c.dirs, e.path))
  }

  /** Both eviction loops: drop from the back while `more` bytes would not fit. */
  function EvictFor(c: Cache, max: int, more: int): Cache
    decreases |c.entries|
  {
    if Wrap64(c.bytes + more) > max && c.entries != [] then EvictFor(EvictOne(c), max, more) else c
  }

  /** MoveToFront */
  function Touched(c: Cache, i: nat): Cache
    requires i < |c.entries|
  {
    c.(entries := [c.entries[i]] + Without(c.entries, i))
  }

  function Get(c: Cache, key: string): (Cache, Option<string>) {
    match Find(c.entries, key)
    case None => (c, None)
    case Some(i) => (Touched(c, i), Some(c.entries[i].path))
  }

  /** The replace branch of Insert, before eviction. */
  function Resized(c: Cache, i: nat, size: int): Cache
    requires i < |c.entries|
  {
    c.(entries := [c.entries[i].(size := size)] + Without(c.entries, i),
       bytes := Wrap64(Wrap64(c.bytes - c.entries[i].size) + size))
  }

  function Pushed(c: Cache, e: Entry): Cache {
    c.(entries := [e] + c.entries, bytes := Wrap64(c.bytes + e.size))
  }

  /** Insert once the size is measured: whether it was recorded. */
  function Insert(c: Cache, max: int, key: string, path: string, size: int): (Cache, bool) {
    if size > max then (c, false)
    else
      match Find(c.entries, key)
      case Some(i) => (EvictFor(Resized(c, i, size), max, 0), true)
      case None => (Pushed(EvictFor(c, max, size), Entry(key, path, size)), true)
  }

  // ------------------------------------------------------ budget invariant

  ghost predicate Distinct(es: seq<Entry>) {
    forall i, j | 0 <= i < j < |es| :: es[i].key != es[j].key
  }

  ghost predicate Good(c: Cache, max: int) {
    && Distinct(c.entries) && (forall e <- c.entries :: 0 <= e.size <= max)
    && c.bytes == Sum(c.entries) && c.bytes <= max
  }

  /** `kept` is the longest prefix of `es` whose sizes fit in `room`. */
  ghost predicate LongestFit(kept: seq<Entry>, es: seq<Entry>, room: int) {
    kept <= es && Sum(kept) <= room && forall n | |kept| < n <= |es| :: Sum(es[..n]) > room
  }

  lemma {:induction false} SumSplit(es: seq<Entry>, fs: seq<Entry>)
    ensures Sum(es + fs) == Sum(es) + Sum(fs)
  {
    if fs == [] {
      assert es + fs == es;
    } else {
      assert (es + fs)[..|es + fs| - 1] == es + fs[..|fs| - 1];
      SumSplit(es, fs[..|fs| - 1]);
    }
  }

  lemma SumOne(e: Entry, es: seq<Entry>)
    ensures Sum([e] + es) == e.size + Sum(es)
  {
    SumSplit([e], es);
    assert [e][..0] == [];
  }

  lemma {:induction false} SumWithout(es: seq<Entry>, i: nat)
    requires i < |es|
    ensures Sum(es) == Sum(Without(es, i)) + es[i].size
  {
    var n := |es| - 1;
    if i == n {
      assert Without(es, i) == es[..n];
    } else {
      SumWithout(es[..n], i);
      assert Without(es, i)[..n - 1] == Without(es[..n], i);
    }
  }

  lemma {:induction false} SumGrows(es: seq<Entry>, n: nat)
    requires n <= |es| && forall e <- es :: 0 <= e.size
    ensures 0 <= Sum(es[..n]) <= Sum(es)
  {
    if n == |es| {
      assert es[..n] == es;
      if n > 0 { SumGrows(es[..n - 1], n - 1); assert es[..n - 1][..n - 1] == es[..n - 1]; assert es[n - 1] in es; }
    } else {
      SumGrows(es[..|es| - 1], n);
      assert es[..|es| - 1][..n] == es[..n];
      assert es[|es| - 1] in es;
    }
  }

  lemma NoWrap(x: int)
    requires -MAX_INT64 - 1 <= x <= MAX_INT64
    ensures Wrap64(x) == x
  {
  }

  /** Eviction keeps the longest recency prefix that fits, and wraps nowhere, when the
      sums stay below 2^63. */
  lemma {:induction false} EvictKeepsLongestFit(c: Cache, max: int, more: int)
    requires (forall e <- c.entries :: 0 <= e.size) && c.bytes == Sum(c.entries)
    requires 0 <= more <= max && c.bytes + more <= MAX_INT64
    ensures var r := EvictFor(c, max, more);
            && LongestFit(r.entries, c.entries, max - more)
            && r.bytes == Sum(r.entries) && r.bytes + more <= max
            && r.dirs <= c.dirs
    decreases |c.entries|
  {
    SumGrows(c.entries, 0);
    NoWrap(c.bytes + more);
    var n := |c.entries|;
    if c.bytes + more > max && n > 0 {
      var c1 := EvictOne(c);
      SumGrows(c.entries, n - 1);
      NoWrap(c.bytes - c.entries[n - 1].size);
      assert forall e | e in c1.entries :: e in c.entries;
      EvictKeepsLongestFit(c1, max, more);
      OneShorter(EvictFor(c1, max, more).entries, c.entries, max - more);
    }
  }

  /** What fits of the list without its last entry is what fits of the list. */
  lemma OneShorter(kept: seq<Entry>, es: seq<Entry>, room: int)
    requires es != [] && LongestFit(kept, es[..|es| - 1], room) && Sum(es) > room
    ensures LongestFit(kept, es, room)
  {
    var n := |es|;
    forall m | |kept| < m <= n ensures Sum(es[..m]) > room {
      if m < n { assert es[..n - 1][..m] == es[..m]; } else { assert es[..m] == es; }
    }
  }

  /** What an Insert leaves of the recency list: the new or re-sized entry in front,
      then the longest prefix of the others that still fits. */
  ghost predicate InsertedWell(c: Cache, r: Cache, max: int, key: string, size: int) {
    var others := match Find(c.entries, key) case None => c.entries case Some(i) => Without(c.entries, i);
    && r.entries != [] && r.entries[0].key == key && r.entries[0].size == size
    && LongestFit(r.entries[1..], others, max - size)
  }

  lemma FreshInsert(c: Cache, max: int, key: string, path: string, size: int)
    requires Good(c, max) && 0 <= size <= max && c.bytes + size <= MAX_INT64 && Find(c.entries, key).None?
    ensures var r := Insert(c, max, key, path, size).0; Good(r, max) && InsertedWell(c, r, max, key, size)
  {
    EvictKeepsLongestFit(c, max, size);
    var c' := EvictFor(c, max, size);
    SumOne(Entry(key, path, size), c'.entries);
    SumGrows(c'.entries, 0);
    NoWrap(c'.bytes + size);
    forall e | e in c'.entries ensures e in c.entries { assert c'.entries <= c.entries; }
  }

  /** The byte count of a re-insert, before eviction. */
  lemma ReInsertBytes(c: Cache, max: int, size: int, i: nat)
    requires Good(c, max) && 0 <= size && c.bytes + size <= MAX_INT64 && i < |c.entries|
    ensures Wrap64(Wrap64(c.bytes - c.entries[i].size) + size) == Sum(Without(c.entries, i)) + size
    ensures 0 <= Sum(Without(c.entries, i)) <= c.bytes
  {
    assert c.entries[i] in c.entries;
    SumWithout(c.entries, i);
    SumGrows(Without(c.entries, i), 0);
    NoWrap(Sum(Without(c.entries, i)));
    NoWrap(Sum(Without(c.entries, i)) + size);
  }

  /** Evicting behind an entry that was just put in front. */
  lemma EvictBehindFront(e: Entry, others: seq<Entry>, dirs: set<string>, max: int)
    requires Distinct([e] + others) && 0 <= e.size <= max && Sum(others) + e.size <= MAX_INT64
    requires forall x <- others :: 0 <= x.size <= max
    ensures var r := EvictFor(Cache([e] + others, Sum(others) + e.size, dirs), max, 0);
            Good(r, max) && r.entries != [] && r.entries[0] == e && LongestFit(r.entries[1..], others, max - e.size)
  {
    var all := [e] + others;
    var r := EvictFor(Cache(all, Sum(others) + e.size, dirs), max, 0);
    SumOne(e, others);
    EvictKeepsLongestFit(Cache(all, Sum(others) + e.size, dirs), max, 0);
    PrefixIsGood(r.entries, all, max);
    FrontSurvives(e, others, r.entries, max);
  }

  lemma ReInsert(c: Cache, max: int, key: string, path: string, size: int, i: nat)
    requires Good(c, max) && 0 <= size <= max && c.bytes + size <= MAX_INT64 && Find(c.entries, key) == Some(i)
    ensures var r := Insert(c, max, key, path, size).0; Good(r, max) && InsertedWell(c, r, max, key, size)
  {
    ReInsertEvicts(c, max, key, path, size, i);
    ResizedEvicts(c, max, size, i);
  }

  lemma ReInsertEvicts(c: Cache, max: int, key: string, path: string, size: int, i: nat)
    requires size <= max && Find(c.entries, key) == Some(i)
    ensures Insert(c, max, key, path, size).0 == EvictFor(Resized(c, i, size), max, 0)
  {
  }

  lemma ResizedEvicts(c: Cache, max: int, size: int, i: nat)
    requires Good(c, max) && 0 <= size <= max && c.bytes + size <= MAX_INT64 && i < |c.entries|
    ensures var r := EvictFor(Resized(c, i, size), max, 0);
            && Good(r, max) && r.entries != [] && r.entries[0] == c.entries[i].(size := size)
            && LongestFit(r.entries[1..], Without(c.entries, i), max - size)
  {
    var e, others := c.entries[i].(size := size), Without(c.entries, i);
    ResizedIs(c, max, size, i);
    ReadyToEvict(c, max, size, i);
    EvictBehindFront(e, others, c.dirs, max);
  }

  lemma ReadyToEvict(c: Cache, max: int, size: int, i: nat)
    requires Good(c, max) && 0 <= size && c.bytes + size <= MAX_INT64 && i < |c.entries|
    ensures var e, others := c.entries[i].(size := size), Without(c.entries, i);
            Distinct([e] + others) && Sum(others) + size <= MAX_INT64 && forall x <- others :: 0 <= x.size <= max
  {
    ReInsertBytes(c, max, size, i);
    FrontIsDistinct(c.entries, i, c.entries[i].(size := size));
    WithoutFits(c.entries, i, max);
  }

  lemma ResizedIs(c: Cache, max: int, size: int, i: nat)
    requires Good(c, max) && 0 <= size && c.bytes + size <= MAX_INT64 && i < |c.entries|
    ensures var e, others := c.entries[i].(size := size), Without(c.entries, i);
            Resized(c, i, size) == Cache([e] + others, Sum(others) + e.size, c.dirs)
  {
    ReInsertBytes(c, max, size, i);
  }

  lemma WithoutFits(es: seq<Entry>, i: nat, max: int)
    requires i < |es| && forall e <- es :: 0 <= e.size <= max
    ensures forall e <- Without(es, i) :: 0 <= e.size <= max
  {
  }

  lemma MovedToFront(es: seq<Entry>, i: nat, e: Entry)
    requires Distinct(es) && i < |es| && e.key == es[i].key
    ensures Distinct([e] + Without(es, i))
    ensures forall x | x in [e] + Without(es, i) :: x == e || x in es
  {
    FrontIsDistinct(es, i, e);
  }

  lemma FrontIsDistinct(es: seq<Entry>, i: nat, e: Entry)
    requires Distinct(es) && i < |es| && e.key == es[i].key
    ensures Distinct([e] + Without(es, i))
  {
    var r := [e] + Without(es, i);
    forall a, b | 0 <= a < b < |r| ensures r[a].key != r[b].key {
      assert r[b] == if b - 1 < i then es[b - 1] else es[b];
      if a > 0 { assert r[a] == if a - 1 < i then es[a - 1] else es[a]; }
    }
  }

  lemma PrefixIsGood(kept: seq<Entry>, es: seq<Entry>, max: int)
    requires kept <= es && Distinct(es) && forall e <- es :: 0 <= e.size <= max
    ensures Distinct(kept) && forall e <- kept :: 0 <= e.size <= max
  {
    forall e | e in kept ensures e in es {}
  }

  /** The entry in front fits alone, so eviction never reaches it. */
  lemma FrontSurvives(e: Entry, others: seq<Entry>, kept: seq<Entry>, max: int)
    requires 0 <= e.size <= max && LongestFit(kept, [e] + others, max)
    ensures kept != [] && kept[0] == e && LongestFit(kept[1..], others, max - e.size)
  {
    var all := [e] + others;
    assert all[..1] == [e] + [];
    SumOne(e, []);
    assert Sum(all[..1]) == e.size;
    assert kept[0] == all[0] && kept == [e] + kept[1..];
    SumOne(e, kept[1..]);
    forall n | |kept[1..]| < n <= |others| ensures Sum(others[..n]) > max - e.size {
      assert all[..n + 1] == [e] + others[..n];
      SumOne(e, others[..n]);
      assert Sum(all[..n + 1]) > max;
    }
  }

  lemma InsertKeepsGood(c: Cache, max: int, key: string, path: string, size: int)
    requires Good(c, max) && 0 <= size && c.bytes + size <= MAX_INT64
    ensures var (r, ok) := Insert(c, max, key, path, size);
            && Good(r, max) && (ok <==> size <= max)
            && (ok ==> InsertedWell(c, r, max, key, size)) && (!ok ==> r == c)
            && (ok && (forall e <- c.entries :: e.key != key) ==> r.entries[0] == Entry(key, path, size))
  {
    if size <= max {
      match Find(c.entries, key)
      case None => FreshInsert(c, max, key, path, size);
      case Some(i) => ReInsert(c, max, key, path, size, i);
    }
  }

  lemma GetKeepsGood(c: Cache, max: int, key: string)
    requires Good(c, max)
    ensures Good(Get(c, key).0, max)
  {
    match Find(c.entries, key)
    case None =>
    case Some(i) =>
      SumWithout(c.entries, i);
      SumOne(c.entries[i], Without(c.entries, i));
  }

  // ----------------------------------------------------- what a Get does

  /** The entries of other keys, in their order. */
  function Others(es: seq<Entry>, key: string): seq<Entry> {
    if es == [] then []
    else
      var n := |es| - 1;
      Others(es[..n], key) + if es[n].key == key then [] else [es[n]]
  }

  lemma {:induction false} OthersOfStrangers(es: seq<Entry>, key: string)
    requires forall e <- es :: e.key != key
    ensures Others(es, key) == es
  {
    if es != [] {
      var n := |es| - 1;
      assert es == es[..n] + [es[n]];
      OthersOfStrangers(es[..n], key);
    }
  }

  /** A hit brings the key's entry to the front, leaves the other entries in their order
      and returns that entry's path; a miss changes nothing. */
  lemma GetMovesToFront(c: Cache, key: string)
    requires Distinct(c.entries)
    ensures var (r, path) := Get(c, key);
            && r.bytes == c.bytes && r.dirs == c.dirs
            && (path.Some? <==> exists e <- c.entries :: e.key == key)
            && (path.None? ==> r == c)
            && forall e | e in c.entries && e.key == key ::
                 path == Some(e.path) && r.entries == [e] + Others(c.entries, key)
  {
    match Find(c.entries, key)
    case None =>
    case Some(i) =>
      OthersAreTheRest(c.entries, i);
      forall e | e in c.entries && e.key == key ensures e == c.entries[i] { SameKeySameEntry(c.entries, e, i); }
  }

  lemma SameKeySameEntry(es: seq<Entry>, e: Entry, i: nat)
    requires Distinct(es) && i < |es| && e in es && e.key == es[i].key
    ensures e == es[i]
  {
    var j :| 0 <= j < |es| && es[j] == e;
  }

  lemma {:induction false} OthersAreTheRest(es: seq<Entry>, i: nat)
    requires Distinct(es) && i < |es|
    ensures Others(es, es[i].key) == Without(es, i)
  {
    var n := |es| - 1;
    if i == n {
      forall e | e in es[..n] ensures e.key != es[n].key { var j :| 0 <= j < n && es[j] == e; }
      OthersOfStrangers(es[..n], es[n].key);
      assert es[n + 1..] == [];
    } else {
      OthersAreTheRest(es[..n], i);
      assert Without(es, i) == Without(es[..n], i) + [es[n]];
    }
  }

  /** On placed entries the path returned is the key's directory. */
  lemma GetReturnsTheDirectory(c: Cache, base: string, key: string)
    requires Placed(c, base)
    ensures Get(c, key).1.Some? ==> Get(c, key).1 == Some(base + key)
  {
    if Find(c.entries, key).Some? { assert c.entries[Find(c.entries, key).value] in c.entries; }
  }

  // -------------------------------------------------------------- all runs

  /** Calls on accepted names. Insert carries the size measured before the lock was
      taken; Populate and Vanish are the rest of the program at work on the tree. */
  datatype Op = DoGet(key: string) | DoInsert(key: string, size: int) | Populate(dir: string) | Vanish(dir: string)

  function Do(c: Cache, max: int, base: string, op: Op): Cache {
    match op
    case DoGet(key) => Get(c, key).0
    case DoInsert(key, size) => Insert(c, max, key, Path(base, key), size).0
    case Populate(dir) => c.(dirs := c.dirs + {dir})
    case Vanish(dir) => c.(dirs := RemoveAll(c.dirs, dir))
  }

  function Run(max: int, base: string, ops: seq<Op>): Cache {
    if ops == [] then Cache([], 0, {}) else Do(Run(max, base, ops[..|ops| - 1]), max, base, ops[|ops| - 1])
  }

  predicate Measured(op: Op) {
    op.DoInsert? ==> 0 <= op.size <= MAX_INT64
  }

  /** Over every run, with a budget below 2^62: bytes is the sum of the resident sizes
      and within budget, and no sum of the next Insert exceeds an int64. */
  lemma {:induction false} RunsStayInBudget(max: int, base: string, ops: seq<Op>)
    requires 0 < max < TWO_62 && forall op <- ops :: Measured(op)
    ensures Good(Run(max, base, ops), max)
    ensures 0 <= Run(max, base, ops).bytes && Run(max, base, ops).bytes + max <= MAX_INT64
  {
    if ops != [] {
      assert Measured(ops[|ops| - 1]) by { assert ops[|ops| - 1] in ops; }
      var c, op := Run(max, base, ops[..|ops| - 1]), ops[|ops| - 1];
      RunsStayInBudget(max, base, ops[..|ops| - 1]);
      match op
      case DoGet(key) => GetKeepsGood(c, max, key);
      case DoInsert(key, size) =>
        if size <= max { InsertKeepsGood(c, max, key, Path(base, key), size); }
      case _ =>
    }
    SumGrows(Run(max, base, ops).entries, 0);
  }

  /** From a budget of 2^62 on, two inserts of 2^62 bytes drive bytes negative: nothing
      is evicted and both entries stay. */
  lemma BudgetBreaksAtTwo62(max: int, base: string)
    requires TWO_62 <= max <= MAX_INT64
    ensures var r := Run(max, base, [DoInsert("a/v", TWO_62), DoInsert("b/v", TWO_62)]);
            |r.entries| == 2 && r.bytes == -MAX_INT64 - 1 && Sum(r.entries) == 2 * TWO_62
  {
    var ops := [DoInsert("a/v", TWO_62), DoInsert("b/v", TWO_62)];
    var c1 := Cache([Entry("a/v", Path(base, "a/v"), TWO_62)], TWO_62, {});
    var b := Entry("b/v", Path(base, "b/v"), TWO_62);
    assert ops[..1] == [ops[0]] && ops[..1][..0] == [];
    assert Run(max, base, ops[..1]) == c1;
    assert Wrap64(TWO_62 + TWO_62) == -MAX_INT64 - 1;
    assert "b/v"[0] != "a/v"[0];
    assert Find(c1.entries, "b/v") == None;
    assert Insert(c1, max, "b/v", b.path, TWO_62).0 == c1.(entries := [b] + c1.entries, bytes := -MAX_INT64 - 1);
    SumOne(b, c1.entries);
    SumOne(c1.entries[0], []);
    assert [c1.entries[0]] + [] == c1.entries;
  }

  /** The budget holds over every run exactly for budgets below 2^62. */
  lemma BudgetHoldsIff(max: int, base: string)
    requires 0 < max <= MAX_INT64
    ensures (forall ops: seq<Op> | (forall op <- ops :: Measured(op)) :: Sum(Run(max, base, ops).entries) <= max)
            <==> max < TWO_62
  {
    if max < TWO_62 {
      forall ops: seq<Op> | forall op <- ops :: Measured(op) ensures Sum(Run(max, base, ops).entries) <= max {
        RunsStayInBudget(max, base, ops);
      }
    } else {
      var ops := [DoInsert("a/v", TWO_62), DoInsert("b/v", TWO_62)];
      BudgetBreaksAtTwo62(max, base);
      assert forall op <- ops :: Measured(op);
      assert Sum(Run(max, base, ops).entries) > max;
    }
  }

  // ------------------------------------------------- least recently used

  /** Whether `op`, on `c`, uses `key`: a Get that hits it or an Insert that records it. */
  predicate Uses(c: Cache, max: int, op: Op, key: string) {
    match op
    case DoGet(k) => k == key && exists e <- c.entries :: e.key == key
    case DoInsert(k, size) => k == key && size <= max
    case _ => false
  }

  /** When `key` was used last: the number of operations up to then, 0 for never. */
  function LastUse(max: int, base: string, ops: seq<Op>, key: string): nat {
    if ops == [] then 0
    else
      var n := |ops| - 1;
      if Uses(Run(max, base, ops[..n]), max, ops[n], key) then |ops| else LastUse(max, base, ops[..n], key)
  }

  /** The entries by their last use, latest first. */
  ghost predicate ByLastUse(max: int, base: string, ops: seq<Op>, es: seq<Entry>) {
    && Distinct(es)
    && (forall e <- es :: 0 < LastUse(max, base, ops, e.key))
    && forall i, j | 0 <= i < j < |es| :: LastUse(max, base, ops, es[i].key) > LastUse(max, base, ops, es[j].key)
  }

  lemma {:induction false} EvictKeepsPrefix(c: Cache, max: int, more: int)
    ensures EvictFor(c, max, more).entries <= c.entries
    decreases |c.entries|
  {
    if Wrap64(c.bytes + more) > max && c.entries != [] {
      EvictKeepsPrefix(EvictOne(c), max, more);
    }
  }

  lemma {:induction false} LastUseIsPast(max: int, base: string, ops: seq<Op>, key: string)
    ensures LastUse(max, base, ops, key) <= |ops|
  {
    if ops != [] { LastUseIsPast(max, base, ops[..|ops| - 1], key); }
  }

  /** The key just used comes first, before a prefix of the other entries. */
  lemma UsedComesFirst(max: int, base: string, ops: seq<Op>, e: Entry, others: seq<Entry>, kept: seq<Entry>)
    requires ops != [] && Uses(Run(max, base, ops[..|ops| - 1]), max, ops[|ops| - 1], e.key)
    requires ByLastUse(max, base, ops[..|ops| - 1], others) && kept <= others
    requires forall x <- others :: x.key != e.key
    ensures ByLastUse(max, base, ops, [e] + kept)
  {
    var before, r := ops[..|ops| - 1], [e] + kept;
    forall i | 0 <= i < |kept|
      ensures kept[i] == others[i] && kept[i] in others
      ensures LastUse(max, base, ops, kept[i].key) == LastUse(max, base, before, kept[i].key) < |ops|
    {
      assert !Uses(Run(max, base, before), max, ops[|ops| - 1], kept[i].key);
      LastUseIsPast(max, base, before, kept[i].key);
    }
    assert LastUse(max, base, ops, e.key) == |ops|;
    forall i, j | 0 <= i < j < |r|
      ensures r[i].key != r[j].key && LastUse(max, base, ops, r[i].key) > LastUse(max, base, ops, r[j].key) {}
  }

  lemma StaysByLastUse(max: int, base: string, ops: seq<Op>, es: seq<Entry>)
    requires ops != [] && ByLastUse(max, base, ops[..|ops| - 1], es)
    requires var (c, op) := (Run(max, base, ops[..|ops| - 1]), ops[|ops| - 1]);
             op.Populate? || op.Vanish? || (op.DoInsert? && op.size > max) || (op.DoGet? && Find(c.entries, op.key).None?)
    ensures ByLastUse(max, base, ops, es)
  {
    forall e | e in es ensures LastUse(max, base, ops, e.key) == LastUse(max, base, ops[..|ops| - 1], e.key) {}
    forall i | 0 <= i < |es| ensures es[i] in es {}
  }

  lemma WithoutByLastUse(max: int, base: string, ops: seq<Op>, es: seq<Entry>, i: nat)
    requires ByLastUse(max, base, ops, es) && i < |es|
    ensures ByLastUse(max, base, ops, Without(es, i)) && forall x <- Without(es, i) :: x.key != es[i].key
  {
    var r := Without(es, i);
    forall a | 0 <= a < |r| ensures r[a] == es[if a < i then a else a + 1] && r[a] in es && r[a].key != es[i].key {}
    forall x | x in r ensures x in es && x.key != es[i].key {}
  }

  lemma InsertByLastUse(max: int, base: string, ops: seq<Op>, key: string, size: int)
    requires ops != [] && ops[|ops| - 1] == DoInsert(key, size)
    requires ByLastUse(max, base, ops[..|ops| - 1], Run(max, base, ops[..|ops| - 1]).entries)
    ensures ByLastUse(max, base, ops, Run(max, base, ops).entries)
  {
    var before, c := ops[..|ops| - 1], Run(max, base, ops[..|ops| - 1]);
    if size > max {
      StaysByLastUse(max, base, ops, c.entries);
    } else {
      match Find(c.entries, key)
      case None =>
        EvictKeepsPrefix(c, max, size);
        UsedComesFirst(max, base, ops, Entry(key, Path(base, key), size), c.entries, EvictFor(c, max, size).entries);
      case Some(i) => ReInsertByLastUse(max, base, ops, key, size, i);
    }
  }

  lemma ReInsertByLastUse(max: int, base: string, ops: seq<Op>, key: string, size: int, i: nat)
    requires ops != [] && ops[|ops| - 1] == DoInsert(key, size) && size <= max
    requires var c := Run(max, base, ops[..|ops| - 1]);
             ByLastUse(max, base, ops[..|ops| - 1], c.entries) && Find(c.entries, key) == Some(i)
    ensures ByLastUse(max, base, ops, Run(max, base, ops).entries)
  {
    var c := Run(max, base, ops[..|ops| - 1]);
    var e, others := c.entries[i].(size := size), Without(c.entries, i);
    var kept := EvictFor(Resized(c, i, size), max, 0).entries;
    WithoutByLastUse(max, base, ops[..|ops| - 1], c.entries, i);
    UsedComesFirst(max, base, ops, e, others, others);
    EvictKeepsPrefix(Resized(c, i, size), max, 0);
    PrefixByLastUse(max, base, ops, [e] + others, kept);
    ReInsertEvicts(c, max, key, Path(base, key), size, i);
    assert Run(max, base, ops) == Insert(c, max, key, Path(base, key), size).0;
    assert Run(max, base, ops).entries == kept;
  }

  lemma PrefixByLastUse(max: int, base: string, ops: seq<Op>, es: seq<Entry>, kept: seq<Entry>)
    requires ByLastUse(max, base, ops, es) && kept <= es
    ensures ByLastUse(max, base, ops, kept)
  {
    forall e | e in kept ensures e in es {}
  }

  lemma GetByLastUse(max: int, base: string, ops: seq<Op>, key: string)
    requires ops != [] && ops[|ops| - 1] == DoGet(key)
    requires ByLastUse(max, base, ops[..|ops| - 1], Run(max, base, ops[..|ops| - 1]).entries)
    ensures ByLastUse(max, base, ops, Run(max, base, ops).entries)
  {
    var c := Run(max, base, ops[..|ops| - 1]);
    match Find(c.entries, key)
    case None => StaysByLastUse(max, base, ops, c.entries);
    case Some(i) =>
      var others := Without(c.entries, i);
      assert c.entries[i] in c.entries;
      WithoutByLastUse(max, base, ops[..|ops| - 1], c.entries, i);
      UsedComesFirst(max, base, ops, c.entries[i], others, others);
  }

  /** Over every run: the resident entries are in the order of their last use. */
  lemma {:induction false} EntriesAreByLastUse(max: int, base: string, ops: seq<Op>)
    ensures ByLastUse(max, base, ops, Run(max, base, ops).entries)
  {
    if ops != [] {
      EntriesAreByLastUse(max, base, ops[..|ops| - 1]);
      match ops[|ops| - 1]
      case DoGet(key) => GetByLastUse(max, base, ops, key);
      case DoInsert(key, size) => InsertByLastUse(max, base, ops, key, size);
      case _ => StaysByLastUse(max, base, ops, Run(max, base, ops[..|ops| - 1]).entries);
    }
  }

  /** An entry that is gone from `es` was one of the others, and not one of those kept. */
  lemma GoneFromOthers(was: seq<Entry>, others: seq<Entry>, es: seq<Entry>, key: string, gone: Entry, kept: Entry)
    requires es != [] && es[0].key == key && forall e <- was :: e.key != key ==> e in others
    requires gone in was && (forall e <- es :: e.key != gone.key) && kept in es && kept.key != key
    ensures gone in others && gone !in es[1..] && kept in es[1..]
  {
    assert es == [es[0]] + es[1..];
    assert es[0] in es;
  }

  lemma OthersByLastUse(max: int, base: string, ops: seq<Op>, others: seq<Entry>, key: string)
    requires var es := Run(max, base, ops).entries;
             && ByLastUse(max, base, ops, es)
             && match Find(es, key) case None => others == es case Some(i) => others == Without(es, i)
    ensures ByLastUse(max, base, ops, others)
  {
    var es := Run(max, base, ops).entries;
    if Find(es, key).Some? { WithoutByLastUse(max, base, ops, es, Find(es, key).value); }
  }

  lemma InsertDropsOldest(max: int, base: string, ops: seq<Op>, key: string, size: int, gone: Entry, kept: Entry)
    requires size <= max && ByLastUse(max, base, ops, Run(max, base, ops).entries)
    requires var (c, r) := (Run(max, base, ops), Do(Run(max, base, ops), max, base, DoInsert(key, size)));
             && gone in c.entries && (forall e <- r.entries :: e.key != gone.key) && kept in r.entries && kept.key != key
    ensures LastUse(max, base, ops, gone.key) < LastUse(max, base, ops, kept.key)
  {
    var c, es := Run(max, base, ops), Do(Run(max, base, ops), max, base, DoInsert(key, size)).entries;
    var others := InsertLeaves(c, max, key, Path(base, key), size);
    GoneFromOthers(c.entries, others, es, key, gone, kept);
    OthersByLastUse(max, base, ops, others, key);
    SurvivorIsNewer(max, base, ops, others, es[1..], gone, kept);
  }

  lemma InsertedStays(max: int, base: string, ops: seq<Op>, key: string, size: int, gone: Entry, kept: Entry)
    requires size <= max
    requires var r := Do(Run(max, base, ops), max, base, DoInsert(key, size));
             (forall e <- r.entries :: e.key != gone.key) && kept in r.entries
    ensures gone.key != key
  {
    var es := Do(Run(max, base, ops), max, base, DoInsert(key, size)).entries;
    var others := InsertLeaves(Run(max, base, ops), max, key, Path(base, key), size);
    assert es[0] in es;
  }

  /** No operation drops an entry while it keeps one that was used longer ago. */
  lemma EvictedWasUsedLongestAgo(max: int, base: string, ops: seq<Op>, op: Op, gone: Entry, kept: Entry)
    requires var c, r := Run(max, base, ops), Run(max, base, ops + [op]);
             && gone in c.entries && (forall e <- r.entries :: e.key != gone.key)
             && kept in r.entries
    ensures LastUse(max, base, ops + [op], gone.key) < LastUse(max, base, ops + [op], kept.key)
  {
    var all, c, r := ops + [op], Run(max, base, ops), Run(max, base, ops + [op]);
    assert all[..|ops|] == ops;
    EntriesAreByLastUse(max, base, ops);
    EntriesAreByLastUse(max, base, all);
    LastUseIsPast(max, base, ops, gone.key);
    match op
    case DoInsert(key, size) =>
      if size <= max {
        InsertedStays(max, base, ops, key, size, gone, kept);
        if kept.key != key { InsertDropsOldest(max, base, ops, key, size, gone, kept); }
      }
    case DoGet(key) => GetKeepsAll(c, key, gone);
    case _ =>
  }

  /** What an Insert that records its key puts it in front of: the first of the others. */
  lemma InsertLeaves(c: Cache, max: int, key: string, path: string, size: int) returns (others: seq<Entry>)
    requires size <= max
    ensures match Find(c.entries, key) case None => others == c.entries case Some(i) => others == Without(c.entries, i)
    ensures forall e <- c.entries :: e.key != key ==> e in others
    ensures var es := Insert(c, max, key, path, size).0.entries;
            es == [] || (es[0].key == key && es[1..] <= others)
  {
    match Find(c.entries, key)
    case None =>
      others := c.entries;
      EvictKeepsPrefix(c, max, size);
    case Some(i) =>
      others := Without(c.entries, i);
      assert c.entries == c.entries[..i] + [c.entries[i]] + c.entries[i + 1..];
      EvictKeepsPrefix(Resized(c, i, size), max, 0);
  }

  lemma SurvivorIsNewer(max: int, base: string, ops: seq<Op>, others: seq<Entry>, rest: seq<Entry>,
                        gone: Entry, kept: Entry)
    requires ByLastUse(max, base, ops, others) && rest <= others
    requires gone in others && gone !in rest && kept in rest
    ensures LastUse(max, base, ops, gone.key) < LastUse(max, base, ops, kept.key)
  {
    var i :| 0 <= i < |rest| && rest[i] == kept;
    var j :| 0 <= j < |others| && others[j] == gone;
    forall x | 0 <= x < |rest| ensures others[x] != gone { assert rest[x] in rest; }
    assert others[i] == kept && j >= |rest|;
  }

  lemma GetKeepsAll(c: Cache, key: string, e: Entry)
    requires e in c.entries
    ensures e in Get(c, key).0.entries
  {
    if Find(c.entries, key).Some? {
      var i := Find(c.entries, key).value;
      assert c.entries == c.entries[..i] + [c.entries[i]] + c.entries[i + 1..];
    }
  }

  predicate Int64s(es: seq<Entry>) {
    forall e <- es :: 0 <= e.size <= MAX_INT64
  }

  /** The account is the sum of the sizes, wrapped around. */
  ghost predicate Wrapped(c: Cache) {
    Int64s(c.entries) && c.bytes == Wrap(Sum(c.entries))
  }

  lemma AddWraps(sum: int, x: int)
    requires -MAX_INT64 - 1 <= x <= MAX_INT64
    ensures Wrap64(Wrap(sum) + x) == Wrap(sum + x) && Wrap64(Wrap(sum) - x) == Wrap(sum - x)
  {
    WrapsAgree(Wrap(sum), x);
    WrapsOnce(sum, x);
    WrapsOnce(sum, -x);
  }

  lemma {:induction false} EvictKeepsWrapped(c: Cache, max: int, more: int)
    requires Wrapped(c)
    ensures Wrapped(EvictFor(c, max, more))
    decreases |c.entries|
  {
    if Wrap64(c.bytes + more) > max && c.entries != [] {
      var n := |c.entries| - 1;
      assert c.entries[n] in c.entries;
      AddWraps(Sum(c.entries), c.entries[n].size);
      EvictKeepsWrapped(EvictOne(c), max, more);
    }
  }

  lemma ResizeKeepsWrapped(c: Cache, i: nat, size: int)
    requires Wrapped(c) && i < |c.entries| && 0 <= size <= MAX_INT64
    ensures Wrapped(Resized(c, i, size))
  {
    var was, rest := c.entries[i], Without(c.entries, i);
    assert was in c.entries;
    SumWithout(c.entries, i);
    AddWraps(Sum(c.entries), was.size);
    AddWraps(Sum(rest), size);
    SumOne(was.(size := size), rest);
  }

  lemma InsertKeepsWrapped(c: Cache, max: int, key: string, path: string, size: int)
    requires Wrapped(c) && 0 <= size <= MAX_INT64
    ensures Wrapped(Insert(c, max, key, path, size).0)
  {
    if size <= max {
      match Find(c.entries, key)
      case Some(i) =>
        ResizeKeepsWrapped(c, i, size);
        EvictKeepsWrapped(Resized(c, i, size), max, 0);
      case None =>
        EvictKeepsWrapped(c, max, size);
        var kept := EvictFor(c, max, size);
        SumOne(Entry(key, path, size), kept.entries);
        AddWraps(Sum(kept.entries), size);
    }
  }

  lemma GetKeepsWrapped(c: Cache, key: string)
    requires Wrapped(c)
    ensures Wrapped(Get(c, key).0)
  {
    match Find(c.entries, key)
    case None =>
    case Some(i) =>
      SumWithout(c.entries, i);
      SumOne(c.entries[i], Without(c.entries, i));
      assert c.entries[i] in c.entries;
  }

  /** Over every run and with any budget, those that break it included: bytes is the sum of
      the resident sizes modulo 2^64. */
  lemma {:induction false} BytesAreTheSumWrapped(max: int, base: string, ops: seq<Op>)
    requires forall op <- ops :: Measured(op)
    ensures Wrapped(Run(max, base, ops))
  {
    if ops != [] {
      assert Measured(ops[|ops| - 1]) by { assert ops[|ops| - 1] in ops; }
      var c, op := Run(max, base, ops[..|ops| - 1]), ops[|ops| - 1];
      BytesAreTheSumWrapped(max, base, ops[..|ops| - 1]);
      match op
      case DoGet(key) => GetKeepsWrapped(c, key);
      case DoInsert(key, size) => InsertKeepsWrapped(c, max, key, Path(base, key), size);
      case _ =>
    }
  }

  // ------------------------------------------------- agreement with the tree

  ghost predicate Placed(c: Cache, base: string) {
    && Distinct(c.entries)
    && forall e <- c.entries :: ValidKey(e.key) && e.path == Path(base, e.key)
  }

  /** Every resident entry's directory is on disk. */
  ghost predicate OnDisk(c: Cache) {
    forall e <- c.entries :: e.path in c.dirs
  }

  /** Eviction removes no directory of an entry that stays, nor that of `key`. */
  lemma EvictSparesOthers(c: Cache, max: int, more: int, base: string, key: string)
    requires Placed(c, base) && ValidKey(key)
    ensures var r := EvictFor(c, max, more);
            && r.entries <= c.entries && r.dirs <= c.dirs
            && (forall e <- r.entries :: e.path in c.dirs ==> e.path in r.dirs)
            && ((forall e <- c.entries[|r.entries|..] :: e.key != key) ==>
                  (Path(base, key) in c.dirs ==> Path(base, key) in r.dirs))
  {
    EvictSparesStaying(c, max, more, base);
    if Path(base, key) in c.dirs { EvictSparesStranger(c, max, more, base, key); }
  }

  lemma {:induction false} EvictSparesStaying(c: Cache, max: int, more: int, base: string)
    requires Placed(c, base)
    ensures var r := EvictFor(c, max, more);
            && r.entries <= c.entries && r.dirs <= c.dirs
            && forall i | 0 <= i < |r.entries| && c.entries[i].path in c.dirs :: c.entries[i].path in r.dirs
    decreases |c.entries|
  {
    if Wrap64(c.bytes + more) > max && c.entries != [] {
      var last := c.entries[|c.entries| - 1];
      assert last in c.entries;
      OneEvictionSparesOthers(c, base, last.key);
      EvictSparesStaying(EvictOne(c), max, more, base);
      forall i | 0 <= i < |c.entries| - 1 ensures c.entries[i] in EvictOne(c).entries {
        assert EvictOne(c).entries[i] == c.entries[i];
      }
    }
  }

  lemma {:induction false} EvictSparesStranger(c: Cache, max: int, more: int, base: string, key: string)
    requires Placed(c, base) && ValidKey(key) && Path(base, key) in c.dirs
    ensures var r := EvictFor(c, max, more);
            && r.entries <= c.entries
            && ((forall e <- c.entries[|r.entries|..] :: e.key != key) ==> Path(base, key) in r.dirs)
    decreases |c.entries|
  {
    if Wrap64(c.bytes + more) > max && c.entries != [] {
      var c1, n := EvictOne(c), |c.entries| - 1;
      OneEvictionSparesOthers(c, base, key);
      var r := EvictFor(c1, max, more);
      if c.entries[n].key != key {
        EvictSparesStranger(c1, max, more, base, key);
        assert c.entries[|r.entries|..] == c1.entries[|r.entries|..] + [c.entries[n]];
      } else {
        EvictSparesStaying(c1, max, more, base);
        assert c.entries[|r.entries|..][n - |r.entries|] == c.entries[n];
      }
    }
  }

  lemma OneEvictionSparesOthers(c: Cache, base: string, key: string)
    requires Placed(c, base) && c.entries != [] && ValidKey(key)
    ensures EvictOne(c).dirs <= c.dirs && Placed(EvictOne(c), base)
    ensures forall e <- EvictOne(c).entries :: e.path in c.dirs ==> e.path in EvictOne(c).dirs
    ensures c.entries[|c.entries| - 1].key != key && Path(base, key) in c.dirs ==> Path(base, key) in EvictOne(c).dirs
  {
    var last := c.entries[|c.entries| - 1];
    assert last in c.entries;
    NoPathBelowAnother(base, last.key, key);
    forall e | e in EvictOne(c).entries ensures e in c.entries {}
    forall e | e in EvictOne(c).entries && e.path in c.dirs ensures e.path in EvictOne(c).dirs {
      var i :| 0 <= i < |c.entries| - 1 && c.entries[i] == e;
      NoPathBelowAnother(base, last.key, e.key);
    }
  }

  lemma FreshInsertOnDisk(c: Cache, max: int, base: string, key: string, size: int)
    requires Placed(c, base) && ValidKey(key) && OnDisk(c) && size <= max && Find(c.entries, key).None?
    ensures var r := Do(c, max, base, DoInsert(key, size));
            Placed(r, base) && (OnDisk(r) <==> Path(base, key) in c.dirs)
  {
    EvictSparesOthers(c, max, size, base, key);
    var c' := EvictFor(c, max, size);
    forall e | e in c.entries[|c'.entries|..] ensures e.key != key { assert e in c.entries; }
    forall e | e in c'.entries ensures e in c.entries {}
    var r := Do(c, max, base, DoInsert(key, size));
    assert r.entries == [Entry(key, Path(base, key), size)] + c'.entries;
    assert r.entries[0] in r.entries;
  }

  lemma ReInsertOnDisk(c: Cache, max: int, base: string, key: string, size: int, i: nat)
    requires Placed(c, base) && ValidKey(key) && OnDisk(c) && size <= max && Find(c.entries, key) == Some(i)
    ensures var r := Do(c, max, base, DoInsert(key, size)); Placed(r, base) && OnDisk(r)
  {
    var e := c.entries[i].(size := size);
    var c' := Resized(c, i, size);
    assert c.entries[i] in c.entries;
    MovedToFront(c.entries, i, e);
    assert Placed(c', base) && OnDisk(c');
    EvictSparesOthers(c', max, 0, base, key);
    PrefixOnDisk(c', EvictFor(c', max, 0), base);
  }

  lemma PrefixOnDisk(c: Cache, r: Cache, base: string)
    requires Placed(c, base) && OnDisk(c) && r.entries <= c.entries
    requires forall e <- r.entries :: e.path in c.dirs ==> e.path in r.dirs
    ensures Placed(r, base) && OnDisk(r)
  {
    forall e | e in r.entries ensures e in c.entries {}
  }

  /** An Insert that finds every resident directory on disk leaves them all there
      exactly when the inserted directory is on disk once the lock is held. */
  lemma InsertAgreesWithTreeIff(c: Cache, max: int, base: string, key: string, size: int)
    requires Placed(c, base) && ValidKey(key) && OnDisk(c) && size <= max
    ensures var r := Do(c, max, base, DoInsert(key, size));
            Placed(r, base) && (OnDisk(r) <==> Path(base, key) in c.dirs)
  {
    match Find(c.entries, key)
    case None => FreshInsertOnDisk(c, max, base, key, size);
    case Some(i) =>
      assert c.entries[i] in c.entries;
      ReInsertOnDisk(c, max, base, key, size, i);
  }

  lemma RunMore(max: int, base: string, ops: seq<Op>, op: Op)
    ensures Run(max, base, ops + [op]) == Do(Run(max, base, ops), max, base, op)
  {
    assert (ops + [op])[..|ops|] == ops;
  }

  /** An Insert that does not fit beside the one other entry evicts it and its directory. */
  lemma InsertEvictsOther(c: Cache, max: int, base: string, key: string, size: int, other: string)
    requires key != other && |c.entries| == 1 && c.bytes == c.entries[0].size
    requires c.entries[0].key == other && c.entries[0].path == Path(base, other)
    requires 0 <= c.bytes <= max && 0 <= size <= max < c.bytes + size <= MAX_INT64
    ensures Do(c, max, base, DoInsert(key, size)) ==
            Cache([Entry(key, Path(base, key), size)], size, RemoveAll(c.dirs, Path(base, other)))
  {
    var evicted := EvictOne(c);
    assert evicted == Cache([], 0, RemoveAll(c.dirs, Path(base, other)));
    assert c.entries[..0] == [] && Find(c.entries, key) == None;
    NoWrap(c.bytes + size);
    NoWrap(size);
    assert EvictFor(c, max, size) == evicted;
    assert [Entry(key, Path(base, key), size)] + [] == [Entry(key, Path(base, key), size)];
  }

  /** The race of an Insert of `a` with one of `b`, from the empty cache. */
  function Race(max: int, base: string, a: string, b: string): seq<Op> {
    [] + [Populate(Path(base, a))] + [DoInsert(a, 1)] + [Populate(Path(base, b))] + [DoInsert(b, max)] + [DoInsert(a, 1)]
  }

  /** It measures a's directory, b's Insert evicts a with that directory, and a is recorded
      all the same. */
  lemma InsertRaceLosesDirectory(max: int, base: string, a: string, b: string)
    requires 0 < max < MAX_INT64 && a != b
    ensures var r := Run(max, base, Race(max, base, a, b));
            r.entries == [Entry(a, Path(base, a), 1)] && Path(base, a) !in r.dirs && !OnDisk(r)
  {
    var pa, pb := Path(base, a), Path(base, b);
    var o2 := [] + [Populate(pa)] + [DoInsert(a, 1)];
    var o4 := o2 + [Populate(pb)] + [DoInsert(b, max)];
    RaceBegins(max, base, a);
    RunMore(max, base, o2, Populate(pb));
    RunMore(max, base, o2 + [Populate(pb)], DoInsert(b, max));
    InsertEvictsOther(Run(max, base, o2 + [Populate(pb)]), max, base, b, max, a);
    RunMore(max, base, o4, DoInsert(a, 1));
    InsertEvictsOther(Run(max, base, o4), max, base, a, 1, b);
    var r := Run(max, base, o4 + [DoInsert(a, 1)]);
    assert r.entries[0] in r.entries;
  }

  lemma RaceBegins(max: int, base: string, a: string)
    requires max > 0
    ensures Run(max, base, [] + [Populate(Path(base, a))] + [DoInsert(a, 1)])
            == Cache([Entry(a, Path(base, a), 1)], 1, {Path(base, a)})
  {
    var pa := Path(base, a);
    var empty := Cache([], 0, {pa});
    RunMore(max, base, [], Populate(pa));
    assert Run(max, base, [] + [Populate(pa)]) == empty;
    RunMore(max, base, [] + [Populate(pa)], DoInsert(a, 1));
    FirstInsert(max, base, a, empty);
  }

  lemma FirstInsert(max: int, base: string, a: string, c: Cache)
    requires max > 0 && c.entries == [] && c.bytes == 0
    ensures Do(c, max, base, DoInsert(a, 1)) == Cache([Entry(a, Path(base, a), 1)], 1, c.dirs)
  {
    assert [Entry(a, Path(base, a), 1)] + [] == [Entry(a, Path(base, a), 1)];
  }

  /** Callers only insert what has been put on disk before, and nobody removes anything but
      the cache itself. */
  ghost predicate OnlyPopulated(base: string, ops: seq<Op>) {
    forall i | 0 <= i < |ops| ::
      && Measured(ops[i]) && !ops[i].Vanish?
      && (ops[i].DoInsert? ==> exists j :: 0 <= j < i && ops[j] == Populate(Path(base, ops[i].key)))
  }

  /** Every directory ever populated is still there. */
  ghost predicate AllPopulated(c: Cache, ops: seq<Op>) {
    forall j | 0 <= j < |ops| && ops[j].Populate? :: ops[j].dir in c.dirs
  }

  lemma NothingEvicted(c: Cache, more: int)
    requires -MAX_INT64 - 1 <= c.bytes <= MAX_INT64 && -MAX_INT64 - 1 <= more <= MAX_INT64
    ensures EvictFor(c, MAX_INT64, more) == c
  {
    WrapsAgree(c.bytes, more);
  }

  lemma LargestInsert(c: Cache, base: string, key: string, size: int)
    requires Wrapped(c) && OnDisk(c) && Path(base, key) in c.dirs && 0 <= size <= MAX_INT64
    ensures var r := Do(c, MAX_INT64, base, DoInsert(key, size)); OnDisk(r) && r.dirs == c.dirs
  {
    match Find(c.entries, key)
    case None => NothingEvicted(c, size);
    case Some(i) =>
      assert c.entries[i] in c.entries;
      ResizeKeepsWrapped(c, i, size);
      NothingEvicted(Resized(c, i, size), 0);
  }

  /** With the largest budget the comparison never holds, so no directory is ever removed. */
  lemma {:induction false} LargestBudgetEvictsNothing(base: string, ops: seq<Op>)
    requires OnlyPopulated(base, ops)
    ensures OnDisk(Run(MAX_INT64, base, ops)) && AllPopulated(Run(MAX_INT64, base, ops), ops)
  {
    if ops != [] {
      var m := |ops| - 1;
      var c, op := Run(MAX_INT64, base, ops[..m]), ops[m];
      forall i | 0 <= i < m && ops[i].DoInsert?
        ensures exists j :: 0 <= j < i && ops[..m][j] == Populate(Path(base, ops[i].key))
      {
        var j :| 0 <= j < i && ops[j] == Populate(Path(base, ops[i].key));
        assert ops[..m][j] == ops[j];
      }
      LargestBudgetEvictsNothing(base, ops[..m]);
      forall x | x in ops[..m] ensures Measured(x) {}
      BytesAreTheSumWrapped(MAX_INT64, base, ops[..m]);
      LargestStep(c, base, ops, op);
    }
  }

  lemma LargestStep(c: Cache, base: string, ops: seq<Op>, op: Op)
    requires ops != [] && op == ops[|ops| - 1] && OnlyPopulated(base, ops)
    requires Wrapped(c) && OnDisk(c) && AllPopulated(c, ops[..|ops| - 1])
    ensures OnDisk(Do(c, MAX_INT64, base, op)) && AllPopulated(Do(c, MAX_INT64, base, op), ops)
  {
    var m := |ops| - 1;
    match op
    case DoInsert(key, size) =>
      var j :| 0 <= j < m && ops[j] == Populate(Path(base, key));
      assert ops[..m][j] == ops[j];
      LargestInsert(c, base, key, size);
    case DoGet(key) => GetOnDisk(c, key);
    case Populate(dir) =>
    forall j | 0 <= j < m && ops[j].Populate? ensures ops[j].dir in c.dirs { assert ops[..m][j] == ops[j]; }
  }

  lemma GetOnDisk(c: Cache, key: string)
    requires OnDisk(c)
    ensures OnDisk(Get(c, key).0) && Get(c, key).0.dirs == c.dirs
  {
    if Find(c.entries, key).Some? {
      assert forall e | e in Get(c, key).0.entries :: e in c.entries;
    }
  }

  /** The race can lose a directory under every budget but the largest int64. */
  lemma RaceIsHarmlessIff(max: int, base: string)
    requires 0 < max <= MAX_INT64
    ensures (forall ops: seq<Op> | OnlyPopulated(base, ops) :: OnDisk(Run(max, base, ops))) <==> max == MAX_INT64
  {
    if max == MAX_INT64 {
      forall ops: seq<Op> | OnlyPopulated(base, ops) ensures OnDisk(Run(max, base, ops)) {
        LargestBudgetEvictsNothing(base, ops);
      }
    } else {
      var a, b := "a/v", "b/v";
      assert a[0] != b[0];
      InsertRaceLosesDirectory(max, base, a, b);
      RaceIsOfPopulated(max, base, a, b);
      assert !OnDisk(Run(max, base, Race(max, base, a, b)));
    }
  }

  lemma RaceIsOfPopulated(max: int, base: string, a: string, b: string)
    requires 0 < max <= MAX_INT64
    ensures OnlyPopulated(base, Race(max, base, a, b))
  {
    var ops := Race(max, base, a, b);
    assert ops == [Populate(Path(base, a)), DoInsert(a, 1), Populate(Path(base, b)), DoInsert(b, max), DoInsert(a, 1)];
    assert ops[0] == Populate(Path(base, a)) && ops[2] == Populate(Path(base, b));
  }

  /** An Insert finds its directory at lock time, and nobody else removes one that is
      resident. */
  ghost predicate Careful(c: Cache, base: string, op: Op) {
    match op
    case DoInsert(key, _) => ValidKey(key) && Path(base, key) in c.dirs
    case DoGet(key) => true
    case Populate(_) => true
    case Vanish(dir) => forall e <- c.entries :: !Under(e.path, dir)
  }

  lemma GetAgreesWithTree(c: Cache, base: string, key: string)
    requires Placed(c, base) && OnDisk(c)
    ensures Placed(Get(c, key).0, base) && OnDisk(Get(c, key).0)
  {
    if Find(c.entries, key).Some? {
      assert forall e | e in Get(c, key).0.entries :: e in c.entries;
    }
  }

  /** Every careful call keeps list and directory tree in agreement. */
  lemma DoAgreesWithTree(c: Cache, max: int, base: string, op: Op)
    requires Placed(c, base) && OnDisk(c) && Careful(c, base, op)
    ensures Placed(Do(c, max, base, op), base) && OnDisk(Do(c, max, base, op))
  {
    match op
    case DoInsert(key, size) => if size <= max { InsertAgreesWithTreeIff(c, max, base, key, size); }
    case DoGet(key) => GetAgreesWithTree(c, base, key);
    case Populate(dir) =>
    case Vanish(dir) =>
  }

  /** Over every run of careful calls, list and directory tree agree. */
  lemma {:induction false} RunsAgreeWithTree(max: int, base: string, ops: seq<Op>)
    requires forall n | 0 <= n < |ops| :: Careful(Run(max, base, ops[..n]), base, ops[n])
    ensures Placed(Run(max, base, ops), base) && OnDisk(Run(max, base, ops))
  {
    if ops != [] {
      var m := |ops| - 1;
      forall n | 0 <= n < m ensures Careful(Run(max, base, ops[..m][..n]), base, ops[..m][n]) {
        assert ops[..m][..n] == ops[..n];
      }
      RunsAgreeWithTree(max, base, ops[..m]);
      DoAgreesWithTree(Run(max, base, ops[..m]), max, base, ops[m]);
    }
  }
}
