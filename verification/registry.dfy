/** Registry as the code holds it: the map its methods update, and persist's temporary
    file renamed over the old one. The mutex is held from each method's start to its end. */
module Registries {
  import opened Wrappers
  import opened RegistryMachine
  import opened TemplateKey
  import Json

  /** The directory of the registry. Any file operation may fail. */
  class Disk {
    var file: Option<Entries>
    var tmp: Tmp

    constructor (file: Option<Entries>)
      ensures this.file == file && tmp == Absent
    {
      this.file, tmp := file, Absent;
    }
  }

  // ----------------------------------------------------------- List's order

  /** Go's < on strings. */
  predicate Less(a: string, b: string) {
    a != b && Json.Le(a, b)
  }

  /** The comparison List gives sort.Slice. */
  predicate Before(a: Entry, b: Entry) {
    if a.name != b.name then Less(a.name, b.name) else Less(a.version, b.version)
  }

  ghost predicate Ordered(es: seq<Entry>) {
    forall i, j | 0 <= i < j < |es| :: !Before(es[j], es[i])
  }

  ghost predicate DistinctRows(es: seq<Entry>) {
    forall i, j | 0 <= i < j < |es| :: es[i].name != es[j].name || es[i].version != es[j].version
  }

  lemma BeforeTransitive(a: Entry, b: Entry, c: Entry)
    requires !Before(b, a) && !Before(c, b)
    ensures !Before(c, a)
  {
    Json.LeTotal(a.name, b.name);
    Json.LeTotal(b.name, c.name);
    Json.LeTotal(a.version, b.version);
    Json.LeTotal(b.version, c.version);
    if a.name == b.name == c.name {
      Json.LeTransitive(a.version, b.version, c.version);
      if Json.Le(c.version, a.version) { Json.LeAntisymmetric(a.version, c.version); }
    } else {
      Json.LeTransitive(a.name, b.name, c.name);
      if Json.Le(c.name, a.name) {
        Json.LeAntisymmetric(a.name, c.name);
        Json.LeAntisymmetric(a.name, b.name);
      }
    }
  }

  lemma NotBothBefore(a: Entry, b: Entry)
    requires Before(a, b)
    ensures !Before(b, a)
  {
    if a.name != b.name && Json.Le(b.name, a.name) { Json.LeAntisymmetric(a.name, b.name); }
    if a.name == b.name && Json.Le(b.version, a.version) { Json.LeAntisymmetric(a.version, b.version); }
  }

  /** Only one list has given rows in this order: List does not depend on the order in
      which Go ranges over the map. */
  lemma {:induction false} OrderIsUnique(a: seq<Entry>, b: seq<Entry>)
    requires Ordered(a) && DistinctRows(a) && Ordered(b) && DistinctRows(b)
    requires forall e :: e in a <==> e in b
    ensures a == b
  {
    assert b != [] ==> b[0] in b;
    if a != [] {
      assert a[0] in a;
      assert a[0] in b;
      var j :| 0 <= j < |b| && b[j] == a[0];
      assert b[0] in b;
      assert b[0] in a;
      var i :| 0 <= i < |a| && a[i] == b[0];
      if i > 0 && j > 0 { SameRow(a[0], a[i]); }
      assert a[0] == b[0];
      forall e ensures e in a[1..] <==> e in b[1..] {
        assert e in a <==> e == a[0] || e in a[1..];
        assert e in b <==> e == b[0] || e in b[1..];
        if e in a[1..] { var k :| 0 <= k < |a[1..]| && a[1..][k] == e; assert a[k + 1] == e; }
        if e in b[1..] { var k :| 0 <= k < |b[1..]| && b[1..][k] == e; assert b[k + 1] == e; }
      }
      OrderIsUnique(a[1..], b[1..]);
      assert a == [a[0]] + a[1..] && b == [b[0]] + b[1..];
    }
  }

  lemma SameRow(a: Entry, b: Entry)
    requires !Before(a, b) && !Before(b, a)
    ensures a.name == b.name && a.version == b.version
  {
    Json.LeTotal(a.name, b.name);
    Json.LeTotal(a.version, b.version);
  }

  /** sort.Slice, as insertion into the sorted part. */
  method SortRows(es: seq<Entry>) returns (r: seq<Entry>)
    ensures Ordered(r) && multiset(r) == multiset(es)
  {
    r := [];
    for i := 0 to |es|
      invariant Ordered(r) && multiset(r) == multiset(es[..i])
    {
      var j := |r|;
      while j > 0 && Before(es[i], r[j - 1])
        invariant 0 <= j <= |r| && forall k | j <= k < |r| :: Before(es[i], r[k])
      {
        j := j - 1;
      }
      InsertOrdered(r, es[i], j);
      assert r == r[..j] + r[j..] && es[..i + 1] == es[..i] + [es[i]];
      r := r[..j] + [es[i]] + r[j..];
    }
    assert es[..|es|] == es;
  }

  lemma InsertOrdered(r: seq<Entry>, e: Entry, j: nat)
    requires Ordered(r) && j <= |r| && (j > 0 ==> !Before(e, r[j - 1])) && forall k | j <= k < |r| :: Before(e, r[k])
    ensures Ordered(r[..j] + [e] + r[j..])
  {
    forall k | 0 <= k < j ensures !Before(e, r[k]) {
      if k < j - 1 { BeforeTransitive(r[k], r[j - 1], e); }
    }
    forall k | j <= k < |r| ensures !Before(r[k], e) { NotBothBefore(e, r[k]); }
  }

  /** Ranging over the map: each row once, in any order. */
  method GatherRows(m: Entries) returns (es: seq<Entry>)
    ensures |es| == |m| && (forall e :: e in es <==> exists k :: k in m && m[k] == e)
    ensures Keyed(m) ==> DistinctRows(es)
  {
    es := [];
    var left := m.Keys;
    ghost var keys: seq<string> := [];
    while left != {}
      invariant left <= m.Keys && |es| == |keys| == |m| - |left|
      invariant forall i | 0 <= i < |keys| :: keys[i] in m && keys[i] !in left && es[i] == m[keys[i]]
      invariant forall i, j | 0 <= i < j < |keys| :: keys[i] != keys[j]
      invariant forall k | k in m && k !in left :: k in keys
      decreases |left|
    {
      var k :| k in left;
      es, keys, left := es + [m[k]], keys + [k], left - {k};
    }
    forall e ensures e in es <==> exists k :: k in m && m[k] == e {
      if k :| k in m && m[k] == e {
        assert k in keys;
        var i :| 0 <= i < |keys| && keys[i] == k;
        assert es[i] == e;
      }
    }
    if Keyed(m) {
      forall i, j | 0 <= i < j < |es| ensures es[i].name != es[j].name || es[i].version != es[j].version {
        assert Key(es[i].name, es[i].version) == keys[i] && Key(es[j].name, es[j].version) == keys[j];
      }
    }
  }

  /** Every row is under its own key. */
  ghost predicate Keyed(m: Entries) {
    forall k <- m :: Key(m[k].name, m[k].version) == k
  }

  // ------------------------------------------------------------------ class

  class Registry {
    const disk: Disk
    var entries: Entries

    /** OpenRegistry on a file that parses and is within the size limit. */
    constructor Open(disk: Disk)
      ensures this.disk == disk && entries == RegistryMachine.Open(disk.file)
    {
      this.disk := disk;
      entries := if disk.file.Some? then disk.file.value else map[];
    }

    /** persist, of whose three file operations `good` succeed before the first that does
        not: the file is the old one or the new one, whole, and the caller hears of every
        failure. */
    method Persist(good: nat) returns (ok: bool)
      modifies disk
      ensures ok <==> good >= 3
      ensures disk.file == if good >= 2 then Some(entries) else old(disk.file)
      ensures disk.tmp == if good == 0 then Torn else if good == 1 then Full(entries) else Absent
    {
      var doc := entries;
      if good == 0 {
        disk.tmp := Torn;
        return false;
      }
      disk.tmp := Full(doc);
      if good == 1 {
        return false;
      }
      disk.file, disk.tmp := Some(disk.tmp.doc), Absent;
      ok := good > 2;
    }

    /** An entry without name or version changes nothing. Any other is the row under its
        key from then on: `e` in every field but notes, of which the first 4096 bytes stay. */
    method Put(e: Entry, good: nat) returns (ok: bool)
      modifies this`entries, disk
      ensures entries == if Acceptable(e) then Apply1(old(entries), Set(Trimmed(e))) else old(entries)
      ensures e.name == "" || e.version == "" ==>
                !ok && entries == old(entries) && disk.file == old(disk.file) && disk.tmp == old(disk.tmp)
      ensures e.name != "" && e.version != "" ==>
                var key := e.name + "/" + e.version;
                && entries.Keys == old(entries.Keys) + {key}
                && entries[key].(notes := e.notes) == e
                && entries[key].notes == (if |e.notes| <= 4096 then e.notes else e.notes[..4096])
                && (forall k <- old(entries) | k != key :: entries[k] == old(entries[k]))
                && disk.file == (if good >= 2 then Some(entries) else old(disk.file))
                && (ok <==> good >= 3)
      ensures old(Keyed(entries)) ==> Keyed(entries)
    {
      if e.name == "" || e.version == "" {
        return false;
      }
      var row := e;
      if |e.notes| > MAX_NOTES {
        row := row.(notes := e.notes[..MAX_NOTES]);
      }
      entries := entries[Key(row.name, row.version) := row];
      ok := Persist(good);
    }

    method Get(name: string, version: string) returns (r: Option<Entry>)
      ensures r.Some? <==> name + "/" + version in entries
      ensures r.Some? ==> r.value == entries[name + "/" + version]
      ensures Keyed(entries) && '/' !in name && r.Some? && '/' !in r.value.name ==>
                r.value.name == name && r.value.version == version
    {
      var key := Key(name, version);
      r := if key in entries then Some(entries[key]) else None;
      if Keyed(entries) && '/' !in name && r.Some? && '/' !in r.value.name {
        KeySplits(name, version, r.value.name, r.value.version);
      }
    }

    /** Delete: whether the row was there, and whether the file follows. */
    method Delete(name: string, version: string, good: nat) returns (found: bool, ok: bool)
      modifies this`entries, disk
      ensures found <==> name + "/" + version in old(entries)
      ensures entries == old(entries) - {name + "/" + version}
      ensures !found ==> ok && disk.file == old(disk.file) && disk.tmp == old(disk.tmp)
      ensures found ==> (ok <==> good >= 3) && disk.file == if good >= 2 then Some(entries) else old(disk.file)
      ensures old(Keyed(entries)) ==> Keyed(entries)
    {
      var key := Key(name, version);
      found := key in entries;
      if !found {
        return false, true;
      }
      entries := entries - {key};
      ok := Persist(good);
    }

    /** List: every row once, by name and then by version, both ascending. */
    method List() returns (out: seq<Entry>)
      ensures Ordered(out) && |out| == |entries|
      ensures forall i, j | 0 <= i < j < |out| && out[i].name != out[j].name :: Json.Le(out[i].name, out[j].name)
      ensures forall i, j | 0 <= i < j < |out| && out[i].name == out[j].name :: Json.Le(out[i].version, out[j].version)
      ensures forall e :: e in out <==> exists k :: k in entries && entries[k] == e
      ensures Keyed(entries) ==> DistinctRows(out)
    {
      var rows := GatherRows(entries);
      out := SortRows(rows);
      SameElements(rows, out);
      forall i, j | 0 <= i < j < |out|
        ensures Json.Le(out[i].name, out[j].name)
        ensures out[i].name == out[j].name ==> Json.Le(out[i].version, out[j].version)
      {
        OrderedIsAscending(out[i], out[j]);
      }
    }
  }

  lemma OrderedIsAscending(a: Entry, b: Entry)
    requires !Before(b, a)
    ensures Json.Le(a.name, b.name) && (a.name == b.name ==> Json.Le(a.version, b.version))
  {
    Json.LeTotal(a.name, b.name);
    Json.LeTotal(a.version, b.version);
  }

  /** What Put stored comes back from Get, whatever the file operations did; from a
      registry opened on the same file it comes back when the Put returned success. */
  method PutThenGet(r: Registry, e: Entry, good: nat) returns (ok: bool, row: Option<Entry>, again: Option<Entry>)
    requires e.name != "" && e.version != ""
    modifies r`entries, r.disk
    ensures row.Some? && row.value.(notes := e.notes) == e
    ensures row.value.notes == if |e.notes| <= 4096 then e.notes else e.notes[..4096]
    ensures ok ==> again == row
  {
    ok := r.Put(e, good);
    row := r.Get(e.name, e.version);
    var reopened := new Registry.Open(r.disk);
    again := reopened.Get(e.name, e.version);
  }

  lemma SameElements(a: seq<Entry>, b: seq<Entry>)
    requires multiset(a) == multiset(b)
    ensures |a| == |b| && (forall e :: e in a <==> e in b) && (DistinctRows(a) ==> DistinctRows(b))
  {
    assert |multiset(a)| == |a| && |multiset(b)| == |b|;
    forall e ensures e in a <==> e in b { assert e in multiset(a) <==> e in a; assert e in multiset(b) <==> e in b; }
    if DistinctRows(a) {
      forall i, j | 0 <= i < j < |b| ensures b[i].name != b[j].name || b[i].version != b[j].version {
        if b[i].name == b[j].name && b[i].version == b[j].version { OneRow(a, b, i, j); }
      }
    }
  }

  lemma OneRow(a: seq<Entry>, b: seq<Entry>, i: nat, j: nat)
    requires multiset(a) == multiset(b) && DistinctRows(a) && i < j < |b|
    ensures b[i].name != b[j].name || b[i].version != b[j].version
  {
    assert b[i] in multiset(b) && b[j] in multiset(b);
    var k :| 0 <= k < |a| && a[k] == b[i];
    var l :| 0 <= l < |a| && a[l] == b[j];
    if k == l {
      Twice(b, i, j);
      Once(a, k);
    }
  }

  lemma Twice(b: seq<Entry>, i: nat, j: nat)
    requires i < j < |b| && b[i] == b[j]
    ensures multiset(b)[b[i]] >= 2
  {
    assert b == b[..j] + b[j..];
    assert b[i] in b[..j] && b[j] in b[j..];
  }

  lemma Once(a: seq<Entry>, k: nat)
    requires k < |a| && DistinctRows(a)
    ensures multiset(a)[a[k]] == 1
  {
    var rest := a[k + 1..];
    assert a == a[..k] + [a[k]] + rest;
    assert a[k] !in a[..k];
    forall m | 0 <= m < |rest| ensures rest[m] != a[k] { assert rest[m] == a[k + 1 + m]; }
  }
}
