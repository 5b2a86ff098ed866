/** LocalCache on the heap: a doubly linked list of entries, a map into its elements,
    a byte count and the directory tree; it refines the recency sequence of CacheSpec. */
module LruCache {
  import opened Wrappers
  import opened Int64
  import opened CacheSpec

  class Element {
    var prev: Element?
    var next: Element?
    const key: string
    const path: string
    var size: int

    constructor (key: string, path: string, size: int)
      ensures this.key == key && this.path == path && this.size == size
    {
      this.key, this.path, this.size := key, path, size;
      prev, next := null, null;
    }
  }

  lemma DropAt(was: seq<Element>, i: nat, rest: seq<Element>)
    requires i < |was| && rest == was[..i] + was[i + 1..]
    ensures |rest| == |was| - 1
    ensures (forall k | 0 <= k < i :: rest[k] == was[k]) && forall k | i <= k < |rest| :: rest[k] == was[k + 1]
  {
  }

  /** container/list: front is most recent. */
  class List {
    var front: Element?
    var back: Element?
    ghost var elems: seq<Element>
    ghost var Repr: set<Element>  // every element ever pushed

    ghost predicate Valid()
      reads this, Repr`prev, Repr`next
    {
      && (forall i | 0 <= i < |elems| :: elems[i] in Repr) && DistinctElements(elems)
      && front == (if elems == [] then null else elems[0])
      && back == (if elems == [] then null else elems[|elems| - 1])
      && (forall i {:trigger elems[i].prev} | 0 <= i < |elems| :: elems[i].prev == if i == 0 then null else elems[i - 1])
      && (forall i {:trigger elems[i].next} | 0 <= i < |elems| ::
            elems[i].next == if i == |elems| - 1 then null else elems[i + 1])
    }

    constructor ()
      ensures Valid() && elems == [] && Repr == {}
    {
      front, back, elems, Repr := null, null, [], {};
    }

    method Remove(e: Element, ghost i: nat)
      requires Valid() && i < |elems| && elems[i] == e
      modifies this, Repr`prev, Repr`next
      ensures Valid() && elems == old(elems)[..i] + old(elems)[i + 1..] && Repr == old(Repr)
    {
      ghost var was := elems;
      if e.prev == null {
        front := e.next;
      } else {
        e.prev.next := e.next;
      }
      if e.next == null {
        back := e.prev;
      } else {
        e.next.prev := e.prev;
      }
      elems := was[..i] + was[i + 1..];
      DropAt(was, i, elems);
      forall k | 0 <= k < |elems| ensures elems[k].prev == if k == 0 then null else elems[k - 1] {
        assert elems[k] == was[if k < i then k else k + 1];
      }
      forall k | 0 <= k < |elems| ensures elems[k].next == if k == |elems| - 1 then null else elems[k + 1] {
        assert elems[k] == was[if k < i then k else k + 1];
      }
    }

    method RemoveBack(e: Element)
      requires Valid() && elems != [] && elems[|elems| - 1] == e
      modifies this, Repr`prev, Repr`next
      ensures Valid() && elems == old(elems)[..|old(elems)| - 1] && Repr == old(Repr)
      ensures Entries(elems) == old(Entries(elems[..|elems| - 1])) && (old(Sized(elems[..|elems| - 1])) ==> Sized(elems))
    {
      ghost var was := elems;
      Remove(e, |elems| - 1);
      assert elems == was[..|was| - 1];
    }

    method PushFront(e: Element)
      requires Valid() && e !in elems
      modifies this, Repr`prev, Repr`next, e`prev, e`next
      ensures Valid() && elems == [e] + old(elems) && Repr == old(Repr) + {e}
    {
      e.prev, e.next := null, front;
      if front == null {
        back := e;
      } else {
        front.prev := e;
      }
      front := e;
      elems, Repr := [e] + elems, Repr + {e};
    }

    /** PushFront and the values it keeps. */
    method PushNew(e: Element)
      requires Valid() && e !in elems
      modifies this, Repr`prev, Repr`next, e`prev, e`next
      ensures Valid() && elems == [e] + old(elems) && Repr == old(Repr) + {e}
      ensures Entries(elems) == old(Entries([e] + elems)) && (old(Sized([e] + elems)) ==> Sized(elems))
    {
      PushFront(e);
    }

    method MoveToFront(e: Element, ghost i: nat)
      requires Valid() && i < |elems| && elems[i] == e
      modifies this, Repr`prev, Repr`next
      ensures Valid() && elems == [e] + old(elems)[..i] + old(elems)[i + 1..] && Repr == old(Repr)
    {
      ghost var rest := elems[..i] + elems[i + 1..];
      ghost var now := [e] + elems[..i] + elems[i + 1..];
      assert now == [e] + rest;
      assert e !in rest by {
        assert forall x | x in rest :: x in elems[..i] || x in elems[i + 1..];
      }
      Remove(e, i);
      PushFront(e);
    }
  }

  /** The values held by a list of elements. */
  ghost function Entries(es: seq<Element>): (r: seq<Entry>)
    reads es`size
    ensures |r| == |es| && forall i | 0 <= i < |es| :: r[i] == Entry(es[i].key, es[i].path, es[i].size)
  {
    if es == [] then []
    else Entries(es[..|es| - 1]) + [Entry(es[|es| - 1].key, es[|es| - 1].path, es[|es| - 1].size)]
  }

  /** `before` records the values of `es`. */
  ghost predicate Records(es: seq<Element>, before: seq<Entry>)
    reads es`size
  {
    |before| == |es| && forall i | 0 <= i < |es| :: before[i] == Entry(es[i].key, es[i].path, es[i].size)
  }

  lemma RecordsIsEntries(es: seq<Element>, before: seq<Entry>)
    ensures Records(es, before) <==> before == Entries(es)
  {
  }

  lemma PushedEntries(es: seq<Element>, e: Element)
    ensures Entries([e] + es) == [Entry(e.key, e.path, e.size)] + Entries(es)
    ensures Sized(es) && 0 <= e.size <= MAX_INT64 ==> Sized([e] + es)
  {
    RecordsIsEntries([e] + es, [Entry(e.key, e.path, e.size)] + Entries(es));
  }

  lemma MovedEntries(was: seq<Element>, i: nat, before: seq<Entry>)
    requires i < |was| && Records(was, before)
    ensures Entries([was[i]] + was[..i] + was[i + 1..]) == [before[i]] + Without(before, i)
  {
    var now := [was[i]] + was[..i] + was[i + 1..];
    RecordsIsEntries(now, [before[i]] + Without(before, i));
  }

  /** The map and the list index the same elements: every element is under its key,
      and there are as many keys as elements. */
  ghost predicate Indexed(byKey: map<string, Element>, es: seq<Element>) {
    |byKey| == |es| && forall i | 0 <= i < |es| :: es[i].key in byKey && byKey[es[i].key] == es[i]
  }

  ghost predicate DistinctElements(es: seq<Element>) {
    forall i, j | 0 <= i < j < |es| :: es[i] != es[j]
  }

  /** Taking an element's key out of the map takes exactly that element out. */
  lemma DropIndex(byKey: map<string, Element>, es: seq<Element>, i: nat)
    requires Indexed(byKey, es) && DistinctElements(es) && i < |es|
    ensures Indexed(byKey - {es[i].key}, es[..i] + es[i + 1..])
  {
    assert (byKey - {es[i].key}).Keys == byKey.Keys - {es[i].key};
    var rest := es[..i] + es[i + 1..];
    forall j | 0 <= j < |rest| ensures rest[j].key in byKey - {es[i].key} && byKey[rest[j].key] == rest[j] {
      assert rest[j] == if j < i then es[j] else es[j + 1];
    }
  }

  lemma AddIndex(byKey: map<string, Element>, es: seq<Element>, e: Element)
    requires Indexed(byKey, es) && e.key !in byKey
    ensures Indexed(byKey[e.key := e], [e] + es)
  {
    assert byKey[e.key := e].Keys == byKey.Keys + {e.key};
  }

  /** Every key in the map leads to an element of the list. */
  lemma {:induction false} IndexedIsOnto(byKey: map<string, Element>, es: seq<Element>, key: string)
    requires Indexed(byKey, es) && DistinctElements(es) && key in byKey
    ensures exists i :: 0 <= i < |es| && es[i] == byKey[key] && es[i].key == key
  {
    assert |byKey| == 0 ==> byKey == map[];
    if es != [] {
      var n := |es| - 1;
      if es[n].key != key {
        DropIndex(byKey, es, n);
        assert es[..n] + es[n + 1..] == es[..n];
        IndexedIsOnto(byKey - {es[n].key}, es[..n], key);
      }
    }
  }

  lemma SameIndex(byKey: map<string, Element>, es: seq<Element>, i: nat)
    requires Indexed(byKey, es) && i < |es|
    ensures Indexed(byKey, [es[i]] + es[..i] + es[i + 1..])
  {
    var now := [es[i]] + es[..i] + es[i + 1..];
    forall j | 0 <= j < |now| ensures now[j].key in byKey && byKey[now[j].key] == now[j] {
      assert now[j] == if j == 0 then es[i] else if j - 1 < i then es[j - 1] else es[j];
    }
  }

  ghost predicate Sized(es: seq<Element>)
    reads es`size
  {
    forall i | 0 <= i < |es| :: 0 <= es[i].size <= MAX_INT64
  }

  /** Assigning an element's size changes the recorded values there and nowhere else. */
  method SetElementSize(el: Element, size: int, ghost es: seq<Element>, ghost i: nat)
    requires DistinctElements(es) && i < |es| && es[i] == el
    modifies el`size
    ensures Entries(es) == old(Entries(es))[i := old(Entries(es))[i].(size := size)]
    ensures old(Sized(es)) && 0 <= size <= MAX_INT64 ==> Sized(es)
  {
    ghost var before := Entries(es);
    el.size := size;
    RecordsIsEntries(es, before[i := before[i].(size := size)]);
  }

  /** The new size of an entry, in the count and in the entry. */
  function Reweighed(c: Cache, i: nat, size: int): Cache
    requires i < |c.entries|
  {
    c.(entries := c.entries[i := c.entries[i].(size := size)],
       bytes := Wrap64(Wrap64(c.bytes - c.entries[i].size) + size))
  }

  lemma ResizedInTwoSteps(c: Cache, i: nat, size: int)
    requires i < |c.entries|
    ensures Touched(Reweighed(c, i, size), i) == Resized(c, i, size)
  {
    assert Without(Reweighed(c, i, size).entries, i) == Without(c.entries, i);
  }

  datatype InsertResult = Inserted | InvalidName | NotMeasured | TooBig

  class LocalCache {
    const base: string     // the cleaned Root with its separator
    const maxBytes: int
    const order: List
    var bytes: int
    var byKey: map<string, Element>
    var dirs: set<string>  // the directories on disk

    ghost predicate Valid()
      reads this, order, order.Repr
    {
      && order.Valid() && Sized(order.elems) && 0 < maxBytes <= MAX_INT64 && -MAX_INT64 - 1 <= bytes <= MAX_INT64
      && Indexed(byKey, order.elems)
    }

    ghost function View(): Cache
      reads this, order, order.elems
    {
      Cache(Entries(order.elems), bytes, dirs)
    }

    constructor (base: string, maxBytes: int, dirs: set<string>)
      requires 0 < maxBytes <= MAX_INT64
      ensures Valid() && fresh(order) && fresh(order.Repr) && View() == Cache([], 0, dirs)
      ensures this.base == base && this.maxBytes == maxBytes
    {
      this.base, this.maxBytes, this.dirs := base, maxBytes, dirs;
      order := new List();
      bytes, byKey := 0, map[];
    }

    /** Looking a key up in the map finds its element in the list. */
    lemma Lookup(key: string)
      requires Valid()
      ensures key !in byKey ==> Find(View().entries, key) == None
      ensures key in byKey ==>
                var i := Find(View().entries, key);
                i.Some? && i.value < |order.elems| && order.elems[i.value] == byKey[key]
    {
      var f := Find(View().entries, key);
      if f.Some? {
        assert order.elems[f.value].key == key;
      }
      if key in byKey {
        IndexedIsOnto(byKey, order.elems, key);
        var j :| 0 <= j < |order.elems| && order.elems[j] == byKey[key] && order.elems[j].key == key;
        assert View().entries[j] in View().entries;
      }
    }

    /** A hit: the element moves to the front. */
    method Touch(el: Element, ghost i: nat)
      requires Valid() && i < |order.elems| && order.elems[i] == el
      modifies order, order.Repr`prev, order.Repr`next
      ensures Valid() && View() == Touched(old(View()), i)
      ensures order.elems == [el] + old(order.elems)[..i] + old(order.elems)[i + 1..]
      ensures order.Repr == old(order.Repr)
    {
      ghost var was, before := order.elems, View();
      MovedView(was, i, before);
      SameIndex(byKey, was, i);
      order.MoveToFront(el, i);
    }

    lemma MovedView(was: seq<Element>, i: nat, before: Cache)
      requires i < |was| && Records(was, before.entries)
      ensures before.(entries := Entries([was[i]] + was[..i] + was[i + 1..])) == Touched(before, i)
    {
      MovedEntries(was, i, before.entries);
    }

    method Get(name: string, version: string) returns (r: Option<string>)
      requires Valid()
      modifies order, order.Repr`prev, order.Repr`next
      ensures Valid()
      ensures if ValidComponent(name) && ValidComponent(version)
              then (View(), r) == CacheSpec.Get(old(View()), CacheKey(name, version))
              else View() == old(View()) && r == None
      ensures r.Some? <==> ValidComponent(name) && ValidComponent(version) && name + "/" + version in byKey
      ensures r.None? ==> order.elems == old(order.elems)
      ensures r.Some? ==>
                exists i :: 0 <= i < |old(order.elems)| && old(order.elems)[i] == byKey[name + "/" + version] &&
                            r == Some(old(order.elems)[i].path) &&
                            order.elems == [old(order.elems)[i]] + old(order.elems)[..i] + old(order.elems)[i + 1..]
      ensures order.Repr == old(order.Repr)
    {
      if !ValidComponent(name) || !ValidComponent(version) {
        return None;
      }
      var key := CacheKey(name, version);
      Lookup(key);
      if key !in byKey {
        return None;
      }
      var el := byKey[key];
      Touch(el, Find(View().entries, key).value);
      r := Some(el.path);
    }

    /** One call of a run, or a change to the tree behind the cache's back. */
    method Perform(call: Call)
      requires Valid()
      requires call.InsertCall? && call.measured.Some? ==> 0 <= call.measured.value <= MAX_INT64
      modifies this`bytes, this`byKey, this`dirs, order, order.Repr
      ensures Valid() && fresh(order.Repr - old(order.Repr))
      ensures View() == if OpOf(call) == [] then old(View()) else Do(old(View()), maxBytes, base, OpOf(call)[0])
    {
      match call {
        case GetCall(n, v) => var path := Get(n, v);
        case InsertCall(n, v, m) => var r := Insert(n, v, m);
        case Populated(dir) => SetTree(dirs + {dir});
        case Vanished(dir) => SetTree(RemoveAll(dirs, dir));
      }
    }

    /** The rest of the program at work on the tree. */
    method SetTree(now: set<string>)
      requires Valid()
      modifies this`dirs
      ensures Valid() && View() == old(View()).(dirs := now)
    {
      dirs := now;
    }

    /** evictOneLocked */
    method EvictOne()
      requires Valid()
      modifies this`bytes, this`byKey, this`dirs, order, order.Repr`prev, order.Repr`next
      ensures Valid() && View() == CacheSpec.EvictOne(old(View()))
      ensures order.Repr == old(order.Repr) && byKey.Keys <= old(byKey.Keys) && order.elems <= old(order.elems)
    {
      var tail := order.back;
      if tail == null {
        assert View().entries == [];
        return;
      }
      Forget(tail);
      order.RemoveBack(tail);
    }

    /** Everything an eviction does but unlinking the element. */
    method Forget(tail: Element)
      requires Valid() && order.elems != [] && tail == order.elems[|order.elems| - 1]
      modifies this`bytes, this`byKey, this`dirs
      ensures Indexed(byKey, order.elems[..|order.elems| - 1]) && -MAX_INT64 - 1 <= bytes <= MAX_INT64
      ensures Sized(order.elems[..|order.elems| - 1]) && byKey.Keys <= old(byKey.Keys)
      ensures Cache(Entries(order.elems[..|order.elems| - 1]), bytes, dirs) == CacheSpec.EvictOne(old(View()))
    {
      LastOf(order.elems, byKey, bytes);
      EvictedView(View(), Entries(order.elems[..|order.elems| - 1]), Entry(tail.key, tail.path, tail.size));
      byKey, bytes, dirs := byKey - {tail.key}, Wrap64(bytes - tail.size), RemoveAll(dirs, tail.path);
    }

    lemma EvictedView(c: Cache, rest: seq<Entry>, e: Entry)
      requires c.entries != [] && c.entries[..|c.entries| - 1] == rest && c.entries[|c.entries| - 1] == e
      ensures CacheSpec.EvictOne(c) == Cache(rest, Wrap64(c.bytes - e.size), RemoveAll(c.dirs, e.path))
    {
    }

    lemma LastOf(es: seq<Element>, byKey: map<string, Element>, bytes: int)
      requires es != [] && Indexed(byKey, es) && Sized(es) && DistinctElements(es)
      requires -MAX_INT64 - 1 <= bytes <= MAX_INT64
      ensures var rest, tail := es[..|es| - 1], es[|es| - 1];
              && Indexed(byKey - {tail.key}, rest) && Sized(rest) && Entries(rest) == Entries(es)[..|es| - 1]
              && Entries(es)[|es| - 1] == Entry(tail.key, tail.path, tail.size)
              && -MAX_INT64 - 1 <= Wrap64(bytes - tail.size) <= MAX_INT64
    {
      DropIndex(byKey, es, |es| - 1);
      assert es[..|es| - 1] + es[|es|..] == es[..|es| - 1];
    }

    /** The eviction loops of Insert and evictLocked. */
    method EvictFor(more: int)
      requires Valid()
      modifies this`bytes, this`byKey, this`dirs, order, order.Repr`prev, order.Repr`next
      ensures Valid() && View() == CacheSpec.EvictFor(old(View()), maxBytes, more)
      ensures order.Repr == old(order.Repr) && byKey.Keys <= old(byKey.Keys) && order.elems <= old(order.elems)
    {
      ghost var goal := CacheSpec.EvictFor(View(), maxBytes, more);
      while Wrap64(bytes + more) > maxBytes && order.back != null
        invariant Valid() && order.Repr == old(order.Repr)
        invariant byKey.Keys <= old(byKey.Keys) && order.elems <= old(order.elems)
        invariant CacheSpec.EvictFor(View(), maxBytes, more) == goal
        decreases |order.elems|
      {
        EvictTowards(more, goal);
      }
      NoMoreToEvict(View(), maxBytes, more);
    }

    lemma NoMoreToEvict(c: Cache, max: int, more: int)
      ensures Wrap64(c.bytes + more) <= max || c.entries == [] ==> CacheSpec.EvictFor(c, max, more) == c
    {
    }

    /** One round of an eviction loop that is to end in `goal`. */
    method EvictTowards(ghost more: int, ghost goal: Cache)
      requires Valid() && Wrap64(bytes + more) > maxBytes && order.back != null
      requires CacheSpec.EvictFor(View(), maxBytes, more) == goal
      modifies this`bytes, this`byKey, this`dirs, order, order.Repr`prev, order.Repr`next
      ensures Valid() && CacheSpec.EvictFor(View(), maxBytes, more) == goal && |order.elems| < |old(order.elems)|
      ensures order.Repr == old(order.Repr) && byKey.Keys <= old(byKey.Keys) && order.elems <= old(order.elems)
    {
      EvictOne();
    }

    /** Insert with the outcome of DirSize, measured before the lock is taken. */
    method Insert(name: string, version: string, measured: Option<int>) returns (r: InsertResult)
      requires Valid() && (measured.Some? ==> 0 <= measured.value <= MAX_INT64)
      modifies this`bytes, this`byKey, this`dirs, order, order.Repr
      ensures Valid()
      ensures r == if !ValidComponent(name) || !ValidComponent(version) then InvalidName
                   else if measured.None? then NotMeasured
                   else if measured.value > maxBytes then TooBig else Inserted
      ensures if r == Inserted
              then (View(), true) == CacheSpec.Insert(old(View()), maxBytes, CacheKey(name, version),
                                                      Path(base, CacheKey(name, version)), measured.value)
              else View() == old(View())
      ensures fresh(order.Repr - old(order.Repr))
    {
      if !ValidComponent(name) || !ValidComponent(version) {
        return InvalidName;
      }
      if measured.None? {
        return NotMeasured;
      }
      var size := measured.value;
      if size > maxBytes {
        return TooBig;
      }
      var key := CacheKey(name, version);
      Lookup(key);
      if key in byKey {
        Replace(key, size, Find(View().entries, key).value);
      } else {
        Add(key, size);
      }
      r := Inserted;
    }

    method Replace(key: string, size: int, ghost i: nat)
      requires Valid() && key in byKey && i < |order.elems| && order.elems[i] == byKey[key] && 0 <= size <= MAX_INT64
      modifies this`bytes, this`byKey, this`dirs, order, order.Repr
      ensures Valid() && order.Repr == old(order.Repr)
      ensures View() == CacheSpec.EvictFor(Resized(old(View()), i, size), maxBytes, 0)
    {
      Resize(byKey[key], size, i);
      EvictFor(0);
    }

    method Add(key: string, size: int)
      requires Valid() && key !in byKey && 0 <= size <= MAX_INT64
      modifies this`bytes, this`byKey, this`dirs, order, order.Repr`prev, order.Repr`next
      ensures Valid() && fresh(order.Repr - old(order.Repr))
      ensures View() == Pushed(CacheSpec.EvictFor(old(View()), maxBytes, size), Entry(key, Path(base, key), size))
    {
      var el := new Element(key, Path(base, key), size);
      assert View() == old(View()) && el !in order.elems;
      AddElement(el);
    }

    method AddElement(el: Element)
      requires Valid() && el.key !in byKey && el !in order.elems && 0 <= el.size <= MAX_INT64
      modifies this`bytes, this`byKey, this`dirs, order, order.Repr`prev, order.Repr`next, el`prev, el`next
      ensures Valid() && order.Repr == old(order.Repr) + {el}
      ensures View() == Pushed(CacheSpec.EvictFor(old(View()), maxBytes, el.size), Entry(el.key, el.path, el.size))
    {
      EvictFor(el.size);
      AddFront(el);
    }

    /** The replace branch: adjust the count, the entry and its recency. */
    method Resize(el: Element, size: int, ghost i: nat)
      requires Valid() && i < |order.elems| && order.elems[i] == el && 0 <= size <= MAX_INT64
      modifies this`bytes, order, order.Repr
      ensures Valid()
      ensures View() == Resized(old(View()), i, size)
      ensures order.Repr == old(order.Repr)
    {
      ResizedInTwoSteps(View(), i, size);
      SetSize(el, size, i);
      Touch(el, i);
    }

    method SetSize(el: Element, size: int, ghost i: nat)
      requires Valid() && i < |order.elems| && order.elems[i] == el && 0 <= size <= MAX_INT64
      modifies this`bytes, el`size
      ensures Valid() && order.elems == old(order.elems)
      ensures View() == Reweighed(old(View()), i, size)
    {
      var b := Wrap64(bytes - el.size);
      bytes := Wrap64(b + size);
      SetElementSize(el, size, order.elems, i);
    }

    /** The insert branch: a new element in front. */
    method AddFront(el: Element)
      requires Valid() && el.key !in byKey && el !in order.elems && 0 <= el.size <= MAX_INT64
      modifies this`bytes, this`byKey, order, order.Repr`prev, order.Repr`next, el`prev, el`next
      ensures Valid()
      ensures View() == Pushed(old(View()), Entry(el.key, el.path, el.size))
      ensures order.Repr == old(order.Repr) + {el}
    {
      Record(el);
      order.PushNew(el);
    }

    /** Everything an insertion does but linking the element. */
    method Record(el: Element)
      requires Valid() && el.key !in byKey && 0 <= el.size <= MAX_INT64
      modifies this`bytes, this`byKey
      ensures Indexed(byKey, [el] + order.elems) && -MAX_INT64 - 1 <= bytes <= MAX_INT64
      ensures Sized([el] + order.elems)
      ensures Cache(Entries([el] + order.elems), bytes, dirs) ==
              Pushed(old(View()), Entry(el.key, el.path, el.size))
    {
      PushedEntries(order.elems, el);
      AddIndex(byKey, order.elems, el);
      byKey, bytes := byKey[el.key := el], Wrap64(bytes + el.size);
    }
  }

  /** What the program does with a cache and its tree: a Get, an Insert with the outcome
      of its measuring, and directories that come and go. */
  datatype Call =
    | GetCall(name: string, version: string) | InsertCall(name: string, version: string, measured: Option<int>)
    | Populated(dir: string) | Vanished(dir: string)

  /** The calls that reach the cache, as operations on the recency sequence. */
  function OpsOf(calls: seq<Call>): seq<Op> {
    if calls == [] then []
    else OpsOf(calls[..|calls| - 1]) + OpOf(calls[|calls| - 1])
  }

  function OpOf(call: Call): seq<Op> {
    match call
    case GetCall(n, v) => if ValidComponent(n) && ValidComponent(v) then [DoGet(CacheKey(n, v))] else []
    case InsertCall(n, v, m) =>
      if ValidComponent(n) && ValidComponent(v) && m.Some? then [DoInsert(CacheKey(n, v), m.value)] else []
    case Populated(dir) => [CacheSpec.Populate(dir)]
    case Vanished(dir) => [CacheSpec.Vanish(dir)]
  }

  /** Over every run of calls on a new cache, list, map, count and tree stay those of the
      recency sequence. */
  method Drive(base: string, maxBytes: int, calls: seq<Call>) returns (c: LocalCache)
    requires 0 < maxBytes <= MAX_INT64
    requires forall call <- calls :: call.InsertCall? && call.measured.Some? ==> 0 <= call.measured.value <= MAX_INT64
    ensures fresh(c) && c.Valid() && c.View() == Run(maxBytes, base, OpsOf(calls))
  {
    c := new LocalCache(base, maxBytes, {});
    for i := 0 to |calls|
      invariant c.Valid() && c.base == base && c.maxBytes == maxBytes && fresh(c.order) && fresh(c.order.Repr)
      invariant c.View() == Run(maxBytes, base, OpsOf(calls[..i]))
    {
      assert calls[i] in calls;
      OneCallMore(calls, i);
      DriveOne(c, OpsOf(calls[..i]), calls[i]);
    }
    assert calls[..|calls|] == calls;
  }

  lemma OneCallMore(calls: seq<Call>, i: nat)
    requires i < |calls|
    ensures OpsOf(calls[..i + 1]) == OpsOf(calls[..i]) + OpOf(calls[i])
  {
    assert calls[..i + 1][..i] == calls[..i];
  }

  method DriveOne(c: LocalCache, ghost ops: seq<Op>, call: Call)
    requires c.Valid() && c.View() == Run(c.maxBytes, c.base, ops)
    requires call.InsertCall? && call.measured.Some? ==> 0 <= call.measured.value <= MAX_INT64
    modifies c`bytes, c`byKey, c`dirs, c.order, c.order.Repr
    ensures c.Valid() && c.View() == Run(c.maxBytes, c.base, ops + OpOf(call))
    ensures fresh(c.order.Repr - old(c.order.Repr))
  {
    OneOpMore(c.maxBytes, c.base, ops, call);
    c.Perform(call);
  }

  lemma OneOpMore(max: int, base: string, ops: seq<Op>, call: Call)
    ensures Run(max, base, ops + OpOf(call)) ==
            if OpOf(call) == [] then Run(max, base, ops) else Do(Run(max, base, ops), max, base, OpOf(call)[0])
  {
    if OpOf(call) == [] {
      assert ops + [] == ops;
    } else {
      RunMore(max, base, ops, OpOf(call)[0]);
    }
  }
}
