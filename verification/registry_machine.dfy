/** The template registry: a map in memory under a mutex, and a JSON file replaced by
    write and rename. Calls interleave, any file operation may fail, and the process may
    crash anywhere; the file is then all that is left. */
module RegistryMachine {
  import opened Wrappers
  import opened Utf8
  import opened TemplateKey

  datatype Entry = Entry(
    name: string, version: string, vcpus: int, memMiB: int, memFile: string, stateFile: string,
    manifestKey: string, bucket: string, createdAt: int, notes: Bytes, secret: string)

  type Entries = map<string, Entry>

  const MAX_NOTES: nat := 4096

  /** Put rejects an entry without a name or a version. */
  predicate Acceptable(e: Entry) {
    e.name != "" && e.version != ""
  }

  /** Put cuts long notes. */
  function Trimmed(e: Entry): Entry {
    if |e.notes| > MAX_NOTES then e.(notes := e.notes[..MAX_NOTES]) else e
  }

  // ----------------------------------------------------------------- updates

  /** The change one call makes to the map. */
  datatype Update = Set(e: Entry) | Drop(key: string)

  function KeyOf(u: Update): string {
    match u
    case Set(e) => Key(e.name, e.version)
    case Drop(key) => key
  }

  function Apply1(m: Entries, u: Update): Entries {
    match u
    case Set(e) => m[KeyOf(u) := e]
    case Drop(key) => m - {key}
  }

  function Replay(init: Entries, log: seq<Update>): Entries {
    if log == [] then init else Apply1(Replay(init, log[..|log| - 1]), log[|log| - 1])
  }

  /** `m` has what update `u` did to its key. */
  predicate Reflects(m: Entries, u: Update) {
    match u
    case Set(e) => KeyOf(u) in m && m[KeyOf(u)] == e
    case Drop(key) => key !in m
  }

  /** A replayed update shows, unless a later one changed its key again. */
  lemma {:induction false} ReflectedUnlessOverridden(init: Entries, log: seq<Update>, k: nat)
    requires k < |log|
    ensures Reflects(Replay(init, log), log[k]) || exists j :: k < j < |log| && KeyOf(log[j]) == KeyOf(log[k])
  {
    var n := |log| - 1;
    if k < n {
      ReflectedUnlessOverridden(init, log[..n], k);
      if !(exists j :: k < j < |log| && KeyOf(log[j]) == KeyOf(log[k])) {
        forall j | k < j < n ensures KeyOf(log[..n][j]) != KeyOf(log[k]) { assert log[..n][j] == log[j]; }
        assert KeyOf(log[n]) != KeyOf(log[k]);
      } 
    }
  }

  // ----------------------------------------------------------------- machine

  /** The temporary file beside the registry. */
  datatype Tmp = Absent | Torn | Full(doc: Entries)

  /** `u` is the update the call made, `v` the number of updates up to it. */
  datatype Pc =
    | PutStart(e: Entry) | DeleteStart(key: string)
    | Updated(v: nat, u: Update)                  // the map is changed, persist not begun
    | Writing(v: nat, u: Update, doc: Entries)    // persist holds the mutex
    | Renaming(v: nat, u: Update, doc: Entries)
    | Chmodding(v: nat, u: Update)
    | Returned(v: nat, u: Update, ok: bool) | Absentee | Rejected

  /** `disk` is the registry file, None before the first persist. `init` and `log` tell
      how the map came about since the registry was first opened; `saved` is how many of
      those updates the file has; `acked` the most any call that returned success made;
      `failed` whether a file operation has failed since the last start. */
  datatype State = State(
    entries: Entries, lock: Option<nat>, disk: Option<Entries>, tmp: Tmp, threads: seq<Pc>,
    init: Entries, log: seq<Update>, saved: nat, acked: nat, failed: bool)

  datatype Event = Put(e: Entry) | Delete(name: string, version: string) | Step(t: nat, ok: bool) | Crash

  /** OpenRegistry: no file reads as the empty registry. */
  function Open(disk: Option<Entries>): Entries {
    if disk.Some? then disk.value else map[]
  }

  function Opened(disk: Option<Entries>, tmp: Tmp): State {
    State(Open(disk), None, disk, tmp, [], Open(disk), [], 0, 0, false)
  }

  function Become(s: State, t: nat, pc: Pc): State
    requires t < |s.threads|
  {
    s.(threads := s.threads[t := pc])
  }

  /** The critical section of Put and Delete. */
  function Change(s: State, t: nat, u: Update): State
    requires t < |s.threads|
  {
    Become(s.(entries := Apply1(s.entries, u), log := s.log + [u]), t, Updated(|s.log| + 1, u))
  }

  /** A failed file operation ends persist and releases the mutex. */
  function GiveUp(s: State, t: nat, v: nat, u: Update): State
    requires t < |s.threads|
  {
    Become(s.(lock := None, failed := true), t, Returned(v, u, false))
  }

  function StepThread(s: State, t: nat, ok: bool): State
    requires t < |s.threads|
  {
    match s.threads[t]
    case PutStart(e) =>
      if !Acceptable(e) then Become(s, t, Rejected)
      else if s.lock.Some? then s
      else Change(s, t, Set(Trimmed(e)))
    case DeleteStart(key) =>
      if s.lock.Some? then s
      else if key !in s.entries then Become(s, t, Absentee)
      else Change(s, t, Drop(key))
    case Updated(v, u) =>
      if s.lock.Some? then s else Become(s.(lock := Some(t)), t, Writing(v, u, s.entries))
    case Writing(v, u, doc) =>
      if ok then Become(s.(tmp := Full(doc)), t, Renaming(v, u, doc)) else GiveUp(s.(tmp := Torn), t, v, u)
    case Renaming(v, u, doc) =>
      if ok && s.tmp.Full? then
        Become(s.(disk := Some(s.tmp.doc), tmp := Absent, saved := |s.log|), t, Chmodding(v, u))
      else GiveUp(s, t, v, u)
    case Chmodding(v, u) =>
      if ok then Become(s.(lock := None, acked := if v > s.acked then v else s.acked), t, Returned(v, u, true))
      else GiveUp(s, t, v, u)
    case _ => s
  }

  function Apply(s: State, e: Event): State {
    match e
    case Put(entry) => s.(threads := s.threads + [PutStart(entry)])
    case Delete(name, version) => s.(threads := s.threads + [DeleteStart(Key(name, version))])
    case Step(t, ok) => if t < |s.threads| then StepThread(s, t, ok) else s
    case Crash =>
      s.(entries := Open(s.disk), lock := None, threads := [], failed := false,
         log := if s.saved <= |s.log| then s.log[..s.saved] else s.log)
  }

  function Exec(s: State, es: seq<Event>): State {
    if es == [] then s else Apply(Exec(s, es[..|es| - 1]), es[|es| - 1])
  }

  // --------------------------------------------------------------- invariant

  /** A call whose change has not reached the file. */
  predicate Pending(pc: Pc) {
    pc.Updated? || pc.Writing? || pc.Renaming?
  }

  predicate Persisting(pc: Pc) {
    pc.Writing? || pc.Renaming? || pc.Chmodding?
  }

  /** Update `v` of the log is `u`. */
  predicate Made(s: State, v: nat, u: Update) {
    0 < v <= |s.log| && s.log[v - 1] == u
  }

  predicate PcOk(s: State, t: nat, pc: Pc) {
    && (Persisting(pc) ==> s.lock == Some(t))
    && match pc
       case Updated(v, u) => Made(s, v, u)
       case Writing(v, u, doc) => Made(s, v, u) && doc == s.entries
       case Renaming(v, u, doc) => Made(s, v, u) && doc == s.entries && s.tmp == Full(doc)
       case Chmodding(v, u) => Made(s, v, u) && v <= s.saved
       case Returned(v, u, ok) => Made(s, v, u) && (ok ==> v <= s.acked)
       case _ => true
  }

  /** The last update is on its way to the file, unless it is there or an operation failed. */
  ghost predicate OnItsWay(s: State) {
    s.failed || s.saved == |s.log| ||
    exists t :: 0 <= t < |s.threads| && Pending(s.threads[t]) && s.threads[t].v == |s.log|
  }

  ghost predicate Inv(s: State) {
    && s.acked <= s.saved <= |s.log|
    && s.entries == Replay(s.init, s.log)
    && Open(s.disk) == Replay(s.init, s.log[..s.saved])
    && (forall t | 0 <= t < |s.threads| :: PcOk(s, t, s.threads[t]))
    && OnItsWay(s)
  }

  lemma ChangeKeepsInv(s: State, t: nat, u: Update)
    requires Inv(s) && t < |s.threads| && s.lock.None? && !Persisting(s.threads[t])
    ensures Inv(Change(s, t, u))
  {
    var r := Change(s, t, u);
    assert r.log[..|s.log|] == s.log && r.log[..s.saved] == s.log[..s.saved];
    assert Pending(r.threads[t]) && r.threads[t].v == |r.log|;
    forall k | 0 <= k < |r.threads| ensures PcOk(r, k, r.threads[k]) {
      if k != t { assert PcOk(s, k, s.threads[k]); }
    }
  }

  /** A step that touches neither the map nor the log and keeps the goroutine pending. */
  lemma StillOnItsWay(s: State, t: nat, r: State)
    requires OnItsWay(s) && t < |s.threads| && |r.threads| == |s.threads| && r.threads == s.threads[t := r.threads[t]]
    requires r.log == s.log && r.saved == s.saved && (s.failed ==> r.failed)
    requires Pending(s.threads[t]) ==> Pending(r.threads[t]) && r.threads[t].v == s.threads[t].v
    ensures OnItsWay(r)
  {
    if !s.failed && s.saved != |s.log| {
      var k :| 0 <= k < |s.threads| && Pending(s.threads[k]) && s.threads[k].v == |s.log|;
      assert Pending(r.threads[k]) && r.threads[k].v == |r.log|;
    }
  }

  lemma StepKeepsInv(s: State, t: nat, ok: bool)
    requires Inv(s) && t < |s.threads|
    ensures Inv(StepThread(s, t, ok))
  {
    if Persisting(s.threads[t]) {
      PersistKeepsInv(s, t, ok);
    } else if s.threads[t].PutStart? && Acceptable(s.threads[t].e) && s.lock.None? {
      ChangeKeepsInv(s, t, Set(Trimmed(s.threads[t].e)));
    } else if s.threads[t].DeleteStart? && s.threads[t].key in s.entries && s.lock.None? {
      ChangeKeepsInv(s, t, Drop(s.threads[t].key));
    } else {
      QuietKeepsInv(s, t, ok);
    }
  }

  /** A call that waits, ends at once, or begins its persist. */
  lemma QuietKeepsInv(s: State, t: nat, ok: bool)
    requires Inv(s) && t < |s.threads| && !Persisting(s.threads[t])
    requires StepThread(s, t, ok).entries == s.entries && StepThread(s, t, ok).log == s.log
    ensures Inv(StepThread(s, t, ok))
  {
    var r := StepThread(s, t, ok);
    assert PcOk(s, t, s.threads[t]);
    QuietStep(s, t, ok);
    StillOnItsWay(s, t, r);
    Frame(s, t, r);
  }

  lemma QuietStep(s: State, t: nat, ok: bool)
    requires t < |s.threads| && PcOk(s, t, s.threads[t]) && !Persisting(s.threads[t])
    requires StepThread(s, t, ok).entries == s.entries && StepThread(s, t, ok).log == s.log
    ensures var r := StepThread(s, t, ok);
            && |r.threads| == |s.threads|
            && r == s.(threads := s.threads[t := r.threads[t]], lock := r.lock) && (r.lock == s.lock || s.lock == None)
            && (Pending(s.threads[t]) ==> Pending(r.threads[t]) && r.threads[t].v == s.threads[t].v)
            && PcOk(r, t, r.threads[t]) && (s.lock == Some(t) ==> r.lock == s.lock)
  {
  }

  /** persist, from its lock to its unlock. */
  lemma PersistKeepsInv(s: State, t: nat, ok: bool)
    requires Inv(s) && t < |s.threads| && Persisting(s.threads[t])
    ensures Inv(StepThread(s, t, ok))
  {
    var r := StepThread(s, t, ok);
    assert PcOk(s, t, s.threads[t]);
    assert s.log[..|s.log|] == s.log;
    if !r.failed && !s.threads[t].Renaming? { StillOnItsWay(s, t, r); }
    Frame(s, t, r);
  }

  /** The other goroutines do not hold the mutex, so they keep their facts. */
  lemma Frame(s: State, t: nat, r: State)
    requires t < |s.threads| && |r.threads| == |s.threads| && r.threads == s.threads[t := r.threads[t]]
    requires forall k | 0 <= k < |s.threads| :: PcOk(s, k, s.threads[k])
    requires r.log == s.log && r.entries == s.entries && s.saved <= r.saved && s.acked <= r.acked && PcOk(r, t, r.threads[t])
    requires r.lock == s.lock || s.lock == None || s.lock == Some(t)
    requires r.lock == s.lock && s.lock != Some(t) ==> r.tmp == s.tmp
    ensures forall k | 0 <= k < |r.threads| :: PcOk(r, k, r.threads[k])
  {
    forall k | 0 <= k < |r.threads| ensures PcOk(r, k, r.threads[k]) {
      if k != t { assert PcOk(s, k, s.threads[k]); }
    }
  }

  lemma ApplyKeepsInv(s: State, e: Event)
    requires Inv(s)
    ensures Inv(Apply(s, e))
  {
    var r := Apply(s, e);
    match e
    case Put(_) => NewThread(s, r);
    case Delete(_, _) => NewThread(s, r);
    case Step(t, ok) => if t < |s.threads| { StepKeepsInv(s, t, ok); }
    case Crash => assert r.log[..s.saved] == r.log;
  }

  lemma NewThread(s: State, r: State)
    requires Inv(s) && r == s.(threads := r.threads) && |r.threads| == |s.threads| + 1 && s.threads <= r.threads
    requires PcOk(r, |s.threads|, r.threads[|s.threads|])
    ensures Inv(r)
  {
    forall k | 0 <= k < |r.threads| ensures PcOk(r, k, r.threads[k]) {
      if k < |s.threads| { assert PcOk(s, k, s.threads[k]); }
    }
    if !s.failed && s.saved != |s.log| {
      var k :| 0 <= k < |s.threads| && Pending(s.threads[k]) && s.threads[k].v == |s.log|;
      assert Pending(r.threads[k]) && r.threads[k].v == |r.log|;
    }
  }

  lemma {:induction false} ExecKeepsInv(disk: Option<Entries>, tmp: Tmp, es: seq<Event>)
    ensures Inv(Exec(Opened(disk, tmp), es))
  {
    if es == [] {
      assert Opened(disk, tmp).log[..0] == [];
    } else {
      ExecKeepsInv(disk, tmp, es[..|es| - 1]);
      ApplyKeepsInv(Exec(Opened(disk, tmp), es[..|es| - 1]), es[|es| - 1]);
    }
  }

  // ---------------------------------------------------------------- theorems

  /** At every moment of every run, crashes and I/O errors included, the file is a
      complete earlier map: the one after some number of the updates made so far. */
  lemma FileIsACompleteEarlierMap(disk: Option<Entries>, tmp: Tmp, es: seq<Event>)
    ensures var s := Exec(Opened(disk, tmp), es);
            s.saved <= |s.log| && Open(s.disk) == Replay(s.init, s.log[..s.saved]) && s.init == Open(disk)
  {
    ExecKeepsInv(disk, tmp, es);
    InitStays(Opened(disk, tmp), es);
  }

  lemma {:induction false} InitStays(s: State, es: seq<Event>)
    ensures Exec(s, es).init == s.init
  {
    if es != [] {
      InitStays(s, es[..|es| - 1]);
    }
  }

  /** While no operation has failed and no call is between its change and its persist,
      the file is the map in memory. */
  lemma FileEqualsMapWhenQuiet(disk: Option<Entries>, tmp: Tmp, es: seq<Event>)
    requires var s := Exec(Opened(disk, tmp), es);
             !s.failed && forall t | 0 <= t < |s.threads| :: !Pending(s.threads[t])
    ensures var s := Exec(Opened(disk, tmp), es); Open(s.disk) == s.entries
  {
    ExecKeepsInv(disk, tmp, es);
    var s := Exec(Opened(disk, tmp), es);
    assert s.log[..|s.log|] == s.log;
  }

  /** No run takes back an update a call returned success for. */
  lemma {:induction false} AckedUpdatesStay(s: State, es: seq<Event>)
    requires Inv(s)
    ensures var r := Exec(s, es);
            Inv(r) && s.acked <= r.acked && r.log[..s.acked] == s.log[..s.acked] && r.init == s.init
  {
    if es != [] {
      var m := Exec(s, es[..|es| - 1]);
      AckedUpdatesStay(s, es[..|es| - 1]);
      ApplyKeepsInv(m, es[|es| - 1]);
      ApplyKeepsAcked(m, es[|es| - 1]);
      var r := Exec(s, es);
      assert r.log[..s.acked] == r.log[..m.acked][..s.acked] == m.log[..m.acked][..s.acked] == m.log[..s.acked];
    }
  }

  lemma ApplyKeepsAcked(s: State, e: Event)
    requires Inv(s)
    ensures var r := Apply(s, e);
            && s.acked <= r.acked && s.acked <= |r.log| && r.log[..s.acked] == s.log[..s.acked]
            && r.init == s.init
  {
    match e
    case Step(t, ok) => if t < |s.threads| { StepKeepsAcked(s, t, ok); }
    case _ =>
  }

  lemma StepKeepsAcked(s: State, t: nat, ok: bool)
    requires s.acked <= s.saved <= |s.log| && t < |s.threads|
    ensures var r := StepThread(s, t, ok);
            s.acked <= r.acked && r.init == s.init && (r.log == s.log || exists u :: r.log == s.log + [u])
  {
    match s.threads[t]
    case PutStart(e) => assert StepThread(s, t, ok).log == s.log || StepThread(s, t, ok).log == s.log + [Set(Trimmed(e))];
    case DeleteStart(key) => assert StepThread(s, t, ok).log == s.log || StepThread(s, t, ok).log == s.log + [Drop(key)];
    case _ =>
  }

  /** The update of a Put or Delete that returned success is on disk ever after, also
      across crashes, unless a later update of the same key is. */
  lemma AcknowledgedUpdatesSurvive(disk: Option<Entries>, tmp: Tmp, es: seq<Event>, t: nat, later: seq<Event>)
    requires var s := Exec(Opened(disk, tmp), es); t < |s.threads| && s.threads[t].Returned? && s.threads[t].ok
    ensures var s, r := Exec(Opened(disk, tmp), es), Exec(Exec(Opened(disk, tmp), es), later);
            var Returned(v, u, _) := s.threads[t];
            && 0 < v <= r.saved <= |r.log| && r.log[v - 1] == u
            && (Reflects(Open(r.disk), u) || exists j :: v <= j < r.saved && KeyOf(r.log[j]) == KeyOf(u))
  {
    var s := Exec(Opened(disk, tmp), es);
    ExecKeepsInv(disk, tmp, es);
    assert PcOk(s, t, s.threads[t]);
    AckedUpdatesStay(s, later);
    var r := Exec(s, later);
    var Returned(v, u, _) := s.threads[t];
    assert r.log[v - 1] == r.log[..s.acked][v - 1] == s.log[..s.acked][v - 1] == u;
    ReflectedUnlessOverridden(r.init, r.log[..r.saved], v - 1);
  }

  lemma ExecMore(s: State, es: seq<Event>, e: Event)
    ensures Exec(s, es + [e]) == Apply(Exec(s, es), e)
  {
    assert (es + [e])[..|es|] == es;
  }

  /** A Put that nobody holds up, from any state: the entry is the row under its key, in
      memory and in the file, in every field but notes, of which 4096 bytes stay; the
      other rows are as before. */
  lemma PutReachesTheFile(s: State, e: Entry)
    requires e.name != "" && e.version != "" && s.lock.None?
    ensures var t := |s.threads|;
            var key := e.name + "/" + e.version;
            var r := Exec(s, [Put(e), Step(t, true), Step(t, true), Step(t, true), Step(t, true), Step(t, true)]);
            && |r.threads| == t + 1 && r.threads[..t] == s.threads && r.threads[t].Returned? && r.threads[t].ok
            && r.disk == Some(r.entries) && r.lock.None? && r.tmp.Absent?
            && r.entries.Keys == s.entries.Keys + {key}
            && r.entries[key].(notes := e.notes) == e
            && r.entries[key].notes == (if |e.notes| <= 4096 then e.notes else e.notes[..4096])
            && forall k <- s.entries | k != key :: r.entries[k] == s.entries[k]
  {
    var t := |s.threads|;
    var u := Set(Trimmed(e));
    var s2 := PutTakesTheMutex(s, e);
    ExecTwo(s, Put(e), Step(t, true));
    PersistReachesTheFile(s2, t, |s.log| + 1, u);
    ExecPlus(s, [Put(e), Step(t, true)], [Step(t, true), Step(t, true), Step(t, true), Step(t, true)]);
    assert [Put(e), Step(t, true)] + [Step(t, true), Step(t, true), Step(t, true), Step(t, true)]
        == [Put(e), Step(t, true), Step(t, true), Step(t, true), Step(t, true), Step(t, true)];
  }

  lemma PutTakesTheMutex(s: State, e: Entry) returns (r: State)
    requires e.name != "" && e.version != "" && s.lock.None?
    ensures r == Apply(Apply(s, Put(e)), Step(|s.threads|, true)) && r.lock.None?
    ensures r.threads == s.threads + [Updated(|s.log| + 1, Set(Trimmed(e)))]
    ensures r.entries == s.entries[e.name + "/" + e.version := Trimmed(e)]
  {
    r := Apply(Apply(s, Put(e)), Step(|s.threads|, true));
    assert r == Change(Apply(s, Put(e)), |s.threads|, Set(Trimmed(e)));
  }

  /** A Delete of a row that is there, likewise: exactly that row goes. */
  lemma DeleteReachesTheFile(s: State, name: string, version: string)
    requires name + "/" + version in s.entries && s.lock.None?
    ensures var t := |s.threads|;
            var d := Delete(name, version);
            var r := Exec(s, [d, Step(t, true), Step(t, true), Step(t, true), Step(t, true), Step(t, true)]);
            && |r.threads| == t + 1 && r.threads[..t] == s.threads && r.threads[t].Returned? && r.threads[t].ok
            && r.entries == s.entries - {name + "/" + version}
            && r.disk == Some(r.entries) && r.lock.None? && r.tmp.Absent?
  {
    var t := |s.threads|;
    var d := Delete(name, version);
    var u := Drop(name + "/" + version);
    var s1, s2 := Apply(s, d), Apply(Apply(s, d), Step(t, true));
    assert s2 == Change(s1, t, u);
    assert s2.threads == s.threads + [Updated(|s.log| + 1, u)];
    ExecTwo(s, d, Step(t, true));
    PersistReachesTheFile(s2, t, |s.log| + 1, u);
    ExecPlus(s, [d, Step(t, true)], [Step(t, true), Step(t, true), Step(t, true), Step(t, true)]);
    assert [d, Step(t, true)] + [Step(t, true), Step(t, true), Step(t, true), Step(t, true)]
        == [d, Step(t, true), Step(t, true), Step(t, true), Step(t, true), Step(t, true)];
  }

  /** persist alone, from its lock to its unlock. */
  lemma PersistReachesTheFile(s: State, t: nat, v: nat, u: Update)
    requires s.lock.None? && t < |s.threads| && s.threads[t] == Updated(v, u)
    ensures var r := Exec(s, [Step(t, true), Step(t, true), Step(t, true), Step(t, true)]);
            && r.threads == s.threads[t := Returned(v, u, true)] && r.entries == s.entries && r.log == s.log
            && r.disk == Some(s.entries) && r.lock.None? && r.tmp.Absent?
  {
    var s2 := Apply(Apply(s, Step(t, true)), Step(t, true));
    assert s2.threads[t] == Renaming(v, u, s.entries) && s2.tmp == Full(s.entries);
    var s4 := Apply(Apply(s2, Step(t, true)), Step(t, true));
    assert s4.threads[t] == Returned(v, u, true);
    assert s4.threads == s.threads[t := Returned(v, u, true)];
    ExecTwo(s, Step(t, true), Step(t, true));
    ExecMore(s, [Step(t, true), Step(t, true)], Step(t, true));
    assert [Step(t, true), Step(t, true)] + [Step(t, true)] == [Step(t, true), Step(t, true), Step(t, true)];
    ExecMore(s, [Step(t, true), Step(t, true), Step(t, true)], Step(t, true));
    assert [Step(t, true), Step(t, true), Step(t, true)] + [Step(t, true)]
        == [Step(t, true), Step(t, true), Step(t, true), Step(t, true)];
  }

  lemma ExecTwo(s: State, a: Event, b: Event)
    ensures Exec(s, [a, b]) == Apply(Apply(s, a), b)
  {
    ExecMore(s, [], a);
    assert [] + [a] == [a] && [a] + [b] == [a, b];
    ExecMore(s, [a], b);
  }

  lemma {:induction false} ExecPlus(s: State, es: seq<Event>, later: seq<Event>)
    ensures Exec(s, es + later) == Exec(Exec(s, es), later)
  {
    if later == [] {
      assert es + later == es;
    } else {
      ExecPlus(s, es, later[..|later| - 1]);
      assert (es + later)[..|es + later| - 1] == es + later[..|later| - 1];
    }
  }

  /** A Put without name or version, and a Delete of a row that is not there, end with
      nothing changed. */
  lemma RefusedCallsChangeNothing(s: State, e: Entry, name: string, version: string, ok: bool)
    requires s.lock.None?
    ensures var t := |s.threads|;
            e.name == "" || e.version == "" ==>
              Exec(s, [Put(e), Step(t, ok)]) == s.(threads := s.threads + [Rejected])
    ensures var t := |s.threads|;
            name + "/" + version !in s.entries ==>
              Exec(s, [Delete(name, version), Step(t, ok)]) == s.(threads := s.threads + [Absentee])
  {
    var t := |s.threads|;
    ExecTwo(s, Put(e), Step(t, ok));
    ExecTwo(s, Delete(name, version), Step(t, ok));
    assert (s.threads + [PutStart(e)])[t := Rejected] == s.threads + [Rejected];
    assert (s.threads + [DeleteStart(name + "/" + version)])[t := Absentee] == s.threads + [Absentee];
  }

  /** When the write of the file fails, the change stays in memory and not on disk. */
  lemma FailedWriteLeavesMapAhead(s: State, e: Entry)
    requires e.name != "" && e.version != "" && s.lock.None?
    ensures var t := |s.threads|;
            var key := e.name + "/" + e.version;
            var r := Exec(s, [Put(e), Step(t, true), Step(t, true), Step(t, false)]);
            && key in r.entries && r.entries[key].(notes := e.notes) == e
            && r.disk == s.disk && r.tmp.Torn? && r.lock.None?
            && |r.threads| == t + 1 && r.threads[t].Returned? && !r.threads[t].ok
  {
    var t := |s.threads|;
    var u := Set(Trimmed(e));
    var s2 := Apply(Apply(s, Put(e)), Step(t, true));
    assert s2.threads == s.threads + [Updated(|s.log| + 1, u)];
    var s4 := Apply(Apply(s2, Step(t, true)), Step(t, false));
    assert s4.threads == s.threads + [Returned(|s.log| + 1, u, false)];
    ExecTwo(s, Put(e), Step(t, true));
    ExecTwo(s2, Step(t, true), Step(t, false));
    ExecPlus(s, [Put(e), Step(t, true)], [Step(t, true), Step(t, false)]);
    assert [Put(e), Step(t, true)] + [Step(t, true), Step(t, false)]
        == [Put(e), Step(t, true), Step(t, true), Step(t, false)];
  }
}
