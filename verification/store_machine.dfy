/** Any number of Saves and Loads on one bucket, interleaved upload by upload and
    download by download, any of them stopping anywhere. */
module StoreMachine {
  import opened Wrappers
  import opened Utf8
  import opened TemplateKey
  import opened Bundles

  /** `done` uploads of a Save have been acknowledged. A Load has its manifest, then its
      state, then a growing part of its memfile. */
  datatype Pc =
    | Saving(req: SaveReq, done: nat)
    | SaveEnded(req: SaveReq, published: bool)
    | LoadManifest(name: string, version: string, verify: bool)
    | LoadState(name: string, version: string, verify: bool, man: Manifest)
    | LoadMem(name: string, version: string, verify: bool, man: Manifest, state: Bytes, got: Bytes)
    | LoadEnded(name: string, version: string, verify: bool, result: Loaded)

  datatype State = State(data: Data, threads: seq<Pc>)

  /** A step of goroutine `t`: `ok` is the outcome of its storage call, `landed` whether
      a failed upload took effect all the same, `n` the number of bytes a read returns.
      Tamper is anyone else writing or deleting an object that is not a manifest. */
  datatype Event =
    | Save(req: SaveReq) | Load(name: string, version: string, verify: bool)
    | Step(t: nat, ok: bool, landed: bool, n: nat) | Tamper(key: string, content: Option<Bytes>)

  predicate IsManifestKey(key: string) {
    |key| >= 14 && key[|key| - 14..] == "/manifest.yaml"
  }

  function StepSave(c: Codec, s: State, t: nat, ok: bool, landed: bool): State
    requires t < |s.threads| && s.threads[t].Saving?
  {
    var Saving(r, k) := s.threads[t];
    if ok then State(Upload(c, s.data, r, k), s.threads[t := if k >= 2 then SaveEnded(r, true) else Saving(r, k + 1)])
    else State(if landed then Upload(c, s.data, r, k) else s.data, s.threads[t := SaveEnded(r, landed && k >= 2)])
  }

  /** What a Load does next with the storage it sees. */
  function NextLoad(c: Codec, data: Data, pc: Pc, ok: bool, n: nat): Pc {
    match pc
    case LoadManifest(name, version, verify) =>
      if !ok then LoadEnded(name, version, verify, LoadFailed(Interrupted))
      else if ManifestKey(name, version) !in data then LoadEnded(name, version, verify, LoadFailed(NoManifest))
      else
        var (man, err) := Unmarshal(c, data[ManifestKey(name, version)]);
        if man.None? then LoadEnded(name, version, verify, LoadFailed(err))
        else LoadState(name, version, verify, man.value)
    case LoadState(name, version, verify, man) =>
      if !ok then LoadEnded(name, version, verify, LoadFailed(Interrupted))
      else if man.stateKey !in data then LoadEnded(name, version, verify, LoadFailed(NoState))
      else LoadMem(name, version, verify, man, data[man.stateKey], [])
    case LoadMem(name, version, verify, man, state, got) =>
      if !ok then LoadEnded(name, version, verify, LoadFailed(Interrupted))
      else if man.memKey !in data then LoadEnded(name, version, verify, LoadFailed(NoMemFile))
      else
        var mem := data[man.memKey];
        if n == 0 || |mem| <= |got| then LoadEnded(name, version, verify, Finish(c, man, state, got, verify))
        else LoadMem(name, version, verify, man, state, got + mem[|got|..if |got| + n < |mem| then |got| + n else |mem|])
    case _ => pc
  }

  function Apply(c: Codec, s: State, e: Event): State {
    match e
    case Save(req) => s.(threads := s.threads + [Saving(req, 0)])
    case Load(name, version, verify) => s.(threads := s.threads + [LoadManifest(name, version, verify)])
    case Step(t, ok, landed, n) =>
      if t >= |s.threads| then s
      else if s.threads[t].Saving? then StepSave(c, s, t, ok, landed)
      else s.(threads := s.threads[t := NextLoad(c, s.data, s.threads[t], ok, n)])
    case Tamper(key, content) =>
      if IsManifestKey(key) then s
      else if content.Some? then s.(data := s.data[key := content.value]) else s.(data := s.data - {key})
  }

  function Exec(c: Codec, s: State, es: seq<Event>): State {
    if es == [] then s else Apply(c, Exec(c, s, es[..|es| - 1]), es[|es| - 1])
  }

  // -------------------------------------------------------------- invariant

  /** Goroutine `u` is a Save that put `man` under `key`. */
  ghost predicate Wrote(c: Codec, s: State, u: nat, key: string, man: Manifest) {
    && u < |s.threads| && s.threads[u].SaveEnded? && s.threads[u].published
    && ManifestKey(s.threads[u].req.name, s.threads[u].req.version) == key && man == ManifestOf(c, s.threads[u].req)
  }

  ghost predicate Backed(c: Codec, s: State, key: string, man: Manifest) {
    exists u: nat :: Wrote(c, s, u, key, man)
  }

  /** The files a Load returned are those of one Save that put its manifest. */
  ghost predicate OfOneSave(c: Codec, s: State, key: string, l: Loaded) {
    exists u: nat ::
      l.Loaded? && Wrote(c, s, u, key, l.man) && l.mem == s.threads[u].req.mem && l.state == s.threads[u].req.state
  }

  ghost predicate PcOk(c: Codec, s: State, pc: Pc) {
    match pc
    case LoadState(name, version, _, man) => Backed(c, s, ManifestKey(name, version), man)
    case LoadMem(name, version, _, man, _, _) => Backed(c, s, ManifestKey(name, version), man)
    case LoadEnded(name, version, verify, result) =>
      verify && result.Loaded? ==> OfOneSave(c, s, ManifestKey(name, version), result)
    case _ => true
  }

  ghost predicate ManifestsOk(c: Codec, s: State) {
    forall key | key in s.data && IsManifestKey(key) ::
      exists man :: s.data[key] == c.marshal(man) && Backed(c, s, key, man)
  }

  ghost predicate Inv(c: Codec, s: State) {
    ManifestsOk(c, s) && forall t | 0 <= t < |s.threads| :: PcOk(c, s, s.threads[t])
  }

  /** Ended Saves stay as they are. */
  ghost predicate Grows(s: State, r: State) {
    |s.threads| <= |r.threads| && forall u | 0 <= u < |s.threads| && s.threads[u].SaveEnded? :: r.threads[u] == s.threads[u]
  }

  lemma BackedGrows(c: Codec, s: State, r: State, key: string, man: Manifest)
    requires Grows(s, r) && Backed(c, s, key, man)
    ensures Backed(c, r, key, man)
  {
    var u: nat :| Wrote(c, s, u, key, man);
    assert Wrote(c, r, u, key, man);
  }

  lemma PcGrows(c: Codec, s: State, r: State, pc: Pc)
    requires Grows(s, r) && PcOk(c, s, pc)
    ensures PcOk(c, r, pc)
  {
    match pc
    case LoadState(name, version, _, man) => BackedGrows(c, s, r, ManifestKey(name, version), man);
    case LoadMem(name, version, _, man, _, _) => BackedGrows(c, s, r, ManifestKey(name, version), man);
    case LoadEnded(name, version, verify, result) =>
      if verify && result.Loaded? {
        var key := ManifestKey(name, version);
        var u: nat :| Wrote(c, s, u, key, result.man) && result.mem == s.threads[u].req.mem &&
                 result.state == s.threads[u].req.state;
        assert Wrote(c, r, u, key, result.man) && r.threads[u] == s.threads[u];
      }
    case _ =>
  }

  lemma ApplyGrows(c: Codec, s: State, e: Event)
    ensures Grows(s, Apply(c, s, e))
  {
  }

  /** The two hashes tie what was downloaded to the Save behind the manifest. */
  lemma FinishIsOneSave(c: Codec, s: State, key: string, man: Manifest, state: Bytes, mem: Bytes)
    requires Sound(c) && Backed(c, s, key, man) && Finish(c, man, state, mem, true).Loaded?
    ensures OfOneSave(c, s, key, Finish(c, man, state, mem, true))
  {
    var u: nat :| Wrote(c, s, u, key, man);
    var r := s.threads[u].req;
    assert c.sha(mem) == c.sha(Uploaded(c, r)) && c.sha(state) == c.sha(r.state);
    assert mem == Uploaded(c, r) && state == r.state;
    NeverUnbounded(man.memMiB);
    assert r.compress ==> c.decompress(c.compress(r.mem, r.level)) == (r.mem, true);
    var l := Finish(c, man, state, mem, true);
    assert l.Loaded? && Wrote(c, s, u, key, l.man) && l.mem == r.mem && l.state == r.state;
  }

  lemma NextLoadOk(c: Codec, s: State, pc: Pc, ok: bool, n: nat)
    requires Sound(c) && ManifestsOk(c, s) && PcOk(c, s, pc)
    ensures PcOk(c, s, NextLoad(c, s.data, pc, ok, n))
  {
    match pc
    case LoadManifest(name, version, verify) =>
      var key := ManifestKey(name, version);
      assert key[|key| - 14..] == "/manifest.yaml";
      if key in s.data {
        var man :| s.data[key] == c.marshal(man) && Backed(c, s, key, man);
        assert c.unmarshal(c.marshal(man)) == Some(man);
      }
    case LoadMem(name, version, verify, man, state, got) =>
      if verify && Finish(c, man, state, got, true).Loaded? {
        FinishIsOneSave(c, s, ManifestKey(name, version), man, state, got);
      }
    case _ =>
  }

  lemma PlainKeys(r: SaveReq)
    ensures !IsManifestKey(StateKey(r.name, r.version)) && !IsManifestKey(MemKey(r))
    ensures IsManifestKey(ManifestKey(r.name, r.version))
  {
    var k, m, s := ManifestKey(r.name, r.version), MemKey(r), StateKey(r.name, r.version);
    assert k[|k| - 14..] == "/manifest.yaml";
    assert m[|m| - 1] != 'l' && s[|s| - 1] != 'l';
  }

  /** A manifest appears in storage together with the end of the Save that wrote it. */
  lemma StepSaveManifests(c: Codec, s: State, t: nat, ok: bool, landed: bool)
    requires ManifestsOk(c, s) && t < |s.threads| && s.threads[t].Saving?
    ensures ManifestsOk(c, StepSave(c, s, t, ok, landed))
  {
    var r, req := StepSave(c, s, t, ok, landed), s.threads[t].req;
    PlainKeys(req);
    forall key | key in r.data && IsManifestKey(key)
      ensures exists man :: r.data[key] == c.marshal(man) && Backed(c, r, key, man)
    {
      if key in s.data && r.data[key] == s.data[key] {
        var man :| s.data[key] == c.marshal(man) && Backed(c, s, key, man);
        BackedGrows(c, s, r, key, man);
      } else {
        assert Wrote(c, r, t, key, ManifestOf(c, req));
      }
    }
  }

  lemma SameManifests(c: Codec, s: State, r: State)
    requires ManifestsOk(c, s) && Grows(s, r)
    requires forall key | key in r.data && IsManifestKey(key) :: key in s.data && r.data[key] == s.data[key]
    ensures ManifestsOk(c, r)
  {
    forall key | key in r.data && IsManifestKey(key)
      ensures exists man :: r.data[key] == c.marshal(man) && Backed(c, r, key, man)
    {
      var man :| s.data[key] == c.marshal(man) && Backed(c, s, key, man);
      BackedGrows(c, s, r, key, man);
    }
  }

  lemma ApplyKeepsInv(c: Codec, s: State, e: Event)
    requires Sound(c) && Inv(c, s)
    ensures Inv(c, Apply(c, s, e))
  {
    var r := Apply(c, s, e);
    ApplyGrows(c, s, e);
    if e.Step? && e.t < |s.threads| && s.threads[e.t].Saving? {
      StepSaveManifests(c, s, e.t, e.ok, e.landed);
    } else {
      SameManifests(c, s, r);
    }
    forall t | 0 <= t < |r.threads| ensures PcOk(c, r, r.threads[t]) {
      if t < |s.threads| {
        if e.Step? && e.t == t && !s.threads[t].Saving? {
          NextLoadOk(c, s, s.threads[t], e.ok, e.n);
          PcGrows(c, s, r, r.threads[t]);
        } else if !(e.Step? && e.t == t) {
          PcGrows(c, s, r, s.threads[t]);
        }
      }
    }
  }

  lemma {:induction false} ExecKeepsInv(c: Codec, data: Data, es: seq<Event>)
    requires Sound(c) && forall key <- data :: !IsManifestKey(key)
    ensures Inv(c, Exec(c, State(data, []), es))
  {
    if es != [] {
      ExecKeepsInv(c, data, es[..|es| - 1]);
      ApplyKeepsInv(c, Exec(c, State(data, []), es[..|es| - 1]), es[|es| - 1]);
    }
  }

  /** However Saves, tampering and Loads interleave: a verifying Load that succeeds
      returns the memfile, the state and the manifest of one Save that put that manifest. */
  lemma VerifyingLoadNeverMixesSaves(c: Codec, data: Data, es: seq<Event>, t: nat)
    requires Sound(c) && forall key <- data :: !IsManifestKey(key)
    requires var r := Exec(c, State(data, []), es);
             t < |r.threads| && r.threads[t].LoadEnded? && r.threads[t].verify && r.threads[t].result.Loaded?
    ensures var r := Exec(c, State(data, []), es);
            var LoadEnded(name, version, _, l) := r.threads[t];
            exists u: nat :: u < |r.threads| && r.threads[u].SaveEnded? && r.threads[u].published &&
                        var q := r.threads[u].req;
                        && Key(q.name, q.version) == Key(name, version)
                        && ('/' !in q.name && '/' !in name ==> q.name == name && q.version == version)
                        && l == Loaded(q.mem, q.state, ManifestOf(c, q))
  {
    ExecKeepsInv(c, data, es);
    var r := Exec(c, State(data, []), es);
    var LoadEnded(name, version, _, l) := r.threads[t];
    assert PcOk(c, r, r.threads[t]);
    var u: nat :| Wrote(c, r, u, ManifestKey(name, version), l.man) && l.mem == r.threads[u].req.mem &&
             l.state == r.threads[u].req.state;
    ManifestKeysCollideIff(r.threads[u].req.name, r.threads[u].req.version, name, version);
  }

  // ------------------------------------------------------ calls left alone

  lemma {:induction false} ExecPlus(c: Codec, s: State, es: seq<Event>, later: seq<Event>)
    ensures Exec(c, s, es + later) == Exec(c, Exec(c, s, es), later)
  {
    if later == [] {
      assert es + later == es;
    } else {
      ExecPlus(c, s, es, later[..|later| - 1]);
      assert (es + later)[..|es + later| - 1] == es + later[..|later| - 1];
    }
  }

  lemma ExecOne(c: Codec, s: State, e: Event)
    ensures Exec(c, s, [e]) == Apply(c, s, e)
  {
    assert [e][..0] == [];
  }

  /** A Save whose three uploads succeed and that nothing interrupts: the storage then
      differs in its three objects only. */
  lemma SaveAlone(c: Codec, s: State, r: SaveReq)
    ensures var go := Step(|s.threads|, true, false, 0);
            var t := Exec(c, s, [Save(r)] + [go] + [go] + [go]);
            var base := r.name + "/" + r.version;
            var upload := if r.compress then c.compress(r.mem, r.level) else r.mem;
            var memKey := base + if r.compress then "/memfile.zst" else "/memfile.bin";
            && t.threads == s.threads + [SaveEnded(r, true)]
            && t.data == s.data[base + "/state.bin" := r.state][memKey := upload]
                               [base + "/manifest.yaml" := c.marshal(ManifestOf(c, r))]
            && Holds(c, t.data, r)
  {
    var go := Step(|s.threads|, true, false, 0);
    ExecOne(c, s, Save(r));
    var s1 := Exec(c, s, [Save(r)]);
    ExecOne(c, s1, go);
    ExecPlus(c, s, [Save(r)], [go]);
    var s2 := Exec(c, s, [Save(r)] + [go]);
    ExecOne(c, s2, go);
    ExecPlus(c, s, [Save(r)] + [go], [go]);
    var s3 := Exec(c, s, [Save(r)] + [go] + [go]);
    ExecOne(c, s3, go);
    ExecPlus(c, s, [Save(r)] + [go] + [go], [go]);
    assert s2.threads == s.threads + [Saving(r, 1)] && s3.threads == s.threads + [Saving(r, 2)];
    OwnKeysDiffer(r);
  }

  /** `k` storage calls of goroutine `t` that succeed, reads returning up to `n` bytes. */
  function Calls(t: nat, n: nat, k: nat): seq<Event> {
    if k == 0 then [] else [Step(t, true, false, n)] + Calls(t, n, k - 1)
  }

  lemma CallsFirst(c: Codec, s: State, t: nat, n: nat, k: nat)
    requires k > 0
    ensures Exec(c, s, Calls(t, n, k)) == Exec(c, Apply(c, s, Step(t, true, false, n)), Calls(t, n, k - 1))
  {
    ExecOne(c, s, Step(t, true, false, n));
    ExecPlus(c, s, [Step(t, true, false, n)], Calls(t, n, k - 1));
  }

  lemma {:induction false} EndedLoadStays(c: Codec, s: State, t: nat, n: nat, k: nat)
    requires t < |s.threads| && s.threads[t].LoadEnded?
    ensures Exec(c, s, Calls(t, n, k)) == s
  {
    if k > 0 {
      CallsFirst(c, s, t, n, k);
      assert s.threads[t := s.threads[t]] == s.threads;
      EndedLoadStays(c, s, t, n, k - 1);
    }
  }

  lemma ReadStep(c: Codec, s: State, t: nat, n: nat)
    requires t < |s.threads| && s.threads[t].LoadMem? && n > 0 && s.threads[t].man.memKey in s.data
    requires s.threads[t].got <= s.data[s.threads[t].man.memKey]
    ensures var LoadMem(name, version, verify, man, state, got) := s.threads[t];
            var mem := s.data[man.memKey];
            var next := if |got| + n < |mem| then |got| + n else |mem|;
            Apply(c, s, Step(t, true, false, n)) == s.(threads := s.threads[t :=
              if got == mem then LoadEnded(name, version, verify, Finish(c, man, state, mem, verify))
              else LoadMem(name, version, verify, man, state, mem[..next])])
  {
    var mem, got := s.data[s.threads[t].man.memKey], s.threads[t].got;
    var next := if |got| + n < |mem| then |got| + n else |mem|;
    assert |got| < |mem| ==> got + mem[|got|..next] == mem[..next];
  }

  /** Reading a memfile in pieces of any size delivers all of it. */
  lemma {:induction false} ReadsAll(c: Codec, s: State, t: nat, n: nat, k: nat)
    requires t < |s.threads| && s.threads[t].LoadMem? && n > 0 && s.threads[t].man.memKey in s.data
    requires var mem, got := s.data[s.threads[t].man.memKey], s.threads[t].got; got <= mem && k > |mem| - |got|
    ensures var LoadMem(name, version, verify, man, state, _) := s.threads[t];
            Exec(c, s, Calls(t, n, k)) == s.(threads := s.threads[t :=
              LoadEnded(name, version, verify, Finish(c, man, state, s.data[man.memKey], verify))])
    decreases k
  {
    CallsFirst(c, s, t, n, k);
    ReadStep(c, s, t, n);
    var s1 := Apply(c, s, Step(t, true, false, n));
    if s.threads[t].got == s.data[s.threads[t].man.memKey] {
      EndedLoadStays(c, s1, t, n, k - 1);
    } else {
      ReadsAll(c, s1, t, n, k - 1);
    }
  }

  /** The rest of a Load, from its last request on. */
  lemma MemOrNone(c: Codec, s: State, t: nat, n: nat, k: nat)
    requires t < |s.threads| && s.threads[t].LoadMem? && s.threads[t].got == [] && n > 0 && k > 0
    requires forall key <- s.data :: |s.data[key]| < k
    ensures var LoadMem(name, version, verify, man, state, _) := s.threads[t];
            Exec(c, s, Calls(t, n, k)) == s.(threads := s.threads[t := LoadEnded(name, version, verify,
              if man.memKey in s.data then Finish(c, man, state, s.data[man.memKey], verify) else LoadFailed(NoMemFile))])
  {
    if s.threads[t].man.memKey in s.data {
      ReadsAll(c, s, t, n, k);
    } else {
      CallsFirst(c, s, t, n, k);
      EndedLoadStays(c, Apply(c, s, Step(t, true, false, n)), t, n, k - 1);
    }
  }

  /** The same from its second request on. */
  lemma StateOrNone(c: Codec, s: State, t: nat, n: nat, k: nat)
    requires t < |s.threads| && s.threads[t].LoadState? && n > 0 && k > 1
    requires forall key <- s.data :: |s.data[key]| < k - 1
    ensures var LoadState(name, version, verify, man) := s.threads[t];
            Exec(c, s, Calls(t, n, k)) == s.(threads := s.threads[t := LoadEnded(name, version, verify,
              if man.stateKey !in s.data then LoadFailed(NoState)
              else if man.memKey !in s.data then LoadFailed(NoMemFile)
              else Finish(c, man, s.data[man.stateKey], s.data[man.memKey], verify))])
  {
    CallsFirst(c, s, t, n, k);
    var s1 := Apply(c, s, Step(t, true, false, n));
    if s.threads[t].man.stateKey in s.data {
      MemOrNone(c, s1, t, n, k - 1);
    } else {
      EndedLoadStays(c, s1, t, n, k - 1);
    }
  }

  /** The same from the start. */
  lemma ManifestOrNone(c: Codec, s: State, t: nat, n: nat, k: nat)
    requires t < |s.threads| && s.threads[t].LoadManifest? && n > 0 && k > 2
    requires forall key <- s.data :: |s.data[key]| < k - 2
    ensures var LoadManifest(name, version, verify) := s.threads[t];
            var l := Bundles.Load(c, s.data, name, version, verify);
            Exec(c, s, Calls(t, n, k)) == s.(threads := s.threads[t := LoadEnded(name, version, verify, l)])
  {
    CallsFirst(c, s, t, n, k);
    var s1 := Apply(c, s, Step(t, true, false, n));
    if s1.threads[t].LoadEnded? {
      EndedLoadStays(c, s1, t, n, k - 1);
    } else {
      StateOrNone(c, s1, t, n, k - 1);
    }
  }

  /** A Load that nothing interrupts, on storage nobody changes meanwhile, ends with what
      the storage holds, however many bytes a read returns. */
  lemma LoadAlone(c: Codec, s: State, name: string, version: string, verify: bool, n: nat, k: nat)
    requires n > 0 && k > 2 && forall key <- s.data :: |s.data[key]| < k - 2
    ensures var l := Bundles.Load(c, s.data, name, version, verify);
            Exec(c, s, [Load(name, version, verify)] + Calls(|s.threads|, n, k)) ==
            s.(threads := s.threads + [LoadEnded(name, version, verify, l)])
  {
    var t, e := |s.threads|, Load(name, version, verify);
    var after := LoadEnded(name, version, verify, Bundles.Load(c, s.data, name, version, verify));
    ExecOne(c, s, e);
    ExecPlus(c, s, [e], Calls(t, n, k));
    ManifestOrNone(c, Apply(c, s, e), t, n, k);
    assert (s.threads + [LoadManifest(name, version, verify)])[t := after] == s.threads + [after];
  }

  // ------------------------------------------------- Saves of other bundles

  /** The event concerns some bundle other than `r`'s. */
  predicate Elsewhere(r: SaveReq, e: Event) {
    match e
    case Save(req) => Key(req.name, req.version) != Key(r.name, r.version)
    case Tamper(key, _) => key != StateKey(r.name, r.version) && key != MemKey(r)
    case _ => true
  }

  ghost predicate Undisturbed(c: Codec, s: State, r: SaveReq) {
    && Holds(c, s.data, r)
    && forall t | 0 <= t < |s.threads| && s.threads[t].Saving? ::
         Key(s.threads[t].req.name, s.threads[t].req.version) != Key(r.name, r.version)
  }

  lemma OtherUpload(c: Codec, data: Data, r: SaveReq, other: SaveReq, k: nat)
    requires Holds(c, data, r) && Key(other.name, other.version) != Key(r.name, r.version)
    ensures Holds(c, Upload(c, data, other, k), r)
  {
    var b, b' := Key(r.name, r.version), Key(other.name, other.version);
    forall s, s' | s in SUFFIXES && s' in SUFFIXES ensures b + s != b' + s' {
      if b + s == b' + s' { KeysDiffer(b, s, b', s'); }
    }
    var m := if r.compress then "/memfile.zst" else "/memfile.bin";
    var m' := if other.compress then "/memfile.zst" else "/memfile.bin";
    assert m in SUFFIXES && m' in SUFFIXES && "/state.bin" in SUFFIXES && "/manifest.yaml" in SUFFIXES;
    assert MemKey(r) == b + m && MemKey(other) == b' + m';
  }

  lemma ApplyElsewhere(c: Codec, s: State, e: Event, r: SaveReq)
    requires Undisturbed(c, s, r) && Elsewhere(r, e)
    ensures Undisturbed(c, Apply(c, s, e), r)
  {
    if e.Step? && e.t < |s.threads| && s.threads[e.t].Saving? {
      OtherUpload(c, s.data, r, s.threads[e.t].req, s.threads[e.t].done);
    } else if e.Tamper? {
      PlainKeys(r);
    }
  }

  lemma {:induction false} ExecElsewhere(c: Codec, s: State, es: seq<Event>, r: SaveReq)
    requires Undisturbed(c, s, r) && forall i | 0 <= i < |es| :: Elsewhere(r, es[i])
    ensures Undisturbed(c, Exec(c, s, es), r)
  {
    if es != [] {
      ExecElsewhere(c, s, es[..|es| - 1], r);
      ApplyElsewhere(c, Exec(c, s, es[..|es| - 1]), es[|es| - 1], r);
    }
  }

  /** A saved bundle still loads, to the same files, after any interleaving of Loads and
      of Saves of other bundles, finished or not. */
  lemma OtherSavesNeverDisturb(c: Codec, s: State, es: seq<Event>, r: SaveReq, verify: bool)
    requires Sound(c) && Undisturbed(c, s, r) && forall i | 0 <= i < |es| :: Elsewhere(r, es[i])
    ensures Bundles.Load(c, Exec(c, s, es).data, r.name, r.version, verify) ==
            Bundles.Load(c, s.data, r.name, r.version, verify)
    ensures !r.compress ==>
              Bundles.Load(c, Exec(c, s, es).data, r.name, r.version, verify) == Loaded(r.mem, r.state, ManifestOf(c, r))
  {
    ExecElsewhere(c, s, es, r);
    LoadAfterSave(c, s.data, r, verify);
    LoadAfterSave(c, Exec(c, s, es).data, r, verify);
  }
}
