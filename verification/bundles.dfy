/** Snapshot bundles in object storage: the three keys of a Save, the manifest that
    commits it, and what a Load makes of the objects it finds. SHA-256, zstd and YAML
    are functions of a Codec. */
module Bundles {
  import opened Wrappers
  import opened Int64
  import opened Utf8
  import opened TemplateKey

  datatype Manifest = Manifest(
    schema: int, name: string, version: string, createdAt: int, vcpus: int, memMiB: int, kernel: string,
    memKey: string, memSize: nat, memSha: string, compression: string,
    stateKey: string, stateSize: nat, stateSha: string, notes: string)

  /** `decompress` gives the bytes a stream decodes to before its end, and whether it ends
      well; `unmarshal` may fail. */
  datatype Codec = Codec(
    sha: Bytes -> string, compress: (Bytes, int) -> Bytes, decompress: Bytes -> (Bytes, bool),
    marshal: Manifest -> Bytes, unmarshal: Bytes -> Option<Manifest>)

  /** The hash has no collisions and is never empty; the other pairs round trip. */
  ghost predicate Sound(c: Codec) {
    && (forall a, b :: c.sha(a) == c.sha(b) ==> a == b) && (forall a :: c.sha(a) != "")
    && (forall a, level :: c.decompress(c.compress(a, level)) == (a, true))
    && (forall m :: c.unmarshal(c.marshal(m)) == Some(m))
  }

  type Data = map<string, Bytes>

  const SCHEMA := 1                      // CurrentManifestSchemaVersion
  const SLACK: int := 0x400_0000         // DecompressSlackBytes
  const MIB: int := 0x10_0000
  const TWO_43: int := 0x800_0000_0000

  // ------------------------------------------------------------------ keys

  function ManifestKey(name: string, version: string): string {
    Key(name, version) + "/manifest.yaml"
  }

  function MemFileKey(name: string, version: string, compressed: bool): string {
    Key(name, version) + if compressed then "/memfile.zst" else "/memfile.bin"
  }

  function StateKey(name: string, version: string): string {
    Key(name, version) + "/state.bin"
  }

  const SUFFIXES := {"/manifest.yaml", "/memfile.zst", "/memfile.bin", "/state.bin"}

  /** Keys of the four kinds are equal only if kind and base are. */
  lemma KeysDiffer(base: string, suffix: string, base': string, suffix': string)
    requires suffix in SUFFIXES && suffix' in SUFFIXES && base + suffix == base' + suffix'
    ensures base == base' && suffix == suffix'
  {
    var k := base + suffix;
    assert k[|k| - 1] == suffix[|suffix| - 1] == suffix'[|suffix'| - 1];
    assert k[|k| - 6] == suffix[|suffix| - 6] == suffix'[|suffix'| - 6];
    assert suffix == suffix';
    assert base == k[..|k| - |suffix|] && base' == k[..|k| - |suffix'|];
  }

  /** Two bundles share a manifest key exactly when name/version read the same; a slash
      in a name can bring that about for different bundles, and nothing else can. */
  lemma ManifestKeysCollideIff(n: string, v: string, n': string, v': string)
    ensures ManifestKey(n, v) == ManifestKey(n', v') <==> Key(n, v) == Key(n', v')
    ensures '/' !in n && '/' !in n' ==> (ManifestKey(n, v) == ManifestKey(n', v') <==> n == n' && v == v')
    ensures ManifestKey("a/b", "c") == ManifestKey("a", "b/c")
  {
    if ManifestKey(n, v) == ManifestKey(n', v') {
      KeysDiffer(Key(n, v), "/manifest.yaml", Key(n', v'), "/manifest.yaml");
    }
    if '/' !in n && '/' !in n' && Key(n, v) == Key(n', v') {
      KeySplits(n, v, n', v');
    }
    assert Key("a/b", "c") == "a/b/c" == Key("a", "b/c");
  }

  // ------------------------------------------------------------------ Save

  /** A Save's arguments and the contents of its two local files. `compress` and `level`
      are the settings after the options have overridden the Store's defaults. */
  datatype SaveReq = SaveReq(
    name: string, version: string, vcpus: int, memMiB: int, mem: Bytes, state: Bytes,
    compress: bool, level: int, kernel: string, notes: string, createdAt: int)

  function MemKey(r: SaveReq): string {
    MemFileKey(r.name, r.version, r.compress)
  }

  /** The memfile as it is uploaded. */
  function Uploaded(c: Codec, r: SaveReq): Bytes {
    if r.compress then c.compress(r.mem, r.level) else r.mem
  }

  function ManifestOf(c: Codec, r: SaveReq): Manifest {
    Manifest(SCHEMA, r.name, r.version, r.createdAt, r.vcpus, r.memMiB, r.kernel,
             MemKey(r), |Uploaded(c, r)|, c.sha(Uploaded(c, r)), if r.compress then "zstd" else "",
             StateKey(r.name, r.version), |r.state|, c.sha(r.state), r.notes)
  }

  /** Upload `k` of a Save: state, memfile, manifest. */
  function Upload(c: Codec, data: Data, r: SaveReq, k: nat): Data {
    if k == 0 then data[StateKey(r.name, r.version) := r.state]
    else if k == 1 then data[MemKey(r) := Uploaded(c, r)]
    else data[ManifestKey(r.name, r.version) := c.marshal(ManifestOf(c, r))]
  }

  /** The first `n` uploads of a Save. */
  function Stage(c: Codec, data: Data, r: SaveReq, n: nat): Data {
    var d1 := if n >= 1 then Upload(c, data, r, 0) else data;
    var d2 := if n >= 2 then Upload(c, d1, r, 1) else d1;
    if n >= 3 then Upload(c, d2, r, 2) else d2
  }

  /** The bundle of `r` is what the storage holds under its keys. */
  ghost predicate Holds(c: Codec, data: Data, r: SaveReq) {
    && StateKey(r.name, r.version) in data && data[StateKey(r.name, r.version)] == r.state
    && MemKey(r) in data && data[MemKey(r)] == Uploaded(c, r)
    && ManifestKey(r.name, r.version) in data && data[ManifestKey(r.name, r.version)] == c.marshal(ManifestOf(c, r))
  }

  lemma FullSaveHolds(c: Codec, data: Data, r: SaveReq)
    ensures Holds(c, Stage(c, data, r, 3), r)
  {
    OwnKeysDiffer(r);
  }

  lemma OwnKeysDiffer(r: SaveReq)
    ensures StateKey(r.name, r.version) != MemKey(r) && StateKey(r.name, r.version) != ManifestKey(r.name, r.version)
    ensures MemKey(r) != ManifestKey(r.name, r.version)
  {
    var b := Key(r.name, r.version);
    var m := if r.compress then "/memfile.zst" else "/memfile.bin";
    if StateKey(r.name, r.version) == MemKey(r) { KeysDiffer(b, "/state.bin", b, m); }
    if StateKey(r.name, r.version) == ManifestKey(r.name, r.version) { KeysDiffer(b, "/state.bin", b, "/manifest.yaml"); }
    if MemKey(r) == ManifestKey(r.name, r.version) { KeysDiffer(b, m, b, "/manifest.yaml"); }
  }

  // --------------------------------------------------------- decompression

  /** The bound Load puts on a compressed memfile. */
  function MaxRaw(memMiB: int): (r: int)
    ensures -MAX_INT64 - 1 <= r <= MAX_INT64
  {
    Wrap(Wrap(Wrap(memMiB * 1024) * 1024) + SLACK)
  }

  /** The bound is what it should be exactly up to 2^43 - 65 MiB. */
  lemma MaxRawIsExactIff(memMiB: int)
    requires -MAX_INT64 - 1 <= memMiB <= MAX_INT64
    ensures MaxRaw(memMiB) == memMiB * MIB + SLACK <==> -TWO_43 - 64 <= memMiB <= TWO_43 - 65
  {
    var k := MaxRawShifts(memMiB);
    OnlyByZero(memMiB * MIB + SLACK, MaxRaw(memMiB), k);
  }

  lemma MaxRawShifts(memMiB: int) returns (k: int)
    ensures MaxRaw(memMiB) == memMiB * MIB + SLACK - k * (2 * (MAX_INT64 + 1))
  {
    var a := Wrap(memMiB * 1024);
    var b := Wrap(a * 1024);
    var ka := WrapShifts(memMiB * 1024);
    var kb := WrapShifts(a * 1024);
    k := WrapShifts(b + SLACK);
    k := k + ka * 1024 + kb;
  }

  lemma OnlyByZero(x: int, r: int, k: int)
    requires r == x - k * (2 * (MAX_INT64 + 1)) && -MAX_INT64 - 1 <= r <= MAX_INT64
    ensures r == x <==> -MAX_INT64 - 1 <= x <= MAX_INT64
  {
  }

  datatype Decompressed = Raw(bytes: Bytes) | NegativeMax | NotZstd | Overflow

  /** The bytes DecompressFileBounded lets through at most: one more than it accepts,
      where an int64 can hold that. */
  function Probe(max: int): int {
    if max < MAX_INT64 then max + 1 else MAX_INT64
  }

  /** DecompressFileBounded on a file: the destination's contents or the error. */
  function Decompress(c: Codec, file: Bytes, max: int): Decompressed
    requires max <= MAX_INT64
  {
    if max < 0 then NegativeMax
    else
      var (raw, clean) := c.decompress(file);
      if |raw| >= Probe(max) then (if max < MAX_INT64 then Overflow else Raw(raw[..max]))
      else if clean then Raw(raw) else NotZstd
  }

  // ------------------------------------------------------------------ Load

  datatype LoadError = NoManifest | BadManifest | TooNew | NoState | NoMemFile | NoSha | MemMismatch
                     | BadMemFile(why: Decompressed) | StateMismatch | Interrupted

  datatype Loaded = Loaded(mem: Bytes, state: Bytes, man: Manifest) | LoadFailed(e: LoadError)

  /** UnmarshalManifest */
  function Unmarshal(c: Codec, b: Bytes): (r: (Option<Manifest>, LoadError))
    ensures r.0.Some? ==> r.0.value.schema <= SCHEMA
  {
    match c.unmarshal(b)
    case None => (None, BadManifest)
    case Some(m) => if m.schema > SCHEMA then (None, TooNew) else (Some(m), Interrupted)
  }

  /** filepath.Base on a key with no trailing slash. */
  function FileName(key: string): string {
    if key == "" || key[|key| - 1] == '/' then "" else FileName(key[..|key| - 1]) + [key[|key| - 1]]
  }

  /** In the destination directory, the download of a saved memfile overwrites neither
      state.bin nor the file it is decompressed to. */
  lemma DestinationFilesDiffer(r: SaveReq)
    ensures FileName(MemKey(r)) == if r.compress then "memfile.zst" else "memfile.bin"
  {
    var base := Key(r.name, r.version);
    if r.compress {
      assert base + "/memfile.zst" == (base + "/") + "memfile.zst";
      FileNameOf(base + "/", "memfile.zst");
    } else {
      assert base + "/memfile.bin" == (base + "/") + "memfile.bin";
      FileNameOf(base + "/", "memfile.bin");
    }
  }

  lemma {:induction false} FileNameOf(dir: string, file: string)
    requires dir != "" && dir[|dir| - 1] == '/' && '/' !in file
    ensures FileName(dir + file) == file
  {
    if file == "" {
      assert dir + file == dir;
    } else {
      var k := dir + file;
      assert k[..|k| - 1] == dir + file[..|file| - 1];
      FileNameOf(dir, file[..|file| - 1]);
    }
  }

  /** The end of Load, once the state and the memfile are downloaded: the hash of the
      memfile is checked first, that of the state last. */
  function Finish(c: Codec, man: Manifest, state: Bytes, mem: Bytes, verify: bool): Loaded {
    if verify && man.memSha == "" then LoadFailed(NoSha)
    else if verify && c.sha(mem) != man.memSha then LoadFailed(MemMismatch)
    else if man.compression == "zstd" then
      match Decompress(c, mem, MaxRaw(man.memMiB))
      case Raw(raw) => if verify && c.sha(state) != man.stateSha then LoadFailed(StateMismatch) else Loaded(raw, state, man)
      case why => LoadFailed(BadMemFile(why))
    else if verify && c.sha(state) != man.stateSha then LoadFailed(StateMismatch)
    else Loaded(mem, state, man)
  }

  /** A Load nothing interrupts, on storage nothing changes meanwhile. */
  function Load(c: Codec, data: Data, name: string, version: string, verify: bool): Loaded {
    if ManifestKey(name, version) !in data then LoadFailed(NoManifest)
    else
      var (man, err) := Unmarshal(c, data[ManifestKey(name, version)]);
      if man.None? then LoadFailed(err)
      else if man.value.stateKey !in data then LoadFailed(NoState)
      else if man.value.memKey !in data then LoadFailed(NoMemFile)
      else Finish(c, man.value, data[man.value.stateKey], data[man.value.memKey], verify)
  }

  // ---------------------------------------------------------------- theorems

  lemma NeverUnbounded(memMiB: int)
    ensures MaxRaw(memMiB) != MAX_INT64
  {
  }

  /** Under a bound below the largest int64, what passes is a whole stream of at most
      `max` bytes that ends well; what does not fails for one of three reasons. */
  lemma DecompressDecides(c: Codec, file: Bytes, max: int, raw: Bytes)
    requires max < MAX_INT64
    ensures Decompress(c, file, max) == Raw(raw) <==> c.decompress(file) == (raw, true) && |raw| <= max
    ensures Decompress(c, file, max) == NegativeMax <==> max < 0
    ensures Decompress(c, file, max) == Overflow <==> 0 <= max < |c.decompress(file).0|
    ensures Decompress(c, file, max) == NotZstd <==> |c.decompress(file).0| <= max && !c.decompress(file).1
  {
  }

  /** Exactly when an uninterrupted Load succeeds and with which files: both objects the
      manifest names are there, with verification both have its hashes, and a compressed
      memfile decodes to no more than the bound. */
  lemma LoadSucceedsIff(c: Codec, data: Data, name: string, version: string, verify: bool,
                        mem: Bytes, state: Bytes, man: Manifest)
    ensures Load(c, data, name, version, verify) == Loaded(mem, state, man) <==>
            var key := name + "/" + version + "/manifest.yaml";
            && key in data && c.unmarshal(data[key]) == Some(man) && man.schema <= 1
            && man.stateKey in data && data[man.stateKey] == state
            && man.memKey in data
            && (verify ==> man.memSha != "" && c.sha(data[man.memKey]) == man.memSha && c.sha(state) == man.stateSha)
            && (man.compression != "zstd" ==> mem == data[man.memKey])
            && (man.compression == "zstd" ==>
                  c.decompress(data[man.memKey]) == (mem, true) && |mem| <= MaxRaw(man.memMiB))
  {
    NeverUnbounded(man.memMiB);
    if man.memKey in data { DecompressDecides(c, data[man.memKey], MaxRaw(man.memMiB), mem); }
    assert name + "/" + version + "/manifest.yaml" == ManifestKey(name, version);
  }

  /** What stops an uninterrupted Load before it has both files. */
  lemma LoadFailsEarlyIff(c: Codec, data: Data, name: string, version: string, verify: bool)
    ensures var l := Load(c, data, name, version, verify);
            var key := name + "/" + version + "/manifest.yaml";
            && (l == LoadFailed(NoManifest) <==> key !in data)
            && (l == LoadFailed(BadManifest) <==> key in data && c.unmarshal(data[key]).None?)
            && (l == LoadFailed(TooNew) <==>
                  key in data && c.unmarshal(data[key]).Some? && c.unmarshal(data[key]).value.schema > 1)
            && l != LoadFailed(Interrupted)
    ensures var l := Load(c, data, name, version, verify);
            var key := name + "/" + version + "/manifest.yaml";
            key in data && c.unmarshal(data[key]).Some? && c.unmarshal(data[key]).value.schema <= 1 ==>
              var man := c.unmarshal(data[key]).value;
              && (l == LoadFailed(NoState) <==> man.stateKey !in data)
              && (l == LoadFailed(NoMemFile) <==> man.stateKey in data && man.memKey !in data)
  {
    assert name + "/" + version + "/manifest.yaml" == ManifestKey(name, version);
  }

  /** With both files: the hash of the memfile decides first, then its decoding, then the
      hash of the state. */
  lemma LoadFailsLateIff(c: Codec, data: Data, name: string, version: string, verify: bool, man: Manifest)
    requires var key := name + "/" + version + "/manifest.yaml"; key in data && c.unmarshal(data[key]) == Some(man)
    requires man.schema <= 1 && man.stateKey in data && man.memKey in data
    ensures var l, mem := Load(c, data, name, version, verify), data[man.memKey];
            var noSha, differs := verify && man.memSha == "", verify && c.sha(mem) != man.memSha;
            var tooLong := |c.decompress(mem).0| > MaxRaw(man.memMiB);
            var bad := man.compression == "zstd" && (tooLong || !c.decompress(mem).1);
            && (l == LoadFailed(NoSha) <==> noSha)
            && (l == LoadFailed(MemMismatch) <==> !noSha && differs)
            && (l.LoadFailed? && l.e.BadMemFile? <==> !noSha && !differs && bad)
            && (l == LoadFailed(StateMismatch) <==>
                  !noSha && !differs && !bad && verify && c.sha(data[man.stateKey]) != man.stateSha)
  {
    NeverUnbounded(man.memMiB);
    DecompressDecides(c, data[man.memKey], MaxRaw(man.memMiB), c.decompress(data[man.memKey]).0);
    assert name + "/" + version + "/manifest.yaml" == ManifestKey(name, version);
  }

  /** Load after Save, verifying or not: the original files, exactly when they fit. */
  lemma LoadAfterSave(c: Codec, data: Data, r: SaveReq, verify: bool)
    requires Sound(c) && Holds(c, data, r)
    ensures Load(c, data, r.name, r.version, verify) ==
            if !r.compress || |r.mem| <= MaxRaw(r.memMiB) then Loaded(r.mem, r.state, ManifestOf(c, r))
            else LoadFailed(BadMemFile(if MaxRaw(r.memMiB) < 0 then NegativeMax else Overflow))
  {
    NeverUnbounded(r.memMiB);
    assert c.unmarshal(c.marshal(ManifestOf(c, r))) == Some(ManifestOf(c, r));
    assert r.compress ==> c.decompress(c.compress(r.mem, r.level)) == (r.mem, true);
  }

  /** In the range where the bound does not wrap: a compressed bundle loads exactly when
      its raw length is at most the guest's memory and 64 MiB. */
  lemma CompressedLoadsIffWithinBound(c: Codec, data: Data, r: SaveReq, verify: bool)
    requires Sound(c) && r.compress && 0 <= r.memMiB <= MAX_INT64
    ensures var result := Load(c, Stage(c, data, r, 3), r.name, r.version, verify);
            && (r.memMiB <= TWO_43 - 65 ==> (result.Loaded? <==> |r.mem| <= r.memMiB * MIB + SLACK))
            && (r.memMiB == TWO_43 - 64 ==> result == LoadFailed(BadMemFile(NegativeMax)))
  {
    FullSaveHolds(c, data, r);
    LoadAfterSave(c, Stage(c, data, r, 3), r, verify);
    MaxRawIsExactIff(r.memMiB);
    assert r.memMiB == TWO_43 - 64 ==> MaxRaw(r.memMiB) == -MAX_INT64 - 1;
  }

  /** Without VerifySha256 a Load can mix two Saves: the second here stopped after its
      state. With it, the same Load fails. */
  lemma UnverifiedLoadMixesSaves(c: Codec, r: SaveReq, s: SaveReq)
    requires Sound(c) && r.name == s.name && r.version == s.version && !r.compress && r.state != s.state
    ensures var data := Stage(c, Stage(c, map[], r, 3), s, 1);
            && Load(c, data, r.name, r.version, false) == Loaded(r.mem, s.state, ManifestOf(c, r))
            && Load(c, data, r.name, r.version, true) == LoadFailed(StateMismatch)
  {
    OwnKeysDiffer(r);
    assert c.unmarshal(c.marshal(ManifestOf(c, r))) == Some(ManifestOf(c, r));
    assert c.sha(r.state) != c.sha(s.state);
  }
}
