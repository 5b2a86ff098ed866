/** Store and MockStorage as the code runs them: an object map updated in place, and
    Save and Load as sequences of storage calls, any of which may fail. */
module Stores {
  import opened Wrappers
  import opened Int64
  import opened Utf8
  import opened Bundles

  datatype Ranged = Slice(bytes: Bytes) | NoRange | Panics

  /** In-memory storage. A call under a context that is not `live` fails before it has an
      effect. */
  class MockStorage {
    var data: Data
    var gets: nat
    var puts: nat
    var bytesServed: nat

    constructor ()
      ensures data == map[] && gets == puts == bytesServed == 0
    {
      data, gets, puts, bytesServed := map[], 0, 0, 0;
    }

    /** Get: a copy of the object, or None with the reason in `missing`. */
    method Get(key: string, live: bool) returns (r: Option<array<Byte>>, missing: bool)
      modifies this`gets, this`bytesServed
      ensures gets == old(gets) + 1
      ensures r.Some? <==> live && key in data
      ensures missing <==> live && key !in data
      ensures r.Some? ==> fresh(r.value) && r.value[..] == data[key] && bytesServed == old(bytesServed) + |data[key]|
      ensures r.None? ==> bytesServed == old(bytesServed)
    {
      gets, missing := gets + 1, false;
      if !live {
        return None, false;
      }
      if key !in data {
        return None, true;
      }
      var v := data[key];
      var out := new Byte[|v|](i requires 0 <= i < |v| => v[i]);
      assert out[..] == v;
      bytesServed := bytesServed + out.Length;
      r := Some(out);
    }

    /** GetRange: the bytes from `offset` on, at most `length` of them, an error out of
        bounds; a length that is negative or overruns int64 slices out of range. */
    method GetRange(key: string, offset: int, length: int, live: bool) returns (r: Ranged)
      requires -MAX_INT64 - 1 <= offset <= MAX_INT64 && -MAX_INT64 - 1 <= length <= MAX_INT64
      modifies this`gets, this`bytesServed
      ensures gets == old(gets) + 1
      ensures r.NoRange? <==> !live || key !in data || !(0 <= offset <= |data[key]|)
      ensures !r.NoRange? ==> (r.Slice? <==> 0 <= length <= MAX_INT64 - offset)
      ensures r.Slice? ==> |r.bytes| == (if length <= |data[key]| - offset then length else |data[key]| - offset)
                           && r.bytes <= data[key][offset..]
    {
      var buf, missing := Get(key, live);
      if buf.None? || offset < 0 || offset > buf.value.Length {
        return NoRange;
      }
      var end := Wrap64(offset + length);
      if end > buf.value.Length {
        end := buf.value.Length;
      }
      if end < offset {
        return Panics;
      }
      r := Slice(buf.value[offset..end]);
    }

    /** Put: stores a copy, which later writes to `value` do not reach. */
    method Put(key: string, value: array<Byte>, live: bool) returns (ok: bool)
      modifies this`data, this`puts
      ensures puts == old(puts) + 1 && ok == live
      ensures data == if live then old(data)[key := value[..]] else old(data)
    {
      puts := puts + 1;
      if !live {
        return false;
      }
      data := data[key := value[..]];
      ok := true;
    }

    /** PutStream: reads the whole stream, then puts it. */
    method PutStream(key: string, stream: Bytes, live: bool) returns (ok: bool)
      modifies this`data, this`puts
      ensures puts == old(puts) + 1 && ok == live
      ensures data == if live then old(data)[key := stream] else old(data)
    {
      var buf := new Byte[|stream|](i requires 0 <= i < |stream| => stream[i]);
      assert buf[..] == stream;
      ok := Put(key, buf, live);
    }
  }

  /** DecompressFileBounded: the decoder hands over as many bytes at a time as it likes,
      through a reader that stops at Probe(max). */
  method DecompressFileBounded(c: Codec, file: Bytes, max: int) returns (r: Decompressed)
    requires -MAX_INT64 - 1 <= max <= MAX_INT64
    ensures r == Decompress(c, file, max)
  {
    if max < 0 {
      return NegativeMax;
    }
    var probe := MAX_INT64;
    if max < MAX_INT64 {
      probe := max + 1;
    }
    var (raw, clean) := c.decompress(file);
    var n := 0;
    while n < probe && n < |raw|
      invariant 0 <= n <= |raw| && n <= probe
    {
      var read: nat :| 1 <= read <= |raw| - n && read <= probe - n;
      n := n + read;
    }
    if n < probe && !clean {
      return NotZstd;
    }
    if n > max {
      return Overflow;
    }
    assert n == |raw| ==> raw[..n] == raw;
    r := Raw(raw[..n]);
  }

  /** SaveOptions as far as they override the Store. */
  datatype SaveOptions = SaveOptions(compress: Option<bool>, level: int, kernel: string, notes: string)

  class Store {
    const c: Codec
    const s: MockStorage
    const compressMemfile: bool
    const compressionLevel: int

    constructor (c: Codec, s: MockStorage, compressMemfile: bool, compressionLevel: int)
      ensures this.c == c && this.s == s
      ensures this.compressMemfile == compressMemfile && this.compressionLevel == compressionLevel
    {
      this.c, this.s, this.compressMemfile, this.compressionLevel := c, s, compressMemfile, compressionLevel;
    }

    /** The Save a call amounts to. */
    function Request(name: string, version: string, vcpus: int, memMiB: int, mem: Bytes, state: Bytes, opt: SaveOptions,
                     now: int): SaveReq
    {
      SaveReq(name, version, vcpus, memMiB, mem, state,
              if opt.compress.Some? then opt.compress.value else compressMemfile,
              if opt.level > 0 then opt.level else compressionLevel, opt.kernel, opt.notes, now)
    }

    /** Save, whose first `live` storage calls find the context live and whose next does
        not: the uploads land in the order state, memfile, manifest until one fails, and the
        manifest says what was uploaded. */
    method Save(name: string, version: string, vcpus: int, memMiB: int, mem: Bytes, state: Bytes, opt: SaveOptions,
                now: int, live: nat)
      returns (man: Option<Manifest>, ghost done: nat)
      modifies s
      ensures done == if name == "" || version == "" then 0 else if live <= 3 then live else 3
      ensures man.Some? <==> done == 3
      ensures var r := Request(name, version, vcpus, memMiB, mem, state, opt, now);
              s.data == Stage(c, old(s.data), r, done) && (man.Some? ==> man.value == ManifestOf(c, r))
      ensures var compress := if opt.compress.Some? then opt.compress.value else compressMemfile;
              var level := if opt.level > 0 then opt.level else compressionLevel;
              var upload := if compress then c.compress(mem, level) else mem;
              var base := name + "/" + version;
              var memKey := base + if compress then "/memfile.zst" else "/memfile.bin";
              && (done == 0 ==> s.data == old(s.data))
              && (done == 1 ==> s.data == old(s.data)[base + "/state.bin" := state])
              && (done == 2 ==> s.data == old(s.data)[base + "/state.bin" := state][memKey := upload])
              && (done == 3 ==>
                    && s.data == old(s.data)[base + "/state.bin" := state][memKey := upload]
                                                [base + "/manifest.yaml" := c.marshal(man.value)]
                    && man.value.schema == 1 && man.value.name == name && man.value.version == version
                    && man.value.createdAt == now && man.value.vcpus == vcpus && man.value.memMiB == memMiB
                    && man.value.kernel == opt.kernel && man.value.notes == opt.notes
                    && man.value.memKey == memKey && man.value.memSize == |upload| && man.value.memSha == c.sha(upload)
                    && man.value.compression == (if compress then "zstd" else "")
                    && man.value.stateKey == base + "/state.bin" && man.value.stateSize == |state|
                    && man.value.stateSha == c.sha(state))
    {
      done := 0;
      if name == "" || version == "" {
        return None, 0;
      }
      var compress := compressMemfile;
      if opt.compress.Some? {
        compress := opt.compress.value;
      }
      var level := compressionLevel;
      if opt.level > 0 {
        level := opt.level;
      }
      var stateKey := StateKey(name, version);
      var memKey := MemFileKey(name, version, compress);

      var ok := s.PutStream(stateKey, state, live > 0);
      if !ok {
        return None, 0;
      }
      var stateSha := c.sha(state);

      var uploaded, compTag := mem, "";
      if compress {
        uploaded, compTag := c.compress(mem, level), "zstd";
      }
      ok := s.PutStream(memKey, uploaded, live > 1);
      if !ok {
        return None, 1;
      }
      var memSha := c.sha(uploaded);

      var m := Manifest(SCHEMA, name, version, now, vcpus, memMiB, opt.kernel, memKey, |uploaded|, memSha, compTag,
                        stateKey, |state|, stateSha, opt.notes);
      var text := c.marshal(m);
      var buf := new Byte[|text|](i requires 0 <= i < |text| => text[i]);
      assert buf[..] == text;
      ok := s.Put(ManifestKey(name, version), buf, live > 2);
      if !ok {
        return None, 2;
      }
      return Some(m), 3;
    }

    /** Load, whose first `live` storage calls find the context live: what the storage
        holds, unless the context is done before the last call that this takes. */
    method Load(name: string, version: string, verify: bool, live: nat) returns (r: Loaded)
      modifies s`gets, s`bytesServed
      ensures r == LoadFailed(Interrupted) || r == Bundles.Load(c, s.data, name, version, verify)
      ensures var key := name + "/" + version + "/manifest.yaml";
              var parsed := if key in s.data then c.unmarshal(s.data[key]) else None;
              var calls := if parsed.None? || parsed.value.schema > 1 then 1
                           else if parsed.value.stateKey !in s.data then 2 else 3;
              r == LoadFailed(Interrupted) <==> live < calls
    {
      var manBytes, noManifest := s.Get(ManifestKey(name, version), live > 0);
      if manBytes.None? {
        return LoadFailed(if noManifest then NoManifest else Interrupted);
      }
      var (parsed, err) := Unmarshal(c, manBytes.value[..]);
      if parsed.None? {
        return LoadFailed(err);
      }
      var man := parsed.value;
      var state, noState := s.Get(man.stateKey, live > 1);
      if state.None? {
        return LoadFailed(if noState then NoState else Interrupted);
      }
      var stateFile := state.value[..];
      var mem, noMem := s.Get(man.memKey, live > 2);
      if mem.None? {
        return LoadFailed(if noMem then NoMemFile else Interrupted);
      }
      var memFile := mem.value[..];

      if verify {
        if man.memSha == "" {
          return LoadFailed(NoSha);
        }
        if c.sha(memFile) != man.memSha {
          return LoadFailed(MemMismatch);
        }
      }
      var memPath := memFile;
      if man.compression == "zstd" {
        var raw := DecompressFileBounded(c, memFile, MaxRaw(man.memMiB));
        if !raw.Raw? {
          return LoadFailed(BadMemFile(raw));
        }
        memPath := raw.bytes;
      }
      if verify && c.sha(stateFile) != man.stateSha {
        return LoadFailed(StateMismatch);
      }
      r := Loaded(memPath, stateFile, man);
    }
  }

  /** Save, then Load: the Save succeeds if and only if it has a name and its context
      lives through its three uploads; the Load then returns the original files if and only
      if its context lives through three downloads and the bundle, if compressed, fits. */
  method SaveThenLoad(st: Store, name: string, version: string, vcpus: int, memMiB: int, mem: Bytes, state: Bytes,
                      opt: SaveOptions, now: int, verify: bool, saveLive: nat, loadLive: nat)
    returns (saved: bool, r: Loaded)
    requires Sound(st.c)
    modifies st.s
    ensures saved <==> name != "" && version != "" && saveLive >= 3
    ensures r.Loaded? <==> saved && loadLive >= 3 &&
                           ((if opt.compress.Some? then opt.compress.value else st.compressMemfile) ==>
                              |mem| <= MaxRaw(memMiB))
    ensures r.Loaded? ==> r.mem == mem && r.state == state && r.man.vcpus == vcpus && r.man.memMiB == memMiB
  {
    var man, done := st.Save(name, version, vcpus, memMiB, mem, state, opt, now, saveLive);
    saved, r := man.Some?, LoadFailed(Interrupted);
    if saved {
      ghost var q := st.Request(name, version, vcpus, memMiB, mem, state, opt, now);
      FullSaveHolds(st.c, old(st.s.data), q);
      LoadAfterSave(st.c, st.s.data, q, verify);
      assert st.c.unmarshal(st.c.marshal(man.value)) == Some(man.value);
      r := st.Load(name, version, verify, loadLive);
    }
  }
}
