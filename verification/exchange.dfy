/** The signed command exchange: Go's signCmd and Call on one side, the agent's
    framing, parsing and verification on the other. HMAC is a parameter. */
module Exchange {
  import opened Wrappers
  import opened Utf8
  import opened Json
  import opened JsonParse

  type Command = map<string, Value>

  predicate IsHexDigit(c: char) { '0' <= c <= '9' || 'a' <= c <= 'f' }

  type Hex = s: string | forall c <- s :: IsHexDigit(c) witness ""

  /** hexdigest of HMAC-SHA256: key, message. */
  type Mac = (Bytes, Bytes) -> Hex

  const AUTH := "auth"

  /** canonicalJSON and _canonical_json. */
  function CanonicalText(cmd: Command): string { Print(Obj(cmd), GoCanonical) }

  function PythonText(cmd: Command): string { Print(Obj(cmd), Python) }

  function WithoutAuth(cmd: Command): Command { cmd - {AUTH} }

  function SignCmd(mac: Mac, secret: Bytes, cmd: Command): Command {
    var cp := WithoutAuth(cmd);
    cp[AUTH := Str(mac(secret, Encode(CanonicalText(cp))))]
  }

  /** What Call writes: a signed command if there is a secret, and a newline. */
  function Wire(mac: Mac, secret: Bytes, cmd: Command): Bytes {
    Encode(Print(Obj(if secret != [] then SignCmd(mac, secret, cmd) else cmd), GoMarshal)) + [10]
  }

  // --------------------------------------------------------------- agent

  const MAX_CMD_BYTES: nat := 16 * 1024 * 1024

  /** What a connection leads to. Crashed is an exception that escapes handle. */
  datatype Outcome =
    | Silent | TooLarge | BadJson | NotAnObject | Unauthenticated | Crashed | Dispatched(cmd: Command)

  /** `name not in UNAUTH_CMDS` hashes the name: a list or dict raises TypeError. */
  predicate Hashable(name: Option<Value>) {
    name.Some? ==> !name.value.Arr? && !name.value.Obj?
  }

  function Name(cmd: Command): Option<Value> {
    if "cmd" in cmd then Some(cmd["cmd"]) else None
  }

  /** The one member of UNAUTH_CMDS. */
  predicate IsPing(cmd: Command) {
    Name(cmd) == Some(Str("ping"))
  }

  /** _verify_auth, with the tag already popped; a non-ASCII tag makes
      compare_digest raise. */
  function Verify(mac: Mac, secret: Option<Bytes>, cmd: Command): Outcome {
    if secret.None? then Dispatched(cmd)
    else
      var rest := WithoutAuth(cmd);
      if AUTH !in cmd || !cmd[AUTH].Str? then Unauthenticated
      else if exists c <- cmd[AUTH].s :: c as int >= 0x80 then Crashed
      else if cmd[AUTH].s == mac(secret.value, Encode(PythonText(rest))) then Dispatched(rest)
      else Unauthenticated
  }

  /** handle after its receive loop. */
  function HandleRaw(mac: Mac, secret: Option<Bytes>, raw: Bytes): Outcome {
    if raw == [] then Silent
    else
      match Decode(raw)
      case None => BadJson
      case Some(text) =>
        match Loads(text)
        case None => BadJson
        case Some(v) =>
          if !v.Obj? then NotAnObject
          else if !Hashable(Name(v.m)) then Crashed
          else if IsPing(v.m) then Dispatched(v.m)
          else Verify(mac, secret, v.m)
  }

  function Joined(chunks: seq<Bytes>): Bytes {
    if chunks == [] then [] else Joined(chunks[..|chunks| - 1]) + chunks[|chunks| - 1]
  }

  /** The agent's receive loop over the chunks that recv returns, then the rest of
      handle. The chunks end when the peer closes. One line leads to the same outcome
      in whatever chunks it arrives. */
  method Handle(mac: Mac, secret: Option<Bytes>, chunks: seq<Bytes>) returns (out: Outcome)
    requires forall c <- chunks :: c != []
    ensures out == HandleChunks(mac, secret, chunks, 0)
    ensures forall body: Bytes | Joined(chunks) == body + [10] && 10 !in body ::
              out == if |body| + 1 > MAX_CMD_BYTES then TooLarge else HandleRaw(mac, secret, body + [10])
  {
    forall body: Bytes | Joined(chunks) == body + [10] && 10 !in body
      ensures HandleChunks(mac, secret, chunks, 0) ==
              if |body| + 1 > MAX_CMD_BYTES then TooLarge else HandleRaw(mac, secret, body + [10])
    {
      assert chunks[..0] == [];
      ChunkingDoesNotMatter(mac, secret, chunks, body, 0);
    }
    var raw: Bytes, i := [], 0;
    while 10 !in raw && i < |chunks|
      invariant 0 <= i <= |chunks| && raw == Joined(chunks[..i]) && |raw| <= MAX_CMD_BYTES
      invariant HandleChunks(mac, secret, chunks, i) == HandleChunks(mac, secret, chunks, 0)
    {
      assert chunks[..i + 1][..i] == chunks[..i];
      raw := raw + chunks[i];
      i := i + 1;
      if |raw| > MAX_CMD_BYTES {
        return TooLarge;
      }
    }
    out := HandleRaw(mac, secret, raw);
  }

  /** The loop's meaning, from the point where `i` chunks have been read. */
  function HandleChunks(mac: Mac, secret: Option<Bytes>, chunks: seq<Bytes>, i: nat): Outcome
    requires i <= |chunks|
    decreases |chunks| - i
  {
    var raw := Joined(chunks[..i]);
    if 10 in raw || i == |chunks| then HandleRaw(mac, secret, raw)
    else if |Joined(chunks[..i + 1])| > MAX_CMD_BYTES then TooLarge
    else HandleChunks(mac, secret, chunks, i + 1)
  }

  // ----------------------------------------------- the wire is one clean line

  /** The characters that a printer may write as they are, inside a string or outside. */
  predicate Plain(c: char, style: Style) {
    match style
    case GoCanonical => c >= ' ' && c as int != 0x2028 && c as int != 0x2029
    case GoMarshal => c >= ' ' && c as int != 0x2028 && c as int != 0x2029 && c != '<' && c != '>' && c != '&'
    case Python => ' ' <= c <= '~'
  }

  ghost predicate Clean(text: string, style: Style) {
    forall c <- text :: Plain(c, style)
  }

  lemma CleanAppend(s: string, t: string, style: Style)
    requires Clean(s, style) && Clean(t, style)
    ensures Clean(s + t, style)
  {
  }

  lemma {:induction false} EscapeAllIsClean(s: string, style: Style)
    ensures Clean(EscapeAll(s, style), style)
  {
    if s != [] {
      EscapeIsClean(s[0], style);
      EscapeAllIsClean(s[1..], style);
    }
  }

  lemma EscapeIsClean(c: char, style: Style)
    ensures Clean(Escape(c, style), style)
  {
    if ShortEscape(c).None? && HexEscaped(c, style) {
      var n := c as int;
      if n < 0x10000 {
        HexIsClean(n, style);
      } else {
        HexIsClean(0xD800 + (n - 0x10000) / 0x400, style);
        HexIsClean(0xDC00 + (n - 0x10000) % 0x400, style);
      }
    }
  }

  lemma HexIsClean(n: int, style: Style)
    requires 0 <= n < 0x10000
    ensures Clean(HexEscape(n), style)
  {
    forall d | 0 <= d < 16 ensures '0' <= HexDigit(d) <= 'f' && Plain(HexDigit(d), style) {}
  }

  lemma {:induction false} DigitsAreClean(n: nat, style: Style)
    ensures Clean(Digits(n), style)
  {
    if n >= 10 { DigitsAreClean(n / 10, style); }
  }

  lemma QuotedIsClean(s: string, style: Style)
    ensures Clean(Quoted(s, style), style)
  {
    EscapeAllIsClean(s, style);
    CleanAppend([QUOTE], EscapeAll(s, style), style);
    CleanAppend([QUOTE] + EscapeAll(s, style), [QUOTE], style);
  }

  /** The whole text of any value, keys included. */
  lemma {:induction false} PrintIsClean(v: Value, style: Style)
    ensures Clean(Print(v, style), style)
    decreases v, 1, 0
  {
    match v
    case Null =>
    case Bool(b) =>
    case Int(n) => DigitsAreClean(if n < 0 then -n else n, style);
    case Str(s) => QuotedIsClean(s, style);
    case Arr(a) =>
      ElementsAreClean(v, 0, style);
      CleanAppend("[" + PrintElements(v, 0, style), "]", style);
    case Obj(m) =>
      MembersAreClean(v, SortedKeys(m.Keys), style);
      CleanAppend("{" + PrintMembers(v, SortedKeys(m.Keys), style), "}", style);
  }

  lemma {:induction false} ElementsAreClean(v: Value, i: nat, style: Style)
    requires v.Arr? && i <= |v.a|
    ensures Clean(PrintElements(v, i, style), style)
    decreases v, 0, |v.a| - i
  {
    if i < |v.a| {
      PrintIsClean(v.a[i], style);
      if i + 1 < |v.a| {
        ElementsAreClean(v, i + 1, style);
        CleanAppend(Print(v.a[i], style), "," + PrintElements(v, i + 1, style), style);
      }
    }
  }

  lemma {:induction false} MembersAreClean(v: Value, keys: seq<string>, style: Style)
    requires v.Obj? && forall k <- keys :: k in v.m
    ensures Clean(PrintMembers(v, keys, style), style)
    decreases v, 0, |keys|
  {
    if keys != [] {
      QuotedIsClean(keys[0], style);
      PrintIsClean(v.m[keys[0]], style);
      CleanAppend(Quoted(keys[0], style) + ":", Print(v.m[keys[0]], style), style);
      if |keys| > 1 {
        MembersAreClean(v, keys[1..], style);
        CleanAppend(PrintPair(v, keys[0], style), "," + PrintMembers(v, keys[1..], style), style);
      }
    }
  }

  /** What is on the wire and what the agent hashes: no text has a control character;
      Go's have neither of the line separators, the one that is sent no <, > or & either,
      and Python's is printable ASCII. */
  lemma TextsAreSafe(v: Value, c: char)
    ensures c in Print(v, GoCanonical) ==> c >= ' ' && c as int !in {0x2028, 0x2029}
    ensures c in Print(v, GoMarshal) ==> c >= ' ' && c as int !in {0x2028, 0x2029} && c !in {'<', '>', '&'}
    ensures c in Print(v, Python) ==> ' ' <= c <= '~'
  {
    PrintIsClean(v, GoCanonical);
    PrintIsClean(v, GoMarshal);
    PrintIsClean(v, Python);
  }

  /** A character is written as it is exactly if it is none of those and neither a quote
      nor a backslash; any other is written as an escape that begins with a backslash. */
  lemma WrittenAsItIsIff(c: char, style: Style)
    ensures Escape(c, style) == [c] <==> Plain(c, style) && c != '\"' && c != '\\'
    ensures Escape(c, style) != [c] ==> |Escape(c, style)| >= 2 && Escape(c, style)[0] == '\\'
  {
  }

  /** The short escapes, the same in all three. */
  lemma ShortEscapes(style: Style)
    ensures Escape('\"', style) == "\\\"" && Escape('\\', style) == "\\\\" && Escape('\n', style) == "\\n"
    ensures Escape('\r', style) == "\\r" && Escape('\t', style) == "\\t"
    ensures Escape(8 as char, style) == "\\b" && Escape(12 as char, style) == "\\f"
  {
  }

  /** The long ones: four lower-case digits, two of them where UTF-16 needs a pair. */
  lemma LongEscapes(style: Style)
    ensures Escape(1 as char, style) == "\\u0001" && Escape(0x2028 as char, style) == "\\u2028"
    ensures Escape('<', GoMarshal) == "\\u003c" && Escape('>', GoMarshal) == "\\u003e"
    ensures Escape('&', GoMarshal) == "\\u0026"
    ensures Escape(0xe9 as char, Python) == "\\u00e9"
  {
  }

  lemma PairEscape()
    ensures Escape(0x1f600 as char, Python) == "\\ud83d\\ude00"
  {
    assert HexEscape(0xd83d) == "\\ud83d" && HexEscape(0xde00) == "\\ude00";
  }

  /** The plain values and the empty ones. */
  lemma TextOfScalars(style: Style)
    ensures Print(Null, style) == "null" && Print(Bool(true), style) == "true" && Print(Bool(false), style) == "false"
    ensures Print(Int(-10), style) == "-10" && Print(Int(0), style) == "0" && Print(Str("a"), style) == "\"a\""
    ensures Print(Arr([]), style) == "[]" && Print(Obj(map[]), style) == "{}"
  {
    assert Digits(10) == "10";
  }

  lemma TextOfList(x: Value, y: Value, style: Style)
    ensures Print(Arr([x, y]), style) == "[" + Print(x, style) + "," + Print(y, style) + "]"
  {
    var v := Arr([x, y]);
    assert PrintElements(v, 1, style) == Print(y, style);
    assert PrintElements(v, 0, style) == Print(x, style) + ("," + Print(y, style));
    assert Print(v, style) == "[" + (Print(x, style) + ("," + Print(y, style))) + "]";
  }

  /** Members come in the order of their keys. */
  lemma TextOfObject(k: string, l: string, x: Value, y: Value, style: Style)
    requires k != l && Le(k, l)
    ensures Print(Obj(map[l := y, k := x]), style)
         == "{" + Quoted(k, style) + ":" + Print(x, style) + "," + Quoted(l, style) + ":" + Print(y, style) + "}"
  {
    var v := Obj(map[l := y, k := x]);
    SortedKeysUnique([k, l], v.m.Keys);
    TextOfMembers(v, k, l, style);
    JoinedPairs(Quoted(k, style), Print(x, style), Quoted(l, style), Print(y, style));
  }

  lemma TextOfMembers(v: Value, k: string, l: string, style: Style)
    requires v.Obj? && k in v.m && l in v.m
    ensures PrintMembers(v, [k, l], style) == PrintPair(v, k, style) + ("," + PrintPair(v, l, style))
  {
    assert [k, l][1..] == [l];
    assert PrintMembers(v, [l], style) == PrintPair(v, l, style) + "" == PrintPair(v, l, style);
  }

  lemma JoinedPairs(k: string, x: string, l: string, y: string)
    ensures "{" + ((k + ":" + x) + ("," + (l + ":" + y))) + "}" == "{" + k + ":" + x + "," + l + ":" + y + "}"
  {
  }

  /** A sent body holds no raw newline byte, whatever the command. */
  lemma BodyHasNoNewline(v: Value, style: Style)
    ensures 10 !in Encode(Print(v, style))
  {
    PrintIsClean(v, style);
    if 10 in Encode(Print(v, style)) { AsciiByteIsChar(Print(v, style), 10); }
  }

  // ----------------------------------------------------- chunk independence

  lemma {:induction false} JoinedPrefix(chunks: seq<Bytes>, i: nat)
    requires i <= |chunks|
    ensures Joined(chunks[..i]) <= Joined(chunks)
    ensures i < |chunks| && (forall c <- chunks :: c != []) ==> |Joined(chunks[..i])| < |Joined(chunks)|
    decreases |chunks| - i
  {
    if i == |chunks| {
      assert chunks[..i] == chunks;
    } else {
      JoinedPrefix(chunks, i + 1);
      assert chunks[..i + 1][..i] == chunks[..i];
      assert chunks[i] in chunks;
    }
  }

  /** However a newline-terminated body is split, the agent reads it whole, or
      refuses it exactly when it is over the limit. */
  lemma {:induction false} ChunkingDoesNotMatter(mac: Mac, secret: Option<Bytes>, chunks: seq<Bytes>, body: Bytes, i: nat)
    requires i <= |chunks| && (forall c <- chunks :: c != [])
    requires Joined(chunks) == body + [10] && 10 !in body
    requires |Joined(chunks[..i])| <= MAX_CMD_BYTES
    ensures HandleChunks(mac, secret, chunks, i)
         == if |body| + 1 > MAX_CMD_BYTES then TooLarge else HandleRaw(mac, secret, body + [10])
    decreases |chunks| - i
  {
    JoinedPrefix(chunks, i);
    if i == |chunks| {
      assert chunks[..i] == chunks;
    } else {
      var raw := Joined(chunks[..i]);
      assert raw <= body by {
        assert forall j | 0 <= j < |raw| :: raw[j] == (body + [10])[j];
      }
      assert 10 !in raw;
      JoinedPrefix(chunks, i + 1);
      if |Joined(chunks[..i + 1])| <= MAX_CMD_BYTES {
        ChunkingDoesNotMatter(mac, secret, chunks, body, i + 1);
      }
    }
  }

  /** The loop reads up to the first newline or the end of the stream, and hands on all it
      has read, unless that is too large. */
  lemma {:induction false} LoopReadsOn(mac: Mac, secret: Option<Bytes>, chunks: seq<Bytes>, i: nat, k: nat)
    requires i <= k <= |chunks| && (forall c <- chunks :: c != [])
    requires |Joined(chunks[..i])| <= MAX_CMD_BYTES && (forall j | i <= j < k :: 10 !in Joined(chunks[..j]))
    requires 10 in Joined(chunks[..k]) || k == |chunks|
    ensures HandleChunks(mac, secret, chunks, i)
         == if |Joined(chunks[..k])| > MAX_CMD_BYTES then TooLarge else HandleRaw(mac, secret, Joined(chunks[..k]))
    decreases k - i
  {
    if i < k {
      if |Joined(chunks[..i + 1])| <= MAX_CMD_BYTES {
        LoopReadsOn(mac, secret, chunks, i + 1, k);
      } else {
        JoinedPrefix(chunks[..k], i + 1);
        assert chunks[..k][..i + 1] == chunks[..i + 1];
        assert forall c | c in chunks[..k] :: c in chunks;
      }
    }
  }

  /** Any stream of the peer: `k` chunks bring the first newline, or are all there are. */
  lemma StreamIsReadToItsNewline(mac: Mac, secret: Option<Bytes>, chunks: seq<Bytes>, k: nat)
    requires k <= |chunks| && (forall c <- chunks :: c != [])
    requires (forall j | 0 <= j < k :: 10 !in Joined(chunks[..j])) && (10 in Joined(chunks[..k]) || k == |chunks|)
    ensures HandleChunks(mac, secret, chunks, 0)
         == if |Joined(chunks[..k])| > MAX_CMD_BYTES then TooLarge else HandleRaw(mac, secret, Joined(chunks[..k]))
  {
    assert chunks[..0] == [];
    LoopReadsOn(mac, secret, chunks, 0, k);
  }

  // ----------------------------------------------- whoever sends the line

  /** The text of a line and the value in it. */
  ghost predicate Parses(raw: Bytes, v: Value) {
    Decode(raw).Some? && Loads(Decode(raw).value) == Some(v)
  }

  /** What is not a JSON object. */
  lemma OtherLines(mac: Mac, secret: Option<Bytes>, raw: Bytes)
    ensures HandleRaw(mac, secret, raw) == Silent <==> raw == []
    ensures HandleRaw(mac, secret, raw) == BadJson <==> raw != [] && forall v :: !Parses(raw, v)
    ensures HandleRaw(mac, secret, raw) == NotAnObject <==> raw != [] && exists v :: Parses(raw, v) && !v.Obj?
  {
    if raw != [] && Decode(raw).Some? && Loads(Decode(raw).value).Some? {
      assert Parses(raw, Loads(Decode(raw).value).value);
    }
  }

  /** Any object, whoever sent it, with a tag of any kind or none. Ping is dispatched as it
      is. With a secret every other command is dispatched if and only if its "auth" is the
      tag of all the rest of it, and then without it; with no secret always, unchanged. The
      agent raises on a name it cannot hash and on a tag that is not ASCII. */
  lemma AnyObjectIsDecided(mac: Mac, secret: Option<Bytes>, raw: Bytes, m: Command)
    requires raw != [] && Parses(raw, Obj(m))
    ensures var out := HandleRaw(mac, secret, raw);
            var named := "cmd" in m;
            if named && (m["cmd"].Arr? || m["cmd"].Obj?) then out == Crashed
            else if (named && m["cmd"] == Str("ping")) || secret.None? then out == Dispatched(m)
            else
              var rest := m - {"auth"};
              && (out.Dispatched? <==>
                    "auth" in m && m["auth"] == Str(mac(secret.value, Encode(Print(Obj(rest), Python)))))
              && (out.Dispatched? ==> out == Dispatched(rest))
              && (out == Crashed <==> "auth" in m && m["auth"].Str? && exists c <- m["auth"].s :: c as int >= 0x80)
              && (out.Dispatched? || out == Crashed || out == Unauthenticated)
  {
    if secret.Some? { HexIsAscii(mac(secret.value, Encode(Print(Obj(m - {"auth"}), Python)))); }
  }

  /** The same of a line in whatever chunks it comes. */
  lemma AnyLineIsDecided(mac: Mac, secret: Option<Bytes>, chunks: seq<Bytes>, body: Bytes, m: Command)
    requires (forall c <- chunks :: c != []) && Joined(chunks) == body + [10] && 10 !in body
    requires |body| + 1 <= MAX_CMD_BYTES && Parses(body + [10], Obj(m))
    requires "cmd" in m ==> !m["cmd"].Arr? && !m["cmd"].Obj? && m["cmd"] != Str("ping")
    ensures var out := HandleChunks(mac, secret, chunks, 0);
            match secret
            case None => out == Dispatched(m)
            case Some(k) =>
              && (out.Dispatched? <==>
                    "auth" in m && m["auth"] == Str(mac(k, Encode(Print(Obj(m - {"auth"}), Python)))))
              && (out.Dispatched? ==> out == Dispatched(m - {"auth"}))
  {
    assert chunks[..0] == [];
    ChunkingDoesNotMatter(mac, secret, chunks, body, 0);
    AnyObjectIsDecided(mac, secret, body + [10], m);
  }

  // --------------------------------------------------------- main results

  /** Signing discards a caller-set tag, so signing twice is signing once. */
  lemma SigningTwiceIsSigningOnce(mac: Mac, secret: Bytes, cmd: Command)
    ensures SignCmd(mac, secret, SignCmd(mac, secret, cmd)) == SignCmd(mac, secret, cmd)
  {
    assert WithoutAuth(SignCmd(mac, secret, cmd)) == WithoutAuth(cmd);
  }

  /** The agent parses the wire back to the command that was sent. */
  lemma WireParsesBack(v: Value)
    ensures Decode(Encode(Print(v, GoMarshal)) + [10]) == Some(Print(v, GoMarshal) + "\n")
    ensures Loads(Print(v, GoMarshal) + "\n") == Some(v)
  {
    var text := Print(v, GoMarshal);
    EncodeAppend(text, "\n");
    assert Encode("\n") == [10] by { assert "\n"[1..] == []; }
    RoundTrip(text + "\n");
    LoadsInvertsPrint(v, GoMarshal, true);
  }

  /** The two sides' tags for the same command. */
  predicate TagsAgree(mac: Mac, secret: Bytes, cmd: Command) {
    mac(secret, Encode(CanonicalText(cmd))) == mac(secret, Encode(PythonText(cmd)))
  }

  /** What a signed command leads to: the agent raises on a name it cannot hash, looks at
      no tag of ping, and otherwise compares the two sides' tags. */
  lemma AgentOnSignedWire(mac: Mac, secret: Bytes, cmd: Command)
    requires secret != []
    ensures HandleRaw(mac, Some(secret), Wire(mac, secret, cmd))
         == if !Hashable(Name(cmd)) then Crashed
            else if IsPing(cmd) then Dispatched(SignCmd(mac, secret, cmd))
            else if TagsAgree(mac, secret, WithoutAuth(cmd)) then Dispatched(WithoutAuth(cmd)) else Unauthenticated
  {
    AgentParsesSigned(mac, secret, cmd, SignCmd(mac, secret, cmd));
    VerifySigned(mac, secret, cmd);
  }

  lemma AgentParsesSigned(mac: Mac, secret: Bytes, cmd: Command, signed: Command)
    requires secret != [] && signed == SignCmd(mac, secret, cmd)
    ensures HandleRaw(mac, Some(secret), Wire(mac, secret, cmd))
         == if !Hashable(Name(cmd)) then Crashed
            else if IsPing(cmd) then Dispatched(signed) else Verify(mac, Some(secret), signed)
  {
    WireParsesBack(Obj(signed));
    assert Name(signed) == Name(cmd);
  }

  lemma VerifySigned(mac: Mac, secret: Bytes, cmd: Command)
    ensures Verify(mac, Some(secret), SignCmd(mac, secret, cmd))
         == if TagsAgree(mac, secret, WithoutAuth(cmd)) then Dispatched(WithoutAuth(cmd)) else Unauthenticated
  {
    var signed := SignCmd(mac, secret, cmd);
    assert WithoutAuth(signed) == WithoutAuth(cmd);
    HexIsAscii(mac(secret, Encode(CanonicalText(WithoutAuth(cmd)))));
  }

  lemma HexIsAscii(tag: Hex)
    ensures !exists c <- tag :: c as int >= 0x80
  {
    forall c | c in tag ensures (c as int) < 0x80 { assert IsHexDigit(c); }
  }

  /** In whatever chunks: past the limit the line is refused, within it the outcome is
      that of the whole line. */
  lemma SignedLineArrives(mac: Mac, secret: Bytes, cmd: Command, chunks: seq<Bytes>)
    requires secret != []
    requires (forall c <- chunks :: c != []) && Joined(chunks) == Wire(mac, secret, cmd)
    ensures HandleChunks(mac, Some(secret), chunks, 0)
         == if |Wire(mac, secret, cmd)| > MAX_CMD_BYTES then TooLarge
            else HandleRaw(mac, Some(secret), Wire(mac, secret, cmd))
  {
    var body := Encode(Print(Obj(SignCmd(mac, secret, cmd)), GoMarshal));
    BodyHasNoNewline(Obj(SignCmd(mac, secret, cmd)), GoMarshal);
    assert chunks[..0] == [];
    ChunkingDoesNotMatter(mac, Some(secret), chunks, body, 0);
  }

  /** Over every signed command, secret and split into chunks: the agent refuses it as
      too large exactly past the limit, and otherwise dispatches exactly the caller's
      command without any caller-set tag whenever the command is portable and its name
      can be hashed; ping is dispatched with the tag still on it. */
  lemma SignedCommandIsDispatched(mac: Mac, secret: Bytes, cmd: Command, chunks: seq<Bytes>)
    requires secret != []
    requires (forall c <- chunks :: c != []) && Joined(chunks) == Wire(mac, secret, cmd)
    ensures |Wire(mac, secret, cmd)| > MAX_CMD_BYTES <==> HandleChunks(mac, Some(secret), chunks, 0) == TooLarge
    ensures |Wire(mac, secret, cmd)| <= MAX_CMD_BYTES && Portable(Obj(WithoutAuth(cmd))) && Hashable(Name(cmd)) ==>
              HandleChunks(mac, Some(secret), chunks, 0) ==
              Dispatched(if IsPing(cmd) then SignCmd(mac, secret, cmd) else WithoutAuth(cmd))
  {
    SignedLineArrives(mac, secret, cmd, chunks);
    AgentOnSignedWire(mac, secret, cmd);
    CanonicalTextsAgreeIff(Obj(WithoutAuth(cmd)));
  }

  /** The two canonical texts of one command do not collide under the secret. */
  predicate TellsApart(mac: Mac, secret: Bytes, cmd: Command) {
    CanonicalText(cmd) != PythonText(cmd) ==> !TagsAgree(mac, secret, cmd)
  }

  /** If its two canonical texts have different tags unless they are equal, a command is
      accepted exactly when it is within the limit and ping, or portable with a name the
      agent can hash. Within the limit the agent raises exactly on the other names. */
  lemma SignedCommandIsAcceptedIff(mac: Mac, secret: Bytes, cmd: Command, chunks: seq<Bytes>)
    requires secret != [] && TellsApart(mac, secret, WithoutAuth(cmd))
    requires (forall c <- chunks :: c != []) && Joined(chunks) == Wire(mac, secret, cmd)
    ensures HandleChunks(mac, Some(secret), chunks, 0).Dispatched?
            <==> |Wire(mac, secret, cmd)| <= MAX_CMD_BYTES
                 && (IsPing(cmd) || (Portable(Obj(WithoutAuth(cmd))) && Hashable(Name(cmd))))
    ensures HandleChunks(mac, Some(secret), chunks, 0) == Crashed
            <==> |Wire(mac, secret, cmd)| <= MAX_CMD_BYTES && !Hashable(Name(cmd))
  {
    SignedLineArrives(mac, secret, cmd, chunks);
    AgentOnSignedWire(mac, secret, cmd);
    CanonicalTextsAgreeIff(Obj(WithoutAuth(cmd)));
  }

  /** With a secret loaded, an untagged command is refused unless it is ping, which
      is dispatched as sent; a name that cannot be hashed raises. */
  lemma UnsignedCommandNeedsPing(mac: Mac, secret: Bytes, cmd: Command)
    requires AUTH !in cmd
    ensures HandleRaw(mac, Some(secret), Wire(mac, [], cmd))
         == if !Hashable(Name(cmd)) then Crashed else if IsPing(cmd) then Dispatched(cmd) else Unauthenticated
  {
    WireParsesBack(Obj(cmd));
  }

  /** Equal signed bytes imply equal commands. */
  lemma CanonicalBytesAreInjective(cmd: Command, other: Command)
    requires Encode(CanonicalText(cmd)) == Encode(CanonicalText(other))
    ensures cmd == other
  {
    EncodeInjective(CanonicalText(cmd), CanonicalText(other));
    PrintIsInjective(Obj(cmd), Obj(other), GoCanonical);
  }

  /** Go sorts the keys by their bytes and Python by their code points: the same order. */
  lemma {:induction false} ByteOrderIsCharOrder(a: string, b: string)
    ensures BytesLe(Encode(a), Encode(b)) <==> Le(a, b)
  {
    if a != [] && b != [] {
      if a[0] == b[0] {
        ByteOrderIsCharOrder(a[1..], b[1..]);
        SameFront(EncodeChar(a[0]), Encode(a[1..]), Encode(b[1..]));
      } else if a[0] < b[0] {
        FirstCharDecides(a[0], b[0], Encode(a[1..]), Encode(b[1..]));
      } else {
        FirstCharDecides(b[0], a[0], Encode(b[1..]), Encode(a[1..]));
      }
    }
  }

  // -------------------------------------------------- signCmd, step by step

  predicate Distinct(ks: seq<string>) {
    forall i, j | 0 <= i < j < |ks| :: ks[i] != ks[j]
  }

  /** sort.Strings, as an insertion into the sorted prefix. */
  method SortStrings(keys: seq<string>) returns (r: seq<string>)
    requires Distinct(keys)
    ensures Ascending(r) && forall k :: k in r <==> k in keys
  {
    r := [];
    for i := 0 to |keys|
      invariant Ascending(r) && forall k :: k in r <==> k in keys[..i]
    {
      var j := |r|;
      while j > 0 && !Le(r[j - 1], keys[i])
        invariant 0 <= j <= |r| && forall x | j <= x < |r| :: Le(keys[i], r[x])
      {
        LeTotal(r[j - 1], keys[i]);
        j := j - 1;
      }
      InsertAscending(r, keys[i], j);
      assert keys[..i + 1] == keys[..i] + [keys[i]];
      r := r[..j] + [keys[i]] + r[j..];
    }
    assert keys[..|keys|] == keys;
  }

  lemma InsertAscending(r: seq<string>, k: string, j: nat)
    requires Ascending(r) && j <= |r| && k !in r
    requires j > 0 ==> Le(r[j - 1], k)
    requires forall x | j <= x < |r| :: Le(k, r[x])
    ensures Ascending(r[..j] + [k] + r[j..])
    ensures forall x :: x in r[..j] + [k] + r[j..] <==> x in r || x == k
  {
    forall x | 0 <= x < j ensures Le(r[x], k) && r[x] != k {
      if x < j - 1 { LeTransitive(r[x], r[j - 1], k); }
    }
    InsertedMembers(r, k, j);
  }

  lemma InsertedMembers(r: seq<string>, k: string, j: nat)
    requires j <= |r|
    ensures forall x :: x in r[..j] + [k] + r[j..] <==> x in r || x == k
  {
    forall x ensures x in r[..j] + [k] + r[j..] <==> x in r || x == k {
      assert r == r[..j] + r[j..];
    }
  }

  /** Ranging over a map: its keys in an arbitrary order. */
  method GatherKeys(cmd: Command) returns (keys: seq<string>)
    ensures Distinct(keys) && forall k :: k in keys <==> k in cmd
  {
    keys := [];
    var left := cmd.Keys;
    while left != {}
      invariant left <= cmd.Keys && Distinct(keys) && forall k :: k in keys <==> k in cmd && k !in left
      decreases left
    {
      var k :| k in left;
      keys, left := keys + [k], left - {k};
    }
  }

  /** What is left to print before the closing brace once `i` pairs are out. */
  ghost function Remaining(v: Value, keys: seq<string>, i: nat): string
    requires v.Obj? && i <= |keys| && forall k <- keys :: k in v.m
  {
    (if 0 < i < |keys| then "," else "") + PrintMembers(v, keys[i..], GoCanonical)
  }

  lemma RemainingStep(v: Value, keys: seq<string>, i: nat)
    requires v.Obj? && i < |keys| && forall k <- keys :: k in v.m
    ensures Remaining(v, keys, i)
         == (if i > 0 then "," else "") + PrintPair(v, keys[i], GoCanonical) + Remaining(v, keys, i + 1)
  {
    assert keys[i..][0] == keys[i] && keys[i..][1..] == keys[i + 1..];
  }

  /** canonicalJSON: gather the keys in whatever order the map yields them, sort,
      print by hand. */
  method CanonicalJson(cmd: Command) returns (out: string)
    ensures out == CanonicalText(cmd)
  {
    var keys := GatherKeys(cmd);
    keys := SortStrings(keys);
    SortedKeysUnique(keys, cmd.Keys);
    out := WriteMembers(cmd, keys);
  }

  /** The buffer canonicalJSON fills from the sorted keys. */
  method WriteMembers(cmd: Command, keys: seq<string>) returns (out: string)
    requires forall k <- keys :: k in cmd
    ensures out == "{" + PrintMembers(Obj(cmd), keys, GoCanonical) + "}"
  {
    ghost var v := Obj(cmd);
    out := "{";
    assert keys[0..] == keys;
    for i := 0 to |keys|
      invariant out + Remaining(v, keys, i) == "{" + PrintMembers(v, keys, GoCanonical)
    {
      RemainingStep(v, keys, i);
      var kb := EncodeValue(Str(keys[i]));
      var vb := EncodeValue(cmd[keys[i]]);
      out := WritePair(out, i > 0, kb, vb, Remaining(v, keys, i + 1));
    }
    assert keys[|keys|..] == [];
    out := out + "}";
  }

  /** The writes of one iteration; `after` is what the following ones will write. */
  method WritePair(out: string, comma: bool, kb: string, vb: string, ghost after: string) returns (r: string)
    ensures r + after == out + ((if comma then "," else "") + (kb + ":" + vb) + after)
  {
    r := out;
    if comma {
      r := r + ",";
    }
    r := r + kb + ":" + vb;
  }

  /** The Encoder appends a newline; encodeValue strips it. */
  method EncodeValue(v: Value) returns (out: string)
    ensures out == Print(v, GoCanonical)
  {
    out := Print(v, GoCanonical) + "\n";
    if |out| > 0 && out[|out| - 1] == '\n' {
      out := out[..|out| - 1];
    }
  }

  /** signCmd: copy every key but the tag, then tag the copy. */
  method Sign(mac: Mac, cmd: Command, secret: Bytes) returns (signed: Command)
    ensures signed == SignCmd(mac, secret, cmd)
  {
    var cp: Command, left := map[], cmd.Keys;
    while left != {}
      invariant left <= cmd.Keys && cp == WithoutAuth(map k | k in cmd && k !in left :: cmd[k])
      decreases left
    {
      var k :| k in left;
      if k != AUTH {
        cp := cp[k := cmd[k]];
      }
      left := left - {k};
    }
    assert cp == WithoutAuth(cmd);
    var canon := CanonicalJson(cp);
    signed := cp[AUTH := Str(mac(secret, Encode(canon)))];
  }
}
