/** Python's json.loads on text (RFC 8259, sections 2 to 7), and the round trip
    through Go's printers and Python's own. Floats, NaN and Infinity, and lone
    surrogate escapes are outside the value domain and read as None. */
module JsonParse {
  import opened Wrappers
  import opened Json

  predicate IsSpace(c: char) {
    c == ' ' || c == '\t' || c == '\n' || c == '\r'
  }

  function SkipSpace(s: string): (r: string)
    ensures |r| <= |s|
  {
    if s != [] && IsSpace(s[0]) then SkipSpace(s[1..]) else s
  }

  predicate IsDigit(c: char) { '0' <= c <= '9' }

  function HexValue(c: char): (r: Option<int>)
    ensures r.Some? ==> 0 <= r.value < 16
  {
    if IsDigit(c) then Some(c as int - '0' as int)
    else if 'a' <= c <= 'f' then Some(c as int - 'a' as int + 10)
    else if 'A' <= c <= 'F' then Some(c as int - 'A' as int + 10)
    else None
  }

  /** The code unit of a \uXXXX escape, given the text after "\u". */
  function ReadHex(s: string): (r: Option<int>)
    ensures r.Some? ==> 0 <= r.value < 0x10000 && |s| >= 4
  {
    if |s| >= 4 && HexValue(s[0]).Some? && HexValue(s[1]).Some? && HexValue(s[2]).Some? && HexValue(s[3]).Some? then
      Some(HexValue(s[0]).value * 0x1000 + HexValue(s[1]).value * 0x100 + HexValue(s[2]).value * 0x10 + HexValue(s[3]).value)
    else None
  }

  /** One character of a string body and the text after it; None at a closing quote,
      at a raw control character and on a bad escape. */
  function ReadChar(s: string): (r: Option<(char, string)>)
    ensures r.Some? ==> |r.value.1| < |s|
  {
    if s == [] || s[0] == QUOTE || s[0] < ' ' then None
    else if s[0] != BACKSLASH then Some((s[0], s[1..]))
    else if |s| < 2 then None
    else if s[1] == 'u' then ReadUnicode(s[2..])
    else
      match s[1]
      case '\"' => Some((QUOTE, s[2..]))
      case '\\' => Some((BACKSLASH, s[2..]))
      case '/' => Some(('/', s[2..]))
      case 'b' => Some((8 as char, s[2..]))
      case 'f' => Some((12 as char, s[2..]))
      case 'n' => Some(('\n', s[2..]))
      case 'r' => Some(('\r', s[2..]))
      case 't' => Some(('\t', s[2..]))
      case _ => None
  }

  /** After "\u": a scalar value, or a surrogate pair. */
  function ReadUnicode(s: string): (r: Option<(char, string)>)
    ensures r.Some? ==> |r.value.1| < |s|
  {
    match ReadHex(s)
    case None => None
    case Some(n) =>
      if n < 0xD800 || 0xE000 <= n then Some((n as char, s[4..]))
      else if n < 0xDC00 && |s| >= 6 && s[4] == BACKSLASH && s[5] == 'u' then
        match ReadHex(s[6..])
        case Some(m) =>
          if 0xDC00 <= m < 0xE000 then
            Some(((0x10000 + (n - 0xD800) * 0x400 + (m - 0xDC00)) as char, s[10..]))
          else None
        case None => None
      else None
  }

  /** A string body up to and including its closing quote. */
  function ReadString(s: string): (r: Option<(string, string)>)
    ensures r.Some? ==> |r.value.1| < |s|
    decreases |s|
  {
    if s != [] && s[0] == QUOTE then Some(("", s[1..]))
    else
      match ReadChar(s)
      case None => None
      case Some((c, rest)) =>
        match ReadString(rest)
        case None => None
        case Some((tail, after)) => Some(([c] + tail, after))
  }

  function DigitRun(s: string): (n: nat)
    ensures n <= |s| && forall i | 0 <= i < n :: IsDigit(s[i])
    ensures n < |s| ==> !IsDigit(s[n])
  {
    if s != [] && IsDigit(s[0]) then 1 + DigitRun(s[1..]) else 0
  }

  function Number(s: string): nat
    requires forall i | 0 <= i < |s| :: IsDigit(s[i])
  {
    if s == [] then 0
    else
      assert IsDigit(s[|s| - 1]);
      Number(s[..|s| - 1]) * 10 + (s[|s| - 1] as int - '0' as int)
  }

  /** An integer without leading zeros; a fraction or exponent is a float. */
  function ReadNatural(s: string): (r: Option<(nat, string)>)
    ensures r.Some? ==> |r.value.1| < |s|
  {
    var n := if s != [] && s[0] == '0' then 1 else DigitRun(s);
    if n == 0 || (n < |s| && s[n] in {'.', 'e', 'E'}) then None
    else Some((Number(s[..n]), s[n..]))
  }

  function ReadNumber(s: string): (r: Option<(Value, string)>)
    ensures r.Some? ==> |r.value.1| < |s|
  {
    if s != [] && s[0] == '-' then
      match ReadNatural(s[1..])
      case None => None
      case Some((n, rest)) => Some((Int(0 - n), rest))
    else
      match ReadNatural(s)
      case None => None
      case Some((n, rest)) => Some((Int(n), rest))
  }

  /** scan_once: a value at the start of `s` and the text after it. */
  function ReadValue(s: string): (r: Option<(Value, string)>)
    ensures r.Some? ==> |r.value.1| < |s|
    decreases |s|, 2
  {
    if s == [] then None
    else if s[0] == QUOTE then
      match ReadString(s[1..])
      case None => None
      case Some((text, rest)) => Some((Str(text), rest))
    else if s[0] == '{' then
      var t := SkipSpace(s[1..]);
      if t != [] && t[0] == '}' then Some((Obj(map[]), t[1..]))
      else
        match ReadMembers(t, map[])
        case None => None
        case Some((m, rest)) => Some((Obj(m), rest))
    else if s[0] == '[' then
      var t := SkipSpace(s[1..]);
      if t != [] && t[0] == ']' then Some((Arr([]), t[1..]))
      else
        match ReadElements(t, [])
        case None => None
        case Some((a, rest)) => Some((Arr(a), rest))
    else if "null" <= s then Some((Null, s[4..]))
    else if "true" <= s then Some((Bool(true), s[4..]))
    else if "false" <= s then Some((Bool(false), s[5..]))
    else ReadNumber(s)
  }

  /** JSONArray after '[': elements read so far are `acc`. */
  function ReadElements(s: string, acc: seq<Value>): (r: Option<(seq<Value>, string)>)
    ensures r.Some? ==> |r.value.1| < |s|
    decreases |s|, 3
  {
    match ReadValue(s)
    case None => None
    case Some((v, rest)) =>
      var t := SkipSpace(rest);
      if t == [] then None
      else if t[0] == ']' then Some((acc + [v], t[1..]))
      else if t[0] == ',' then ReadElements(SkipSpace(t[1..]), acc + [v])
      else None
  }

  /** JSONObject after '{' or ',': a later duplicate key wins, as in dict(pairs). */
  function ReadMembers(s: string, acc: map<string, Value>): (r: Option<(map<string, Value>, string)>)
    ensures r.Some? ==> |r.value.1| < |s|
    decreases |s|, 3
  {
    if s == [] || s[0] != QUOTE then None
    else
      match ReadString(s[1..])
      case None => None
      case Some((k, afterKey)) =>
        var t := SkipSpace(afterKey);
        if t == [] || t[0] != ':' then None
        else
          match ReadValue(SkipSpace(t[1..]))
          case None => None
          case Some((v, afterValue)) =>
            var u := SkipSpace(afterValue);
            if u == [] then None
            else if u[0] == '}' then Some((acc[k := v], u[1..]))
            else if u[0] == ',' then ReadMembers(SkipSpace(u[1..]), acc[k := v])
            else None
  }

  /** json.loads: one value, whitespace around it, nothing else. */
  function Loads(text: string): Option<Value> {
    match ReadValue(SkipSpace(text))
    case None => None
    case Some((v, rest)) => if SkipSpace(rest) == [] then Some(v) else None
  }

  // --------------------------------------------------------- round trip

  lemma ReadHexEscape(n: int, tail: string)
    requires 0 <= n < 0x10000
    ensures ReadHex(HexEscape(n)[2..] + tail) == Some(n)
  {
    var s := HexEscape(n)[2..] + tail;
    assert s[0] == HexDigit(n / 0x1000) && s[1] == HexDigit(n / 0x100 % 0x10);
    assert s[2] == HexDigit(n / 0x10 % 0x10) && s[3] == HexDigit(n % 0x10);
    HexDigitReadsBack(n / 0x1000);
    HexDigitReadsBack(n / 0x100 % 0x10);
    HexDigitReadsBack(n / 0x10 % 0x10);
    HexDigitReadsBack(n % 0x10);
    HexDigitsAddUp(n);
  }

  lemma HexDigitReadsBack(d: int)
    requires 0 <= d < 16
    ensures HexValue(HexDigit(d)) == Some(d)
  {
  }

  lemma HexDigitsAddUp(n: int)
    requires 0 <= n < 0x10000
    ensures n == n / 0x1000 * 0x1000 + n / 0x100 % 0x10 * 0x100 + n / 0x10 % 0x10 * 0x10 + n % 0x10
  {
    var q := n / 0x10;
    var r := q / 0x10;
    assert n / 0x100 == r && n / 0x1000 == r / 0x10 && r / 0x10 < 0x10;
    assert n == q * 0x10 + n % 0x10 && q == r * 0x10 + q % 0x10 && r == r / 0x10 * 0x10 + r % 0x10;
  }

  /** The halves of a surrogate pair, and what ReadUnicode makes of them. */
  lemma SurrogatesAddUp(n: int)
    requires 0x10000 <= n < 0x11_0000
    ensures var hi, lo := 0xD800 + (n - 0x10000) / 0x400, 0xDC00 + (n - 0x10000) % 0x400;
            0xD800 <= hi < 0xDC00 <= lo < 0xE000 && 0x10000 + (hi - 0xD800) * 0x400 + (lo - 0xDC00) == n
  {
  }

  lemma TwoEscapes(hi: int, lo: int, tail: string)
    requires 0 <= hi < 0x10000 && 0 <= lo < 0x10000
    ensures var s := (HexEscape(hi) + HexEscape(lo))[2..] + tail;
            && |s| >= 10 && s[4] == BACKSLASH && s[5] == 'u' && s[10..] == tail
            && s == HexEscape(hi)[2..] + (HexEscape(lo) + tail) && s[6..] == HexEscape(lo)[2..] + tail
  {
  }

  /** A pair of \u escapes reads back as the one character it stands for. */
  lemma ReadSurrogates(c: char, hi: int, lo: int, tail: string)
    requires c as int >= 0x10000
    requires hi == 0xD800 + (c as int - 0x10000) / 0x400 && lo == 0xDC00 + (c as int - 0x10000) % 0x400
    ensures ReadUnicode((HexEscape(hi) + HexEscape(lo))[2..] + tail) == Some((c, tail))
  {
    SurrogatesAddUp(c as int);
    ReadTwoEscapes(hi, lo, tail);
  }

  lemma ReadTwoEscapes(hi: int, lo: int, tail: string)
    requires 0xD800 <= hi < 0xDC00 <= lo < 0xE000
    ensures ReadUnicode((HexEscape(hi) + HexEscape(lo))[2..] + tail)
         == Some(((0x10000 + (hi - 0xD800) * 0x400 + (lo - 0xDC00)) as char, tail))
  {
    TwoEscapes(hi, lo, tail);
    ReadHexEscape(hi, HexEscape(lo) + tail);
    ReadHexEscape(lo, tail);
    JoinSurrogates((HexEscape(hi) + HexEscape(lo))[2..] + tail, hi, lo, tail);
  }

  lemma JoinSurrogates(s: string, hi: int, lo: int, tail: string)
    requires 0xD800 <= hi < 0xDC00 <= lo < 0xE000
    requires |s| >= 10 && s[4] == BACKSLASH && s[5] == 'u' && s[10..] == tail
    requires ReadHex(s) == Some(hi) && ReadHex(s[6..]) == Some(lo)
    ensures ReadUnicode(s) == Some(((0x10000 + (hi - 0xD800) * 0x400 + (lo - 0xDC00)) as char, tail))
  {
  }

  lemma ReadUnicodeEscape(e: string, c: char, tail: string)
    requires |e| >= 2 && e[0] == BACKSLASH && e[1] == 'u' && ReadUnicode(e[2..] + tail) == Some((c, tail))
    ensures ReadChar(e + tail) == Some((c, tail))
  {
    assert (e + tail)[2..] == e[2..] + tail;
  }

  lemma ReadShortHex(n: int, tail: string)
    requires 0 <= n < 0xD800 || 0xE000 <= n < 0x10000
    ensures ReadChar(HexEscape(n) + tail) == Some((n as char, tail))
  {
    var s := HexEscape(n)[2..] + tail;
    ReadHexEscape(n, tail);
    assert s[4..] == tail;
    ReadUnicodeEscape(HexEscape(n), n as char, tail);
  }

  lemma ReadLongHex(c: char, hi: int, lo: int, tail: string)
    requires c as int >= 0x10000
    requires hi == 0xD800 + (c as int - 0x10000) / 0x400 && lo == 0xDC00 + (c as int - 0x10000) % 0x400
    ensures ReadChar(HexEscape(hi) + HexEscape(lo) + tail) == Some((c, tail))
  {
    ReadSurrogates(c, hi, lo, tail);
    ReadUnicodeEscape(HexEscape(hi) + HexEscape(lo), c, tail);
  }

  lemma ReadEscape(c: char, style: Style, tail: string)
    ensures ReadChar(Escape(c, style) + tail) == Some((c, tail))
  {
    var s := Escape(c, style) + tail;
    if ShortEscape(c).Some? {
      assert s[0] == BACKSLASH && s[1] == ShortEscape(c).value && s[2..] == tail;
    } else if HexEscaped(c, style) {
      if c as int < 0x10000 {
        ReadShortHex(c as int, tail);
      } else {
        ReadLongHex(c, 0xD800 + (c as int - 0x10000) / 0x400, 0xDC00 + (c as int - 0x10000) % 0x400, tail);
      }
    } else {
      assert s[0] == c && s[1..] == tail;
    }
  }

  lemma {:induction false} ReadEscapeAll(s: string, style: Style, tail: string)
    ensures ReadString(EscapeAll(s, style) + [QUOTE] + tail) == Some((s, tail))
  {
    if s == [] {
      assert EscapeAll(s, style) + [QUOTE] + tail == [QUOTE] + tail;
    } else {
      var rest := EscapeAll(s[1..], style) + [QUOTE] + tail;
      assert EscapeAll(s, style) + [QUOTE] + tail == Escape(s[0], style) + rest;
      ReadEscape(s[0], style, rest);
      EscapeStartsInside(s[0], style, rest);
      ReadEscapeAll(s[1..], style, tail);
      assert [s[0]] + s[1..] == s;
    }
  }

  lemma EscapeStartsInside(c: char, style: Style, tail: string)
    ensures Escape(c, style) != [] && (Escape(c, style) + tail)[0] != QUOTE
  {
  }

  lemma ReadQuoted(s: string, style: Style, tail: string)
    ensures var t := Quoted(s, style) + tail; t != [] && t[0] == QUOTE && ReadString(t[1..]) == Some((s, tail))
  {
    var t := Quoted(s, style) + tail;
    assert t[1..] == EscapeAll(s, style) + [QUOTE] + tail;
    ReadEscapeAll(s, style, tail);
  }

  lemma {:induction false} DigitsReadBack(n: nat)
    ensures forall i | 0 <= i < |Digits(n)| :: IsDigit(Digits(n)[i])
    ensures Number(Digits(n)) == n && Digits(n) != []
    ensures n > 0 ==> Digits(n)[0] != '0'
    ensures n == 0 ==> Digits(n) == "0"
  {
    if n >= 10 {
      DigitsReadBack(n / 10);
      var d := Digits(n);
      assert d[..|d| - 1] == Digits(n / 10);
    } else {
      assert Digits(n)[..0] == [];
      assert Number([]) == 0;
    }
  }

  /** What may follow a printed value: the end, or a delimiter. */
  predicate Follows(tail: string) {
    tail == [] || tail[0] in {',', ']', '}'} || IsSpace(tail[0])
  }

  lemma {:induction false} RunOfDigits(d: string, tail: string)
    requires (forall i | 0 <= i < |d| :: IsDigit(d[i])) && Follows(tail)
    ensures DigitRun(d + tail) == |d|
  {
    if d == [] {
      assert d + tail == tail;
    } else {
      assert (d + tail)[1..] == d[1..] + tail;
      RunOfDigits(d[1..], tail);
    }
  }

  lemma ReadDigits(n: nat, tail: string)
    requires Follows(tail)
    ensures ReadNatural(Digits(n) + tail) == Some((n, tail))
  {
    var d := Digits(n);
    var s := d + tail;
    DigitsReadBack(n);
    RunOfDigits(d, tail);
    assert s[..|d|] == d && s[|d|..] == tail;
    assert s[0] == d[0];
  }

  lemma ReadIntText(n: int, tail: string)
    requires Follows(tail)
    ensures ReadValue(IntText(n) + tail) == Some((Int(n), tail))
  {
    IntTextIsNumber(n, tail);
    NumberIsReadAsNumber(IntText(n) + tail);
  }

  lemma IntTextIsNumber(n: int, tail: string)
    requires Follows(tail)
    ensures var s := IntText(n) + tail;
            s != [] && (s[0] == '-' || IsDigit(s[0])) && ReadNumber(s) == Some((Int(n), tail))
  {
    var m: nat := if n < 0 then -n else n;
    NaturalText(m, tail);
    if n < 0 {
      MinusThen(Digits(m), m, tail);
    } else {
      Unsigned(Digits(m) + tail, m, tail);
    }
  }

  lemma MinusThen(d: string, m: nat, tail: string)
    requires ReadNatural(d + tail) == Some((m, tail))
    ensures var s := "-" + d + tail; s != [] && s[0] == '-' && ReadNumber(s) == Some((Int(0 - m), tail))
  {
    assert ("-" + d + tail)[1..] == d + tail;
  }

  lemma Unsigned(s: string, m: nat, tail: string)
    requires s != [] && IsDigit(s[0]) && ReadNatural(s) == Some((m, tail))
    ensures ReadNumber(s) == Some((Int(m), tail))
  {
  }

  lemma NaturalText(m: nat, tail: string)
    requires Follows(tail)
    ensures var s := Digits(m) + tail; s != [] && IsDigit(s[0]) && ReadNatural(s) == Some((m, tail))
  {
    ReadDigits(m, tail);
    DigitsReadBack(m);
    assert (Digits(m) + tail)[0] == Digits(m)[0];
  }

  lemma NumberIsReadAsNumber(s: string)
    requires s != [] && (s[0] == '-' || IsDigit(s[0]))
    ensures ReadValue(s) == ReadNumber(s)
  {
    NotAWord("null", s);
    NotAWord("true", s);
    NotAWord("false", s);
  }

  lemma NotAWord(word: string, s: string)
    requires s != [] && word != [] && s[0] != word[0]
    ensures !(word <= s)
  {
  }

  predicate StartsValue(s: string) {
    s != [] && !IsSpace(s[0]) && s[0] != ']' && s[0] != '}'
  }

  lemma PrintStartsValue(v: Value, style: Style, tail: string)
    ensures StartsValue(Print(v, style) + tail)
  {
    if v.Int? { DigitsReadBack(if v.n < 0 then -v.n else v.n); }
  }

  /** The part of `v`'s members under `keys`. */
  function Only(v: Value, keys: seq<string>): map<string, Value>
    requires v.Obj? && forall k <- keys :: k in v.m
  {
    map k | k in keys :: v.m[k]
  }

  /** Reading back what Go prints, canonical or HTML-escaped, and what Python prints,
      whatever follows. */
  lemma {:induction false} ReadPrint(v: Value, style: Style, tail: string)
    requires Follows(tail)
    ensures ReadValue(Print(v, style) + tail) == Some((v, tail))
    decreases v, 1, 0
  {
    match v
    case Null => assert ("null" + tail)[4..] == tail;
    case Bool(b) => ReadBool(b, tail);
    case Int(n) => ReadIntText(n, tail);
    case Str(text) => ReadQuoted(text, style, tail);
    case Arr(a) =>
      if a != [] { ReadElementsPrint(v, 0, style, [], tail); }
      ReadArray(v, style, tail);
    case Obj(m) =>
      if m != map[] { ReadMembersPrint(v, SortedKeys(m.Keys), style, map[], tail); }
      ReadObject(v, style, tail);
  }

  lemma OpenArray(body: string, a: seq<Value>, rest: string)
    requires StartsValue(body) && ReadElements(body, []) == Some((a, rest))
    ensures ReadValue("[" + body) == Some((Arr(a), rest))
  {
    assert ("[" + body)[1..] == body;
  }

  lemma OpenObject(body: string, m: map<string, Value>, rest: string)
    requires body != [] && body[0] == QUOTE && ReadMembers(body, map[]) == Some((m, rest))
    ensures ReadValue("{" + body) == Some((Obj(m), rest))
  {
    assert ("{" + body)[1..] == body;
  }

  lemma EmptyBrackets(tail: string)
    ensures ReadValue("[]" + tail) == Some((Arr([]), tail))
    ensures ReadValue("{}" + tail) == Some((Obj(map[]), tail))
  {
    var a, o := "[]" + tail, "{}" + tail;
    assert a[1..] == "]" + tail && a[1..][1..] == tail;
    assert o[1..] == "}" + tail && o[1..][1..] == tail;
  }

  lemma Enclose(open: string, body: string, close: string, tail: string)
    ensures open + body + close + tail == open + (body + close + tail)
    ensures body + close + tail == body + (close + tail)
  {
  }

  lemma ReadArray(v: Value, style: Style, tail: string)
    requires v.Arr?
    requires v.a != [] ==> ReadElements(PrintElements(v, 0, style) + "]" + tail, []) == Some(([] + v.a[0..], tail))
    ensures ReadValue(Print(v, style) + tail) == Some((v, tail))
  {
    var body := PrintElements(v, 0, style);
    Enclose("[", body, "]", tail);
    if v.a == [] {
      EmptyBrackets(tail);
      assert "[" + body + "]" == "[]";
    } else {
      ElementsStart(v, 0, style, "]" + tail);
      assert [] + v.a[0..] == v.a;
      OpenArray(body + "]" + tail, v.a, tail);
    }
  }

  lemma ReadObject(v: Value, style: Style, tail: string)
    requires v.Obj?
    requires var keys := SortedKeys(v.m.Keys);
             v.m != map[] ==>
               ReadMembers(PrintMembers(v, keys, style) + "}" + tail, map[]) == Some((map[] + Only(v, keys), tail))
    ensures ReadValue(Print(v, style) + tail) == Some((v, tail))
  {
    var keys := SortedKeys(v.m.Keys);
    var body := PrintMembers(v, keys, style);
    Enclose("{", body, "}", tail);
    if v.m == map[] {
      EmptyBrackets(tail);
      assert "{" + body + "}" == "{}";
    } else {
      assert keys != [];
      MembersStart(v, keys, style, "}" + tail);
      assert map[] + Only(v, keys) == v.m;
      OpenObject(body + "}" + tail, v.m, tail);
    }
  }

  lemma ReadBool(b: bool, tail: string)
    ensures ReadValue((if b then "true" else "false") + tail) == Some((Bool(b), tail))
  {
    var s := (if b then "true" else "false") + tail;
    assert s[0] == if b then 't' else 'f';
    if b { assert s[..4] == "true" && s[4..] == tail; } else { assert s[..5] == "false" && s[5..] == tail; }
    assert "null"[0] == 'n' && "true"[0] == 't';
  }

  lemma ElementsStart(v: Value, i: nat, style: Style, tail: string)
    requires v.Arr? && i < |v.a|
    ensures StartsValue(PrintElements(v, i, style) + tail)
  {
    var more := if i + 1 == |v.a| then "" else "," + PrintElements(v, i + 1, style);
    PrintStartsValue(v.a[i], style, more + tail);
    assert PrintElements(v, i, style) + tail == Print(v.a[i], style) + (more + tail);
  }

  lemma MembersStart(v: Value, keys: seq<string>, style: Style, tail: string)
    requires v.Obj? && (forall k <- keys :: k in v.m) && keys != []
    ensures var s := PrintMembers(v, keys, style) + tail; s != [] && s[0] == QUOTE
  {
  }

  /** One round of the element loop, unfolded. */
  lemma ElementsRound(s: string, v: Value, after: string, acc: seq<Value>)
    requires ReadValue(s) == Some((v, after)) && after != []
    ensures after[0] == ']' ==> ReadElements(s, acc) == Some((acc + [v], after[1..]))
    ensures after[0] == ',' ==> ReadElements(s, acc) == ReadElements(SkipSpace(after[1..]), acc + [v])
  {
  }

  lemma SplitElements(v: Value, i: nat, style: Style, tail: string, next: string, after: string)
    requires v.Arr? && i < |v.a|
    requires next == if i + 1 == |v.a| then tail else PrintElements(v, i + 1, style) + "]" + tail
    requires after == (if i + 1 == |v.a| then "]" else ",") + next
    ensures PrintElements(v, i, style) + "]" + tail == Print(v.a[i], style) + after
  {
  }

  lemma {:induction false} ReadElementsPrint(v: Value, i: nat, style: Style, acc: seq<Value>, tail: string)
    requires v.Arr? && i < |v.a|
    ensures ReadElements(PrintElements(v, i, style) + "]" + tail, acc) == Some((acc + v.a[i..], tail))
    decreases v, 0, |v.a| - i
  {
    var next := if i + 1 == |v.a| then tail else PrintElements(v, i + 1, style) + "]" + tail;
    var after := (if i + 1 == |v.a| then "]" else ",") + next;
    SplitElements(v, i, style, tail, next, after);
    ReadPrint(v.a[i], style, after);
    ElementsRound(Print(v.a[i], style) + after, v.a[i], after, acc);
    assert after[1..] == next;
    RestOf(v.a, i, acc);
    if i + 1 < |v.a| {
      ElementsStart(v, i + 1, style, "]" + tail);
      Enclose("", PrintElements(v, i + 1, style), "]", tail);
      ReadElementsPrint(v, i + 1, style, acc + [v.a[i]], tail);
    }
  }

  lemma RestOf(a: seq<Value>, i: nat, acc: seq<Value>)
    requires i < |a|
    ensures acc + [a[i]] + a[i + 1..] == acc + a[i..]
    ensures i + 1 == |a| ==> acc + [a[i]] == acc + a[i..]
  {
  }

  /** One "key":value pair, whatever delimiter follows. */
  lemma {:induction false} ReadPair(v: Value, k: string, style: Style, tail: string)
    requires v.Obj? && k in v.m && Follows(tail)
    ensures var s := PrintPair(v, k, style) + tail;
            && s != [] && s[0] == QUOTE
            && ReadString(s[1..]) == Some((k, ":" + (Print(v.m[k], style) + tail)))
            && ReadValue(SkipSpace(Print(v.m[k], style) + tail)) == Some((v.m[k], tail))
    decreases v, 0, 0
  {
    var after := ":" + (Print(v.m[k], style) + tail);
    assert PrintPair(v, k, style) + tail == Quoted(k, style) + after;
    ReadQuoted(k, style, after);
    PrintStartsValue(v.m[k], style, tail);
    assert SkipSpace(Print(v.m[k], style) + tail) == Print(v.m[k], style) + tail;
    ReadPrint(v.m[k], style, tail);
  }

  /** One round of the member loop, unfolded. */
  lemma MembersRound(s: string, k: string, text: string, v: Value, after: string, acc: map<string, Value>)
    requires s != [] && s[0] == QUOTE && ReadString(s[1..]) == Some((k, ":" + text))
    requires ReadValue(SkipSpace(text)) == Some((v, after)) && after != []
    ensures after[0] == '}' ==> ReadMembers(s, acc) == Some((acc[k := v], after[1..]))
    ensures after[0] == ',' ==> ReadMembers(s, acc) == ReadMembers(SkipSpace(after[1..]), acc[k := v])
  {
    assert (":" + text)[1..] == text;
  }

  lemma NoSpaceFirst(v: Value, keys: seq<string>, style: Style, tail: string)
    requires v.Obj? && (forall k <- keys :: k in v.m) && keys != []
    ensures var s := PrintMembers(v, keys, style) + "}" + tail; SkipSpace(s) == s
  {
    MembersStart(v, keys, style, "}" + tail);
    Enclose("", PrintMembers(v, keys, style), "}", tail);
  }

  lemma {:induction false} ReadMembersPrint(v: Value, keys: seq<string>, style: Style, acc: map<string, Value>, tail: string)
    requires v.Obj? && (forall k <- keys :: k in v.m) && keys != []
    ensures ReadMembers(PrintMembers(v, keys, style) + "}" + tail, acc) == Some((acc + Only(v, keys), tail))
    decreases v, 0, |keys|
  {
    var k, rest := keys[0], keys[1..];
    var s := PrintMembers(v, keys, style) + "}" + tail;
    var value := Print(v.m[k], style);
    var next := if rest == [] then tail else PrintMembers(v, rest, style) + "}" + tail;
    var after := (if rest == [] then "}" else ",") + next;
    SplitMembers(v, keys, style, tail, next, after);
    ReadPair(v, k, style, after);
    MembersRound(s, k, value + after, v.m[k], after, acc);
    assert after[1..] == next;
    OnlyStep(v, keys, acc);
    if rest == [] {
      assert acc[k := v.m[k]] + Only(v, rest) == acc[k := v.m[k]];
    } else {
      NoSpaceFirst(v, rest, style, tail);
      ReadMembersPrint(v, rest, style, acc[k := v.m[k]], tail);
    }
  }

  lemma SplitMembers(v: Value, keys: seq<string>, style: Style, tail: string, next: string, after: string)
    requires v.Obj? && (forall k <- keys :: k in v.m) && keys != []
    requires next == if keys[1..] == [] then tail else PrintMembers(v, keys[1..], style) + "}" + tail
    requires after == (if keys[1..] == [] then "}" else ",") + next
    ensures PrintMembers(v, keys, style) + "}" + tail == PrintPair(v, keys[0], style) + after
  {
  }

  lemma OnlyStep(v: Value, keys: seq<string>, acc: map<string, Value>)
    requires v.Obj? && (forall k <- keys :: k in v.m) && keys != []
    ensures acc[keys[0] := v.m[keys[0]]] + Only(v, keys[1..]) == acc + Only(v, keys)
  {
    assert keys == [keys[0]] + keys[1..];
  }

  /** json.loads inverts all three printers, with or without the trailing newline. */
  lemma LoadsInvertsPrint(v: Value, style: Style, newline: bool)
    ensures Loads(Print(v, style) + (if newline then "\n" else "")) == Some(v)
  {
    var tail := if newline then "\n" else "";
    PrintStartsValue(v, style, tail);
    ReadPrint(v, style, tail);
    assert SkipSpace("\n") == [] by { assert "\n"[1..] == []; }
  }

  /** Equal texts imply equal values, for each of the three printers. */
  lemma PrintIsInjective(v: Value, w: Value, style: Style)
    requires Print(v, style) == Print(w, style)
    ensures v == w
  {
    LoadsInvertsPrint(v, style, false);
    LoadsInvertsPrint(w, style, false);
  }
}
