/** Commands as JSON values, and the one recursive printer behind Go's encoder and
    Python's json.dumps: sorted keys, no whitespace, three escape tables
    (RFC 8259, sections 3 to 7). */
module Json {
  import opened Wrappers

  datatype Value =
    | Null | Bool(b: bool) | Int(n: int) | Str(s: string) | Arr(a: seq<Value>) | Obj(m: map<string, Value>)

  // ---------------------------------------------------------- key order

  /** Code-point order: the byte order of Go's sort.Strings on UTF-8 and the
      order of Python's sort_keys agree with it. */
  predicate Le(a: string, b: string) {
    a == [] || (b != [] && (a[0] < b[0] || (a[0] == b[0] && Le(a[1..], b[1..]))))
  }

  lemma {:induction false} LeTotal(a: string, b: string)
    ensures Le(a, b) || Le(b, a)
  {
    if a != [] && b != [] && a[0] == b[0] { LeTotal(a[1..], b[1..]); }
  }

  lemma {:induction false} LeAntisymmetric(a: string, b: string)
    requires Le(a, b) && Le(b, a)
    ensures a == b
  {
    if a != [] {
      LeAntisymmetric(a[1..], b[1..]);
      assert a == [a[0]] + a[1..] && b == [b[0]] + b[1..];
    }
  }

  lemma {:induction false} LeTransitive(a: string, b: string, c: string)
    requires Le(a, b) && Le(b, c)
    ensures Le(a, c)
  {
    if a != [] && a[0] == b[0] && b[0] == c[0] { LeTransitive(a[1..], b[1..], c[1..]); }
  }

  /** What the order is: the first character that differs decides, and a prefix is less. */
  lemma {:induction false} LeIsLexicographic(a: string, b: string)
    ensures Le(a, b) <==> a <= b || exists i :: 0 <= i < |a| && i < |b| && a[..i] == b[..i] && a[i] < b[i]
  {
    if a != [] && b != [] {
      if a[0] == b[0] {
        LeIsLexicographic(a[1..], b[1..]);
        assert a == [a[0]] + a[1..] && b == [b[0]] + b[1..];
        if i :| 0 <= i < |a[1..]| && i < |b[1..]| && a[1..][..i] == b[1..][..i] && a[1..][i] < b[1..][i] {
          assert a[..i + 1] == [a[0]] + a[1..][..i] && b[..i + 1] == [b[0]] + b[1..][..i];
        }
        if i :| 0 <= i < |a| && i < |b| && a[..i] == b[..i] && a[i] < b[i] {
          assert a[1..][..i - 1] == a[..i][1..] == b[..i][1..] == b[1..][..i - 1];
          assert a[1..][i - 1] < b[1..][i - 1];
        }
      } else {
        assert a[..0] == b[..0];
        if i :| 0 <= i < |a| && i < |b| && a[..i] == b[..i] && a[i] < b[i] {
          assert i > 0 ==> a[..i][0] == b[..i][0];
        }
      }
    }
  }

  predicate IsLeast(k: string, ks: set<string>) {
    k in ks && forall x <- ks :: Le(k, x)
  }

  lemma {:induction false} LeastExists(ks: set<string>) returns (k: string)
    requires ks != {}
    ensures IsLeast(k, ks)
  {
    k :| k in ks;
    if ks != {k} {
      var l := LeastExists(ks - {k});
      LeTotal(k, l);
      if Le(k, l) {
        forall x | x in ks - {k} ensures Le(k, x) { LeTransitive(k, l, x); }
      } else {
        k := l;
      }
    }
    LeTotal(k, k);
  }

  lemma LeastIsUnique(ks: set<string>)
    requires ks != {}
    ensures exists k :: IsLeast(k, ks)
    ensures forall k, l | IsLeast(k, ks) && IsLeast(l, ks) :: k == l
  {
    var k := LeastExists(ks);
    forall x, y | IsLeast(x, ks) && IsLeast(y, ks) ensures x == y { LeAntisymmetric(x, y); }
  }

  /** The keys of a map, in order. */
  function SortedKeys(ks: set<string>): (r: seq<string>)
    ensures forall k :: k in r <==> k in ks
  {
    if ks == {} then []
    else
      LeastIsUnique(ks);
      var k :| IsLeast(k, ks);
      [k] + SortedKeys(ks - {k})
  }

  predicate Ascending(ks: seq<string>) {
    forall i, j | 0 <= i < j < |ks| :: ks[i] != ks[j] && Le(ks[i], ks[j])
  }

  /** Any ascending list of the keys is this one: the order in which a map is
      iterated before sorting cannot show. */
  lemma {:induction false} SortedKeysUnique(ks: seq<string>, keys: set<string>)
    requires Ascending(ks) && forall k :: k in ks <==> k in keys
    ensures ks == SortedKeys(keys)
  {
    if ks == [] {
      assert keys == {};
    } else {
      assert ks[0] in keys;
      LeastIsUnique(keys);
      LeTotal(ks[0], ks[0]);
      assert IsLeast(ks[0], keys);
      TailKeys(ks, keys);
      SortedKeysUnique(ks[1..], keys - {ks[0]});
    }
  }

  lemma TailKeys(ks: seq<string>, keys: set<string>)
    requires ks != [] && Ascending(ks) && forall k :: k in ks <==> k in keys
    ensures forall k :: k in ks[1..] <==> k in keys - {ks[0]}
  {
    forall k ensures k in ks[1..] <==> k in keys - {ks[0]} {
      assert ks == [ks[0]] + ks[1..];
      assert k in ks <==> k == ks[0] || k in ks[1..];
      assert ks[0] !in ks[1..];
    }
  }

  // ------------------------------------------------------------ printer

  /** Go's Encoder with SetEscapeHTML(false), Go's Marshal, Python's dumps. */
  datatype Style = GoCanonical | GoMarshal | Python

  function HexDigit(n: int): char
    requires 0 <= n < 16
  {
    if n < 10 then '0' + n as char else 'a' + (n - 10) as char
  }

  function HexEscape(n: int): string
    requires 0 <= n < 0x10000
  {
    ['\\', 'u', HexDigit(n / 0x1000), HexDigit(n / 0x100 % 0x10), HexDigit(n / 0x10 % 0x10), HexDigit(n % 0x10)]
  }

  const QUOTE: char := '\"'
  const BACKSLASH: char := '\\'

  /** The two-character escapes all three tables share. */
  function ShortEscape(c: char): Option<char> {
    if c == QUOTE then Some(QUOTE)
    else if c == BACKSLASH then Some(BACKSLASH)
    else if c == 8 as char then Some('b')
    else if c == 12 as char then Some('f')
    else if c == '\n' then Some('n')
    else if c == '\r' then Some('r')
    else if c == '\t' then Some('t')
    else None
  }

  /** Whether the style writes `c` as a \u escape rather than raw. */
  predicate HexEscaped(c: char, style: Style) {
    match style
    case GoCanonical => c < ' ' || c as int in {0x2028, 0x2029}
    case GoMarshal => c < ' ' || c as int in {0x2028, 0x2029} || c in {'<', '>', '&'}
    case Python => c < ' ' || c > '~'
  }

  function Escape(c: char, style: Style): string {
    var n := c as int;
    if ShortEscape(c).Some? then [BACKSLASH, ShortEscape(c).value]
    else if !HexEscaped(c, style) then [c]
    else if n < 0x10000 then HexEscape(n)
    else HexEscape(0xD800 + (n - 0x10000) / 0x400) + HexEscape(0xDC00 + (n - 0x10000) % 0x400)
  }

  function EscapeAll(s: string, style: Style): string {
    if s == [] then [] else Escape(s[0], style) + EscapeAll(s[1..], style)
  }

  function Quoted(s: string, style: Style): string {
    [QUOTE] + EscapeAll(s, style) + [QUOTE]
  }

  function Digits(n: nat): string {
    if n < 10 then ['0' + n as char] else Digits(n / 10) + ['0' + (n % 10) as char]
  }

  function IntText(n: int): string {
    if n < 0 then "-" + Digits(-n) else Digits(n)
  }

  function Print(v: Value, style: Style): string
    decreases v, 1, 0
  {
    match v
    case Null => "null"
    case Bool(b) => if b then "true" else "false"
    case Int(n) => IntText(n)
    case Str(s) => Quoted(s, style)
    case Arr(a) => "[" + PrintElements(v, 0, style) + "]"
    case Obj(m) => "{" + PrintMembers(v, SortedKeys(m.Keys), style) + "}"
  }

  /** Elements `i` onwards, separated by commas. */
  function PrintElements(v: Value, i: nat, style: Style): string
    requires v.Arr? && i <= |v.a|
    decreases v, 0, |v.a| - i
  {
    if i == |v.a| then ""
    else Print(v.a[i], style) + (if i + 1 == |v.a| then "" else "," + PrintElements(v, i + 1, style))
  }

  function PrintPair(v: Value, k: string, style: Style): string
    requires v.Obj? && k in v.m
    decreases v, 0, 0
  {
    Quoted(k, style) + ":" + Print(v.m[k], style)
  }

  function PrintMembers(v: Value, keys: seq<string>, style: Style): string
    requires v.Obj? && forall k <- keys :: k in v.m
    decreases v, 0, |keys|
  {
    if keys == [] then ""
    else PrintPair(v, keys[0], style) + (if |keys| == 1 then "" else "," + PrintMembers(v, keys[1..], style))
  }

  // ------------------------------------- when Go's and Python's texts agree

  /** Characters that Go's canonical form writes as Python does. */
  predicate PortableChar(c: char) {
    c <= '~' || c as int in {0x2028, 0x2029}
  }

  predicate PortableText(s: string) {
    forall c <- s :: PortableChar(c)
  }

  predicate Portable(v: Value) {
    match v
    case Str(s) => PortableText(s)
    case Arr(a) => forall x <- a :: Portable(x)
    case Obj(m) => forall k <- m :: PortableText(k) && Portable(m[k])
    case _ => true
  }

  predicate Printable(text: string) {
    forall c <- text :: ' ' <= c <= '~'
  }

  lemma PythonEscapeIsPrintable(c: char)
    ensures Printable(Escape(c, Python))
  {
    if ShortEscape(c).None? && HexEscaped(c, Python) {
      if c as int >= 0x10000 {
        var n := c as int - 0x10000;
        HexIsPrintable(0xD800 + n / 0x400);
        HexIsPrintable(0xDC00 + n % 0x400);
        PrintableAppend(HexEscape(0xD800 + n / 0x400), HexEscape(0xDC00 + n % 0x400));
      } else {
        HexIsPrintable(c as int);
      }
    }
  }

  lemma EscapeAgrees(c: char)
    ensures Printable(Escape(c, GoCanonical)) <==> PortableChar(c)
    ensures PortableChar(c) ==> Escape(c, GoCanonical) == Escape(c, Python)
  {
    var e := Escape(c, GoCanonical);
    if ShortEscape(c).Some? {
      assert Printable(e);
    } else if HexEscaped(c, GoCanonical) {
      HexIsPrintable(c as int);
    } else {
      assert e == [c];
      assert c in e;
    }
  }

  lemma HexIsPrintable(n: int)
    requires 0 <= n < 0x10000
    ensures Printable(HexEscape(n))
  {
    forall d | 0 <= d < 16 ensures ' ' <= HexDigit(d) <= '~' {}
  }

  lemma {:induction false} TextAgrees(s: string)
    ensures Printable(EscapeAll(s, Python))
    ensures Printable(EscapeAll(s, GoCanonical)) <==> PortableText(s)
    ensures PortableText(s) ==> EscapeAll(s, GoCanonical) == EscapeAll(s, Python)
  {
    if s != [] {
      EscapeAgrees(s[0]);
      PythonEscapeIsPrintable(s[0]);
      TextAgrees(s[1..]);
      PrintableAppend(Escape(s[0], Python), EscapeAll(s[1..], Python));
      PrintableAppend(Escape(s[0], GoCanonical), EscapeAll(s[1..], GoCanonical));
      assert s == [s[0]] + s[1..];
    }
  }

  lemma PrintableAppend(s: string, t: string)
    ensures Printable(s + t) <==> Printable(s) && Printable(t)
  {
    if Printable(s + t) {
      forall c | c in s ensures ' ' <= c <= '~' { assert c in s + t; }
      forall c | c in t ensures ' ' <= c <= '~' { assert c in s + t; }
    }
  }

  lemma {:induction false} DigitsArePrintable(n: nat)
    ensures Printable(Digits(n))
  {
    if n >= 10 { DigitsArePrintable(n / 10); }
  }

  lemma QuotedAgrees(s: string)
    ensures Printable(Quoted(s, Python))
    ensures Printable(Quoted(s, GoCanonical)) <==> PortableText(s)
    ensures PortableText(s) ==> Quoted(s, GoCanonical) == Quoted(s, Python)
  {
    TextAgrees(s);
    forall style: Style ensures Printable(Quoted(s, style)) <==> Printable(EscapeAll(s, style)) {
      PrintableAppend([QUOTE], EscapeAll(s, style));
      PrintableAppend([QUOTE] + EscapeAll(s, style), [QUOTE]);
    }
  }

  /** Python's text is plain ASCII; Go's is exactly for the values both print alike. */
  ghost predicate Agree(go: string, py: string, portable: bool) {
    Printable(py) && (Printable(go) <==> portable) && (portable ==> go == py)
  }

  lemma AgreeAppend(go: string, py: string, p: bool, go2: string, py2: string, p2: bool)
    requires Agree(go, py, p) && Agree(go2, py2, p2)
    ensures Agree(go + go2, py + py2, p && p2)
  {
    PrintableAppend(go, go2);
    PrintableAppend(py, py2);
  }

  lemma AgreePlain(text: string)
    requires Printable(text)
    ensures Agree(text, text, true)
  {
  }

  lemma {:induction false} PrintAgrees(v: Value)
    ensures Agree(Print(v, GoCanonical), Print(v, Python), Portable(v))
    decreases v, 1, 0
  {
    match v
    case Null => AgreePlain("null");
    case Bool(b) => AgreePlain(if b then "true" else "false");
    case Int(n) =>
      DigitsArePrintable(if n < 0 then -n else n);
      PrintableAppend("-", Digits(if n < 0 then -n else n));
    case Str(s) => QuotedAgrees(s);
    case Arr(a) =>
      ElementsAgree(v, 0);
      assert a[0..] == a;
      AgreePlain("[");
      AgreePlain("]");
      AgreeAppend("[", "[", true, PrintElements(v, 0, GoCanonical), PrintElements(v, 0, Python), Portable(v));
      AgreeAppend("[" + PrintElements(v, 0, GoCanonical), "[" + PrintElements(v, 0, Python), Portable(v), "]", "]", true);
    case Obj(m) =>
      var ks := SortedKeys(m.Keys);
      MembersAgree(v, ks);
      AgreePlain("{");
      AgreePlain("}");
      AgreeAppend("{", "{", true, PrintMembers(v, ks, GoCanonical), PrintMembers(v, ks, Python), Portable(v));
      AgreeAppend("{" + PrintMembers(v, ks, GoCanonical), "{" + PrintMembers(v, ks, Python), Portable(v), "}", "}", true);
  }

  ghost predicate PortableAll(a: seq<Value>) {
    forall x <- a :: Portable(x)
  }

  lemma PortableAllSplit(x: Value, a: seq<Value>)
    ensures PortableAll([x] + a) <==> Portable(x) && PortableAll(a)
  {
    if PortableAll([x] + a) {
      assert x in [x] + a;
      forall y | y in a ensures Portable(y) { assert y in [x] + a; }
    }
  }

  lemma {:induction false} ElementsAgree(v: Value, i: nat)
    requires v.Arr? && i <= |v.a|
    ensures Agree(PrintElements(v, i, GoCanonical), PrintElements(v, i, Python), PortableAll(v.a[i..]))
    decreases v, 0, |v.a| - i
  {
    if i < |v.a| {
      PrintAgrees(v.a[i]);
      assert v.a[i..] == [v.a[i]] + v.a[i + 1..];
      PortableAllSplit(v.a[i], v.a[i + 1..]);
      if i + 1 < |v.a| {
        ElementsAgree(v, i + 1);
        var p, p2 := Portable(v.a[i]), PortableAll(v.a[i + 1..]);
        AgreePlain(",");
        AgreeAppend(",", ",", true, PrintElements(v, i + 1, GoCanonical), PrintElements(v, i + 1, Python), p2);
        AgreeAppend(Print(v.a[i], GoCanonical), Print(v.a[i], Python), p,
                    "," + PrintElements(v, i + 1, GoCanonical), "," + PrintElements(v, i + 1, Python), p2);
      } else {
        assert Print(v.a[i], GoCanonical) + "" == Print(v.a[i], GoCanonical);
        assert Print(v.a[i], Python) + "" == Print(v.a[i], Python);
      }
    }
  }

  lemma {:induction false} PairAgrees(v: Value, k: string)
    requires v.Obj? && k in v.m
    ensures Agree(PrintPair(v, k, GoCanonical), PrintPair(v, k, Python), PortableText(k) && Portable(v.m[k]))
    decreases v, 0, 0
  {
    QuotedAgrees(k);
    PrintAgrees(v.m[k]);
    AgreePlain(":");
    AgreeAppend(Quoted(k, GoCanonical), Quoted(k, Python), PortableText(k), ":", ":", true);
    AgreeAppend(Quoted(k, GoCanonical) + ":", Quoted(k, Python) + ":", PortableText(k),
                Print(v.m[k], GoCanonical), Print(v.m[k], Python), Portable(v.m[k]));
  }

  lemma {:induction false} MembersAgree(v: Value, keys: seq<string>)
    requires v.Obj? && forall k <- keys :: k in v.m
    ensures Agree(PrintMembers(v, keys, GoCanonical), PrintMembers(v, keys, Python),
                  forall k <- keys :: PortableText(k) && Portable(v.m[k]))
    decreases v, 0, |keys|
  {
    if keys != [] {
      var k, rest := keys[0], keys[1..];
      PairAgrees(v, k);
      assert keys == [k] + rest;
      if |keys| > 1 {
        MembersAgree(v, rest);
        var p, p2 := PortableText(k) && Portable(v.m[k]), forall x <- rest :: PortableText(x) && Portable(v.m[x]);
        AgreePlain(",");
        AgreeAppend(",", ",", true, PrintMembers(v, rest, GoCanonical), PrintMembers(v, rest, Python), p2);
        AgreeAppend(PrintPair(v, k, GoCanonical), PrintPair(v, k, Python), p,
                    "," + PrintMembers(v, rest, GoCanonical), "," + PrintMembers(v, rest, Python), p2);
      } else {
        assert PrintPair(v, k, GoCanonical) + "" == PrintPair(v, k, GoCanonical);
        assert PrintPair(v, k, Python) + "" == PrintPair(v, k, Python);
      }
    }
  }

  /** The two canonical printers agree byte for byte exactly on portable values,
      nested arrays and objects included. */
  lemma CanonicalTextsAgreeIff(v: Value)
    ensures Print(v, GoCanonical) == Print(v, Python) <==> Portable(v)
  {
    PrintAgrees(v);
  }
}
