/** The grammar of JSON texts as syntax trees, sections 2 to 7 of RFC 8259 without
    fractions and exponents, and the proof that json.loads reads exactly these texts. */
module JsonGrammar {
  import opened Wrappers
  import opened Json
  import opened JsonParse

  // -------------------------------------------------------------- the trees

  /** One character of a string as it may be spelled. */
  datatype Item = Raw(c: char) | Short(letter: char) | Unit(hex: string) | Pair(high: string, low: string)

  /** A value as it may be spelled; strings between the parts are whitespace. */
  datatype Tree =
    | Null | True | False
    | Numeral(minus: bool, digits: string)
    | Text(items: seq<Item>)
    | NoElements(gap: string) | List(gap: string, elements: Elements)
    | NoMembers(gap: string) | Object(gap: string, members: Members)

  datatype Elements = LastOne(t: Tree, after: string) | Comma(t: Tree, after: string, gap: string, rest: Elements)

  datatype Member = Member(key: seq<Item>, afterKey: string, gap: string, t: Tree, after: string)

  datatype Members = LastMember(m: Member) | MoreMembers(m: Member, gap: string, rest: Members)

  predicate Spaces(s: string) {
    forall c <- s :: IsSpace(c)
  }

  predicate IsHexDigit(c: char) {
    '0' <= c <= '9' || 'a' <= c <= 'f' || 'A' <= c <= 'F'
  }

  predicate IsHex(s: string) {
    |s| == 4 && IsHexDigit(s[0]) && IsHexDigit(s[1]) && IsHexDigit(s[2]) && IsHexDigit(s[3])
  }

  function HexDigitOf(c: char): nat
    requires IsHexDigit(c)
  {
    if c <= '9' then c as int - '0' as int
    else if c <= 'F' then c as int - 'A' as int + 10 else c as int - 'a' as int + 10
  }

  /** The code unit that four hexadecimal digits name. */
  function Code(hex: string): nat
    requires IsHex(hex)
  {
    ((HexDigitOf(hex[0]) * 16 + HexDigitOf(hex[1])) * 16 + HexDigitOf(hex[2])) * 16 + HexDigitOf(hex[3])
  }

  predicate ItemOk(i: Item) {
    match i
    case Raw(c) => c >= ' ' && c != '\"' && c != '\\'
    case Short(l) => l in {'\"', '\\', '/', 'b', 'f', 'n', 'r', 't'}
    case Unit(hex) => IsHex(hex) && (Code(hex) < 0xD800 || 0xE000 <= Code(hex) < 0x10000)
    case Pair(high, low) => IsHex(high) && IsHex(low) && 0xD800 <= Code(high) < 0xDC00 <= Code(low) < 0xE000
  }

  function ItemSpelled(i: Item): string {
    match i
    case Raw(c) => [c]
    case Short(l) => ['\\', l]
    case Unit(hex) => ['\\', 'u'] + hex
    case Pair(high, low) => ['\\', 'u'] + high + ['\\', 'u'] + low
  }

  function ItemChar(i: Item): char
    requires ItemOk(i)
  {
    match i
    case Raw(c) => c
    case Short(l) =>
      if l == 'b' then 8 as char else if l == 'f' then 12 as char else if l == 'n' then 10 as char
      else if l == 'r' then 13 as char else if l == 't' then 9 as char else l
    case Unit(hex) => Code(hex) as char
    case Pair(high, low) => (0x10000 + (Code(high) - 0xD800) * 0x400 + (Code(low) - 0xDC00)) as char
  }

  predicate ItemsOk(items: seq<Item>) {
    forall i <- items :: ItemOk(i)
  }

  function ItemsSpelled(items: seq<Item>): string {
    if items == [] then "" else ItemSpelled(items[0]) + ItemsSpelled(items[1..])
  }

  function ItemsMean(items: seq<Item>): string
    requires ItemsOk(items)
  {
    if items == [] then "" else [ItemChar(items[0])] + ItemsMean(items[1..])
  }

  predicate DigitsOk(digits: string) {
    digits != "" && (forall i | 0 <= i < |digits| :: IsDigit(digits[i])) && (digits[0] == '0' ==> |digits| == 1)
  }

  predicate Ok(t: Tree) {
    match t
    case Null => true
    case True => true
    case False => true
    case Numeral(_, digits) => DigitsOk(digits)
    case Text(items) => ItemsOk(items)
    case NoElements(gap) => Spaces(gap)
    case List(gap, es) => Spaces(gap) && ElementsOk(es)
    case NoMembers(gap) => Spaces(gap)
    case Object(gap, ms) => Spaces(gap) && MembersOk(ms)
  }

  predicate ElementsOk(es: Elements) {
    Ok(es.t) && Spaces(es.after) && (es.Comma? ==> Spaces(es.gap) && ElementsOk(es.rest))
  }

  predicate MemberOk(m: Member) {
    ItemsOk(m.key) && Spaces(m.afterKey) && Spaces(m.gap) && Ok(m.t) && Spaces(m.after)
  }

  predicate MembersOk(ms: Members) {
    MemberOk(ms.m) && (ms.MoreMembers? ==> Spaces(ms.gap) && MembersOk(ms.rest))
  }

  /** The text of a tree. */
  function Spelled(t: Tree): string {
    match t
    case Null => "null"
    case True => "true"
    case False => "false"
    case Numeral(minus, digits) => (if minus then "-" else "") + digits
    case Text(items) => ['\"'] + ItemsSpelled(items) + ['\"']
    case NoElements(gap) => "[" + gap + "]"
    case List(gap, es) => "[" + gap + ElementsSpelled(es) + "]"
    case NoMembers(gap) => "{" + gap + "}"
    case Object(gap, ms) => "{" + gap + MembersSpelled(ms) + "}"
  }

  function ElementsSpelled(es: Elements): string {
    match es
    case LastOne(t, after) => Spelled(t) + after
    case Comma(t, after, gap, rest) => Spelled(t) + after + "," + gap + ElementsSpelled(rest)
  }

  function MemberSpelled(m: Member): string {
    ['\"'] + ItemsSpelled(m.key) + ['\"'] + m.afterKey + ":" + m.gap + Spelled(m.t) + m.after
  }

  function MembersSpelled(ms: Members): string {
    match ms
    case LastMember(m) => MemberSpelled(m)
    case MoreMembers(m, gap, rest) => MemberSpelled(m) + "," + gap + MembersSpelled(rest)
  }

  /** The value of a tree. */
  function Means(t: Tree): Value
    requires Ok(t)
  {
    match t
    case Null => Value.Null
    case True => Bool(true)
    case False => Bool(false)
    case Numeral(minus, digits) => Int(if minus then 0 - Number(digits) else Number(digits))
    case Text(items) => Str(ItemsMean(items))
    case NoElements(_) => Arr([])
    case List(_, es) => Arr(ElementsMean(es))
    case NoMembers(_) => Obj(map[])
    case Object(_, ms) => Obj(MembersMean(ms))
  }

  function ElementsMean(es: Elements): seq<Value>
    requires ElementsOk(es)
  {
    match es
    case LastOne(t, _) => [Means(t)]
    case Comma(t, _, _, rest) => [Means(t)] + ElementsMean(rest)
  }

  function MemberMeans(m: Member): map<string, Value>
    requires MemberOk(m)
  {
    map[ItemsMean(m.key) := Means(m.t)]
  }

  /** Of several members with the same key the last counts. */
  function MembersMean(ms: Members): map<string, Value>
    requires MembersOk(ms)
  {
    match ms
    case LastMember(m) => MemberMeans(m)
    case MoreMembers(m, _, rest) => MemberMeans(m) + MembersMean(rest)
  }

  // ------------------------------------------------- every tree is read

  lemma {:induction false} SpacesAreSkipped(gap: string, s: string)
    requires Spaces(gap) && (s == [] || !IsSpace(s[0]))
    ensures SkipSpace(gap + s) == s
  {
    if gap == [] {
      assert gap + s == s;
    } else {
      assert (gap + s)[1..] == gap[1..] + s && (gap + s)[0] == gap[0];
      SpacesAreSkipped(gap[1..], s);
    }
  }

  lemma HexIsRead(hex: string, tail: string)
    requires IsHex(hex)
    ensures ReadHex(hex + tail) == Some(Code(hex)) && (hex + tail)[4..] == tail
  {
    var s := hex + tail;
    assert s[0] == hex[0] && s[1] == hex[1] && s[2] == hex[2] && s[3] == hex[3];
  }

  lemma UnitIsRead(hex: string, tail: string)
    requires ItemOk(Unit(hex))
    ensures ReadUnicode(hex + tail) == Some((ItemChar(Unit(hex)), tail))
  {
    HexIsRead(hex, tail);
  }

  lemma PairIsRead(high: string, low: string, tail: string)
    requires ItemOk(Pair(high, low))
    ensures ReadUnicode(high + (['\\', 'u'] + low + tail)) == Some((ItemChar(Pair(high, low)), tail))
  {
    var s := high + (['\\', 'u'] + low + tail);
    HexIsRead(high, ['\\', 'u'] + low + tail);
    assert s[4] == '\\' && s[5] == 'u' && s[6..] == low + tail && s[10..] == tail;
    HexIsRead(low, tail);
  }

  lemma ItemIsRead(i: Item, tail: string)
    requires ItemOk(i)
    ensures ReadChar(ItemSpelled(i) + tail) == Some((ItemChar(i), tail))
    ensures ItemSpelled(i) != [] && ItemSpelled(i)[0] != QUOTE
  {
    var s := ItemSpelled(i) + tail;
    match i
    case Raw(c) => assert s[1..] == tail;
    case Short(l) => assert s[2..] == tail;
    case Unit(hex) =>
      assert s[2..] == hex + tail;
      UnitIsRead(hex, tail);
    case Pair(high, low) =>
      assert s[2..] == high + (['\\', 'u'] + low + tail);
      PairIsRead(high, low, tail);
  }

  lemma {:induction false} ItemsAreRead(items: seq<Item>, tail: string)
    requires ItemsOk(items)
    ensures ReadString(ItemsSpelled(items) + [QUOTE] + tail) == Some((ItemsMean(items), tail))
  {
    if items == [] {
      assert ItemsSpelled(items) + [QUOTE] + tail == [QUOTE] + tail;
    } else {
      var rest := ItemsSpelled(items[1..]) + [QUOTE] + tail;
      assert ItemsSpelled(items) + [QUOTE] + tail == ItemSpelled(items[0]) + rest;
      ItemIsRead(items[0], rest);
      ItemsAreRead(items[1..], tail);
    }
  }

  /** A quoted string, and what follows it. */
  lemma QuotedIsRead(items: seq<Item>, tail: string)
    requires ItemsOk(items)
    ensures var s := ['\"'] + ItemsSpelled(items) + ['\"'] + tail;
            s[0] == QUOTE && ReadString(s[1..]) == Some((ItemsMean(items), tail))
  {
    var s := ['\"'] + ItemsSpelled(items) + ['\"'] + tail;
    assert s[1..] == ItemsSpelled(items) + [QUOTE] + tail;
    ItemsAreRead(items, tail);
  }

  lemma NaturalIsRead(digits: string, tail: string)
    requires DigitsOk(digits) && Follows(tail)
    ensures ReadNatural(digits + tail) == Some((Number(digits), tail))
  {
    var s := digits + tail;
    RunOfDigits(digits, tail);
    assert s[..|digits|] == digits && s[|digits|..] == tail && s[0] == digits[0];
    assert s[..|digits|] == digits;
  }

  lemma SignedSpelled(digits: string, rest: string)
    ensures Spelled(Numeral(true, digits)) + rest == "-" + (digits + rest)
    ensures Spelled(Numeral(false, digits)) + rest == digits + rest
  {
    assert "" + digits == digits;
  }

  lemma NumeralMeans(minus: bool, digits: string)
    requires DigitsOk(digits)
    ensures Ok(Numeral(minus, digits))
    ensures Means(Numeral(minus, digits)) == Int(if minus then 0 - Number(digits) else Number(digits))
  {
  }

  lemma NumberIsRead(minus: bool, digits: string, tail: string)
    requires DigitsOk(digits) && Follows(tail)
    ensures ReadValue(Spelled(Numeral(minus, digits)) + tail) == Some((Means(Numeral(minus, digits)), tail))
  {
    NaturalIsRead(digits, tail);
    SignedSpelled(digits, tail);
    NumeralMeans(minus, digits);
    SignedIsRead(minus, digits + tail, Number(digits), tail);
    NumberIsReadAsNumber(if minus then "-" + (digits + tail) else digits + tail);
  }

  lemma SignedIsRead(minus: bool, u: string, n: nat, tail: string)
    requires ReadNatural(u) == Some((n, tail)) && u != [] && IsDigit(u[0])
    ensures ReadNumber(if minus then "-" + u else u) == Some((Int(if minus then 0 - n else n), tail))
  {
    assert ("-" + u)[1..] == u;
  }

  lemma WordsAreRead(tail: string)
    ensures ReadValue("null" + tail) == Some((Value.Null, tail))
    ensures ReadValue("true" + tail) == Some((Bool(true), tail))
    ensures ReadValue("false" + tail) == Some((Bool(false), tail))
  {
    assert ("null" + tail)[4..] == tail;
    ReadBool(true, tail);
    ReadBool(false, tail);
  }

  lemma SpelledStarts(t: Tree, tail: string)
    requires Ok(t)
    ensures StartsValue(Spelled(t) + tail)
  {
  }

  /** What stands behind a value in a list or an object. */
  lemma BehindValue(after: string, tail: string)
    requires Spaces(after) && tail != [] && tail[0] in {',', ']', '}'}
    ensures Follows(after + tail) && SkipSpace(after + tail) == tail
  {
    SpacesAreSkipped(after, tail);
    assert after != [] ==> (after + tail)[0] == after[0];
    assert after == [] ==> after + tail == tail;
  }

  /** One round of the element loop. */
  lemma ElementsTurn(s: string, acc: seq<Value>, v: Value, behind: string, u: string)
    requires ReadValue(s) == Some((v, behind)) && SkipSpace(behind) == u && u != []
    ensures u[0] == ']' ==> ReadElements(s, acc) == Some((acc + [v], u[1..]))
    ensures u[0] == ',' ==> ReadElements(s, acc) == ReadElements(SkipSpace(u[1..]), acc + [v])
  {
  }

  lemma LastOneSpelled(t: Tree, after: string, tail: string)
    ensures ElementsSpelled(LastOne(t, after)) + ("]" + tail) == Spelled(t) + (after + ("]" + tail))
  {
  }

  lemma CommaSpelled(t: Tree, after: string, gap: string, rest: Elements, tail: string)
    ensures ElementsSpelled(Comma(t, after, gap, rest)) + ("]" + tail)
         == Spelled(t) + (after + ("," + (gap + (ElementsSpelled(rest) + ("]" + tail)))))
  {
  }

  lemma ElementsStart(es: Elements, tail: string)
    requires ElementsOk(es)
    ensures StartsValue(ElementsSpelled(es) + tail)
  {
    SpelledStarts(es.t, "");
    assert Spelled(es.t) + "" == Spelled(es.t);
    assert ElementsSpelled(es)[0] == Spelled(es.t)[0];
    assert (ElementsSpelled(es) + tail)[0] == ElementsSpelled(es)[0];
  }

  lemma {:induction false} ElementsAreRead(es: Elements, acc: seq<Value>, tail: string)
    requires ElementsOk(es)
    ensures ReadElements(ElementsSpelled(es) + ("]" + tail), acc) == Some((acc + ElementsMean(es), tail))
    decreases es, 1
  {
    match es
    case LastOne(t, after) =>
      LastOneSpelled(t, after, tail);
      ElementIsRead(t, after, "]" + tail, acc);
    case Comma(t, after, gap, rest) =>
      CommaSpelled(t, after, gap, rest, tail);
      ElementIsRead(t, after, "," + (gap + (ElementsSpelled(rest) + ("]" + tail))), acc);
      CommaIsRead(gap, rest, tail);
      ElementsAreRead(rest, acc + [Means(t)], tail);
      CommaMeans(acc, t, after, gap, rest);
  }

  /** An element and what stands behind it. */
  lemma {:induction false} ElementIsRead(t: Tree, after: string, u: string, acc: seq<Value>)
    requires Ok(t) && Spaces(after) && u != [] && u[0] in {',', ']'}
    ensures ReadElements(Spelled(t) + (after + u), acc) ==
            if u[0] == ']' then Some((acc + [Means(t)], u[1..])) else ReadElements(SkipSpace(u[1..]), acc + [Means(t)])
    decreases t, 1
  {
    BehindValue(after, u);
    TreeIsRead(t, after + u);
    ElementsTurn(Spelled(t) + (after + u), acc, Means(t), after + u, u);
  }

  lemma CommaIsRead(gap: string, rest: Elements, tail: string)
    requires Spaces(gap) && ElementsOk(rest)
    ensures var next := ElementsSpelled(rest) + ("]" + tail); SkipSpace(("," + (gap + next))[1..]) == next
  {
    var next := ElementsSpelled(rest) + ("]" + tail);
    assert ("," + (gap + next))[1..] == gap + next;
    ElementsStart(rest, "]" + tail);
    SpacesAreSkipped(gap, next);
  }

  lemma ListSpelled(gap: string, es: Elements, tail: string)
    ensures Spelled(List(gap, es)) + tail == "[" + (gap + (ElementsSpelled(es) + ("]" + tail)))
  {
  }

  lemma OpensList(s: string, u: string, a: seq<Value>, tail: string)
    requires s != [] && s[0] == '[' && SkipSpace(s[1..]) == u && StartsValue(u) && ReadElements(u, []) == Some((a, tail))
    ensures ReadValue(s) == Some((Arr(a), tail))
  {
  }

  lemma ListIsRead(gap: string, es: Elements, tail: string)
    requires Spaces(gap) && ElementsOk(es)
    requires ReadElements(ElementsSpelled(es) + ("]" + tail), []) == Some((ElementsMean(es), tail))
    ensures ReadValue(Spelled(List(gap, es)) + tail) == Some((Arr(ElementsMean(es)), tail))
  {
    var body := ElementsSpelled(es) + ("]" + tail);
    ListSpelled(gap, es, tail);
    assert ("[" + (gap + body))[1..] == gap + body;
    ElementsStart(es, "]" + tail);
    SpacesAreSkipped(gap, body);
    OpensList("[" + (gap + body), body, ElementsMean(es), tail);
  }

  lemma EmptyIsRead(gap: string, tail: string)
    requires Spaces(gap)
    ensures ReadValue(Spelled(NoElements(gap)) + tail) == Some((Arr([]), tail))
    ensures ReadValue(Spelled(NoMembers(gap)) + tail) == Some((Obj(map[]), tail))
  {
    var s, o := Spelled(NoElements(gap)) + tail, Spelled(NoMembers(gap)) + tail;
    assert s[1..] == gap + ("]" + tail) && o[1..] == gap + ("}" + tail);
    SpacesAreSkipped(gap, "]" + tail);
    SpacesAreSkipped(gap, "}" + tail);
  }

  /** One round of the member loop. */
  lemma MembersTurn(s: string, acc: map<string, Value>, k: string, key: string, text: string, v: Value, behind: string,
                    u: string)
    requires s != [] && s[0] == QUOTE && ReadString(s[1..]) == Some((k, key)) && SkipSpace(key) == ":" + text
    requires ReadValue(SkipSpace(text)) == Some((v, behind)) && SkipSpace(behind) == u && u != []
    ensures u[0] == '}' ==> ReadMembers(s, acc) == Some((acc[k := v], u[1..]))
    ensures u[0] == ',' ==> ReadMembers(s, acc) == ReadMembers(SkipSpace(u[1..]), acc[k := v])
  {
    assert (":" + text)[1..] == text;
  }

  lemma MemberSplits(m: Member, u: string)
    ensures MemberSpelled(m) + u
         == ['\"'] + ItemsSpelled(m.key) + ['\"'] + (m.afterKey + (":" + (m.gap + (Spelled(m.t) + (m.after + u)))))
  {
  }

  /** A member, up to what stands behind its value. */
  lemma MemberIsRead(m: Member, acc: map<string, Value>, u: string)
    requires MemberOk(m) && u != [] && u[0] in {',', '}'}
    requires ReadValue(Spelled(m.t) + (m.after + u)) == Some((Means(m.t), m.after + u))
    ensures var s, more := MemberSpelled(m) + u, acc + MemberMeans(m);
            ReadMembers(s, acc) == if u[0] == '}' then Some((more, u[1..])) else ReadMembers(SkipSpace(u[1..]), more)
  {
    var value := Spelled(m.t) + (m.after + u);
    var key := m.afterKey + (":" + (m.gap + value));
    MemberSplits(m, u);
    QuotedIsRead(m.key, key);
    SpacesAreSkipped(m.afterKey, ":" + (m.gap + value));
    SpelledStarts(m.t, m.after + u);
    SpacesAreSkipped(m.gap, value);
    BehindValue(m.after, u);
    MembersTurn(MemberSpelled(m) + u, acc, ItemsMean(m.key), key, m.gap + value, Means(m.t), m.after + u, u);
    assert acc[ItemsMean(m.key) := Means(m.t)] == acc + MemberMeans(m);
  }

  lemma MembersStart(ms: Members, tail: string)
    ensures var s := MembersSpelled(ms) + tail; s != [] && s[0] == QUOTE
  {
    assert MemberSpelled(ms.m)[0] == QUOTE;
  }

  lemma MoreSpelled(m: Member, gap: string, rest: Members, tail: string)
    ensures MembersSpelled(MoreMembers(m, gap, rest)) + ("}" + tail)
         == MemberSpelled(m) + ("," + (gap + (MembersSpelled(rest) + ("}" + tail))))
  {
  }

  lemma MembersComma(gap: string, rest: Members, tail: string)
    requires Spaces(gap)
    ensures var next := MembersSpelled(rest) + ("}" + tail); SkipSpace(("," + (gap + next))[1..]) == next
  {
    var next := MembersSpelled(rest) + ("}" + tail);
    assert ("," + (gap + next))[1..] == gap + next;
    MembersStart(rest, "}" + tail);
    SpacesAreSkipped(gap, next);
  }

  lemma MapsJoin(a: map<string, Value>, b: map<string, Value>, c: map<string, Value>)
    ensures (a + b) + c == a + (b + c)
  {
  }

  lemma {:induction false} MembersAreRead(ms: Members, acc: map<string, Value>, tail: string)
    requires MembersOk(ms)
    ensures ReadMembers(MembersSpelled(ms) + ("}" + tail), acc) == Some((acc + MembersMean(ms), tail))
    decreases ms, 1
  {
    match ms
    case LastMember(m) =>
      ValueIsRead(m, "}" + tail);
      MemberIsRead(m, acc, "}" + tail);
    case MoreMembers(m, gap, rest) =>
      var u := "," + (gap + (MembersSpelled(rest) + ("}" + tail)));
      MoreSpelled(m, gap, rest, tail);
      ValueIsRead(m, u);
      MemberIsRead(m, acc, u);
      MembersComma(gap, rest, tail);
      MembersAreRead(rest, acc + MemberMeans(m), tail);
      MapsJoin(acc, MemberMeans(m), MembersMean(rest));
  }

  lemma {:induction false} ValueIsRead(m: Member, u: string)
    requires MemberOk(m) && u != [] && u[0] in {',', '}'}
    ensures ReadValue(Spelled(m.t) + (m.after + u)) == Some((Means(m.t), m.after + u))
    decreases m, 1
  {
    BehindValue(m.after, u);
    TreeIsRead(m.t, m.after + u);
  }

  lemma ObjectSpelled(gap: string, ms: Members, tail: string)
    ensures Spelled(Object(gap, ms)) + tail == "{" + (gap + (MembersSpelled(ms) + ("}" + tail)))
  {
  }

  lemma OpensObject(s: string, u: string, m: map<string, Value>, tail: string)
    requires s != [] && s[0] == '{' && SkipSpace(s[1..]) == u && u != [] && u[0] == QUOTE
    requires ReadMembers(u, map[]) == Some((m, tail))
    ensures ReadValue(s) == Some((Obj(m), tail))
  {
  }

  lemma ObjectIsRead(gap: string, ms: Members, tail: string)
    requires Spaces(gap) && MembersOk(ms)
    requires ReadMembers(MembersSpelled(ms) + ("}" + tail), map[]) == Some((MembersMean(ms), tail))
    ensures ReadValue(Spelled(Object(gap, ms)) + tail) == Some((Obj(MembersMean(ms)), tail))
  {
    var body := MembersSpelled(ms) + ("}" + tail);
    ObjectSpelled(gap, ms, tail);
    assert ("{" + (gap + body))[1..] == gap + body;
    MembersStart(ms, "}" + tail);
    SpacesAreSkipped(gap, body);
    OpensObject("{" + (gap + body), body, MembersMean(ms), tail);
  }

  /** Every tree's text is read as its value, whatever may follow a value. */
  lemma {:induction false} TreeIsRead(t: Tree, tail: string)
    requires Ok(t) && Follows(tail)
    ensures ReadValue(Spelled(t) + tail) == Some((Means(t), tail))
    decreases t, 0
  {
    match t
    case Null => WordsAreRead(tail);
    case True => WordsAreRead(tail);
    case False => WordsAreRead(tail);
    case Numeral(minus, digits) => NumberIsRead(minus, digits, tail);
    case Text(items) => QuotedIsRead(items, tail);
    case NoElements(gap) => EmptyIsRead(gap, tail);
    case List(gap, es) =>
      ElementsAreRead(es, [], tail);
      assert [] + ElementsMean(es) == ElementsMean(es);
      ListIsRead(gap, es, tail);
    case NoMembers(gap) => EmptyIsRead(gap, tail);
    case Object(gap, ms) =>
      MembersAreRead(ms, map[], tail);
      assert map[] + MembersMean(ms) == MembersMean(ms);
      ObjectIsRead(gap, ms, tail);
  }

  // ------------------------------------------ what is read is a tree

  lemma {:induction false} SpacesOf(s: string) returns (gap: string)
    ensures Spaces(gap) && s == gap + SkipSpace(s) && (SkipSpace(s) == [] || !IsSpace(SkipSpace(s)[0]))
  {
    if s != [] && IsSpace(s[0]) {
      gap := SpacesOf(s[1..]);
      gap := [s[0]] + gap;
    } else {
      gap := [];
    }
  }

  lemma HexOf(s: string)
    requires ReadHex(s).Some?
    ensures |s| >= 4 && IsHex(s[..4]) && ReadHex(s) == Some(Code(s[..4])) && Code(s[..4]) < 0x10000
  {
  }

  lemma UnicodeOf(s: string) returns (i: Item)
    requires ReadUnicode(s).Some?
    ensures ItemOk(i) && (i.Unit? || i.Pair?)
    ensures var (c, rest) := ReadUnicode(s).value; c == ItemChar(i) && ['\\', 'u'] + s == ItemSpelled(i) + rest
  {
    HexOf(s);
    if Code(s[..4]) < 0xD800 || 0xE000 <= Code(s[..4]) {
      i := Unit(s[..4]);
      assert s == s[..4] + s[4..];
    } else {
      HexOf(s[6..]);
      i := Pair(s[..4], s[6..][..4]);
      PairSplits(s);
    }
  }

  lemma PairSplits(s: string)
    requires |s| >= 10 && s[4] == '\\' && s[5] == 'u'
    ensures s == s[..4] + ['\\', 'u'] + s[6..][..4] + s[10..]
  {
  }

  lemma ItemOf(s: string) returns (i: Item)
    requires ReadChar(s).Some?
    ensures ItemOk(i)
    ensures var (c, rest) := ReadChar(s).value; c == ItemChar(i) && s == ItemSpelled(i) + rest
  {
    if s[0] != '\\' {
      i := Raw(s[0]);
    } else if s[1] == 'u' {
      i := UnicodeOf(s[2..]);
      assert s == ['\\', 'u'] + s[2..];
    } else {
      i := Short(s[1]);
      assert s == ['\\', s[1]] + s[2..];
    }
  }

  lemma {:induction false} ItemsOf(s: string) returns (items: seq<Item>)
    requires ReadString(s).Some?
    ensures ItemsOk(items)
    ensures var (text, rest) := ReadString(s).value; text == ItemsMean(items) && s == ItemsSpelled(items) + [QUOTE] + rest
    decreases |s|
  {
    if s[0] == QUOTE {
      items := [];
      assert s == [QUOTE] + s[1..];
    } else {
      var i := ItemOf(s);
      var more := ItemsOf(ReadChar(s).value.1);
      items := [i] + more;
      OneItemMore(i, more, ReadString(s).value.1);
    }
  }

  lemma OneItemMore(i: Item, more: seq<Item>, rest: string)
    requires ItemOk(i) && ItemsOk(more)
    ensures ItemsOk([i] + more) && ItemsMean([i] + more) == [ItemChar(i)] + ItemsMean(more)
    ensures ItemsSpelled([i] + more) + [QUOTE] + rest == ItemSpelled(i) + (ItemsSpelled(more) + [QUOTE] + rest)
  {
    assert ([i] + more)[1..] == more;
  }

  lemma TextOf(s: string) returns (t: Tree)
    requires s != [] && s[0] == QUOTE && ReadString(s[1..]).Some?
    ensures Ok(t) && t.Text?
    ensures var (text, rest) := ReadString(s[1..]).value; Means(t) == Str(text) && s == Spelled(t) + rest
  {
    var items := ItemsOf(s[1..]);
    t := Text(items);
    assert s == ['\"'] + s[1..];
  }

  lemma NaturalOf(s: string) returns (digits: string)
    requires ReadNatural(s).Some?
    ensures DigitsOk(digits)
    ensures var (n, rest) := ReadNatural(s).value; n == Number(digits) && s == digits + rest
  {
    digits := s[..if s[0] == '0' then 1 else DigitRun(s)];
  }

  lemma NumberParts(s: string) returns (u: string, n: nat, rest: string)
    requires ReadNumber(s).Some?
    ensures s != [] && ReadNatural(u) == Some((n, rest))
    ensures if s[0] == '-' then s == "-" + u && ReadNumber(s) == Some((Int(0 - n), rest))
            else s == u && ReadNumber(s) == Some((Int(n), rest))
  {
    u := if s[0] == '-' then s[1..] else s;
    n, rest := ReadNatural(u).value.0, ReadNatural(u).value.1;
  }

  lemma NumeralOf(s: string) returns (t: Tree)
    requires ReadNumber(s).Some?
    ensures Ok(t)
    ensures var (v, rest) := ReadNumber(s).value; Means(t) == v && s == Spelled(t) + rest
  {
    var u, n, rest := NumberParts(s);
    var digits := NaturalOf(u);
    NumeralMeans(s[0] == '-', digits);
    SignedSpelled(digits, rest);
    t := Numeral(s[0] == '-', digits);
  }

  /** Whatever is read as a value is the text of a tree with that value. */
  lemma {:induction false} TreeOf(s: string) returns (t: Tree)
    requires ReadValue(s).Some?
    ensures Ok(t)
    ensures var (v, rest) := ReadValue(s).value; Means(t) == v && s == Spelled(t) + rest
    decreases |s|, 2
  {
    if s[0] == QUOTE {
      t := TextOf(s);
    } else if s[0] == '{' {
      t := ObjectOf(s);
    } else if s[0] == '[' {
      t := ListOf(s);
    } else if "null" <= s {
      t := Tree.Null;
    } else if "true" <= s {
      t := True;
    } else if "false" <= s {
      t := False;
    } else {
      t := NumeralOf(s);
    }
  }

  /** What stands behind an opening bracket. */
  lemma ListParts(s: string) returns (u: string)
    requires ReadValue(s).Some? && s[0] == '['
    ensures u == SkipSpace(s[1..]) && u != [] && |u| < |s|
    ensures u[0] == ']' ==> ReadValue(s) == Some((Arr([]), u[1..]))
    ensures u[0] != ']' ==> ReadElements(u, []).Some? &&
                            ReadValue(s) == Some((Arr(ReadElements(u, []).value.0), ReadElements(u, []).value.1))
  {
    u := SkipSpace(s[1..]);
  }

  lemma {:induction false} ListOf(s: string) returns (t: Tree)
    requires ReadValue(s).Some? && s[0] == '['
    ensures Ok(t)
    ensures var (v, rest) := ReadValue(s).value; Means(t) == v && s == Spelled(t) + rest
    decreases |s|, 1
  {
    var u := ListParts(s);
    var gap := SpacesOf(s[1..]);
    assert s == "[" + (gap + u);
    if u[0] == ']' {
      t := NoElements(gap);
      assert u == "]" + u[1..];
    } else {
      var es := ElementsOf(u, []);
      t := List(gap, es);
      ListSpelled(gap, es, ReadValue(s).value.1);
    }
  }

  /** The parts of an element as ReadElements finds them. */
  lemma ElementParts(s: string, acc: seq<Value>) returns (v: Value, behind: string)
    requires ReadElements(s, acc).Some?
    ensures ReadValue(s) == Some((v, behind))
    ensures var u := SkipSpace(behind);
            && u != [] && |u| < |s|
            && (u[0] == ']' ==> ReadElements(s, acc) == Some((acc + [v], u[1..])))
            && (u[0] != ']' ==> u[0] == ',' && ReadElements(s, acc) == ReadElements(SkipSpace(u[1..]), acc + [v]))
  {
    v, behind := ReadValue(s).value.0, ReadValue(s).value.1;
  }

  /** One element and what stands behind it. */
  lemma {:induction false} ElementOf(s: string, acc: seq<Value>) returns (t: Tree, after: string, u: string)
    requires ReadElements(s, acc).Some?
    ensures Ok(t) && Spaces(after) && s == Spelled(t) + (after + u) && u != [] && |u| < |s|
    ensures u[0] == ']' ==> ReadElements(s, acc) == Some((acc + [Means(t)], u[1..]))
    ensures u[0] != ']' ==> u[0] == ',' && ReadElements(s, acc) == ReadElements(SkipSpace(u[1..]), acc + [Means(t)])
    decreases |s|, 3
  {
    var v, behind := ElementParts(s, acc);
    t := TreeOf(s);
    after := SpacesOf(behind);
    u := SkipSpace(behind);
  }

  lemma {:induction false} ElementsOf(s: string, acc: seq<Value>) returns (es: Elements)
    requires ReadElements(s, acc).Some?
    ensures ElementsOk(es)
    ensures var (a, rest) := ReadElements(s, acc).value;
            a == acc + ElementsMean(es) && s == ElementsSpelled(es) + ("]" + rest)
    decreases |s|, 4
  {
    var t, after, u := ElementOf(s, acc);
    if u[0] == ']' {
      es := LastOne(t, after);
      assert u == "]" + u[1..];
      LastOneSpelled(t, after, u[1..]);
    } else {
      var gap := SpacesOf(u[1..]);
      var rest := ElementsOf(SkipSpace(u[1..]), acc + [Means(t)]);
      es := Comma(t, after, gap, rest);
      assert u == "," + (gap + SkipSpace(u[1..]));
      CommaSpelled(t, after, gap, rest, ReadElements(s, acc).value.1);
      CommaMeans(acc, t, after, gap, rest);
    }
  }

  lemma CommaMeans(acc: seq<Value>, t: Tree, after: string, gap: string, rest: Elements)
    requires Ok(t) && Spaces(after) && Spaces(gap) && ElementsOk(rest)
    ensures ElementsOk(Comma(t, after, gap, rest))
    ensures (acc + [Means(t)]) + ElementsMean(rest) == acc + ElementsMean(Comma(t, after, gap, rest))
  {
  }

  /** What stands behind an opening brace. */
  lemma ObjectParts(s: string) returns (u: string)
    requires ReadValue(s).Some? && s[0] == '{'
    ensures u == SkipSpace(s[1..]) && u != [] && |u| < |s|
    ensures u[0] == '}' ==> ReadValue(s) == Some((Obj(map[]), u[1..]))
    ensures u[0] != '}' ==> ReadMembers(u, map[]).Some? &&
                            ReadValue(s) == Some((Obj(ReadMembers(u, map[]).value.0), ReadMembers(u, map[]).value.1))
  {
    u := SkipSpace(s[1..]);
  }

  lemma {:induction false} ObjectOf(s: string) returns (t: Tree)
    requires ReadValue(s).Some? && s[0] == '{'
    ensures Ok(t)
    ensures var (v, rest) := ReadValue(s).value; Means(t) == v && s == Spelled(t) + rest
    decreases |s|, 1
  {
    var u := ObjectParts(s);
    var gap := SpacesOf(s[1..]);
    assert s == "{" + (gap + u);
    if u[0] == '}' {
      t := NoMembers(gap);
      assert u == "}" + u[1..];
    } else {
      var ms := MembersOf(u, map[]);
      t := Object(gap, ms);
      assert map[] + MembersMean(ms) == MembersMean(ms);
      ObjectSpelled(gap, ms, ReadValue(s).value.1);
    }
  }

  /** The parts of a member as ReadMembers finds them. */
  lemma MemberParts(s: string, acc: map<string, Value>)
    returns (k: string, key: string, text: string, v: Value, behind: string)
    requires ReadMembers(s, acc).Some?
    ensures s != [] && s[0] == QUOTE && ReadString(s[1..]) == Some((k, key)) && SkipSpace(key) == ":" + text
    ensures |text| < |s| && ReadValue(SkipSpace(text)) == Some((v, behind))
    ensures var u := SkipSpace(behind);
            && u != [] && |u| < |s|
            && (u[0] == '}' ==> ReadMembers(s, acc) == Some((acc[k := v], u[1..])))
            && (u[0] != '}' ==> u[0] == ',' && ReadMembers(s, acc) == ReadMembers(SkipSpace(u[1..]), acc[k := v]))
  {
    k, key := ReadString(s[1..]).value.0, ReadString(s[1..]).value.1;
    text := SkipSpace(key)[1..];
    v, behind := ReadValue(SkipSpace(text)).value.0, ReadValue(SkipSpace(text)).value.1;
  }

  /** One member and what stands behind it. */
  lemma {:induction false} MemberOf(s: string, acc: map<string, Value>) returns (m: Member, u: string)
    requires ReadMembers(s, acc).Some?
    ensures MemberOk(m) && s == MemberSpelled(m) + u && u != [] && |u| < |s|
    ensures u[0] == '}' ==> ReadMembers(s, acc) == Some((acc + MemberMeans(m), u[1..]))
    ensures u[0] != '}' ==> u[0] == ',' && ReadMembers(s, acc) == ReadMembers(SkipSpace(u[1..]), acc + MemberMeans(m))
    decreases |s|, 2
  {
    var k, key, text, v, behind := MemberParts(s, acc);
    var items := ItemsOf(s[1..]);
    var afterKey := SpacesOf(key);
    var gap := SpacesOf(text);
    var t := TreeOf(SkipSpace(text));
    var after := SpacesOf(behind);
    u := SkipSpace(behind);
    m := Member(items, afterKey, gap, t, after);
    MemberSplits(m, u);
    PartsJoin(s, key, text, behind, m, u);
    assert acc[k := v] == acc + MemberMeans(m);
  }

  lemma PartsJoin(s: string, key: string, text: string, behind: string, m: Member, u: string)
    requires s != [] && s[0] == QUOTE && s[1..] == ItemsSpelled(m.key) + [QUOTE] + key
    requires key == m.afterKey + (":" + text) && text == m.gap + (Spelled(m.t) + behind) && behind == m.after + u
    ensures s == ['\"'] + ItemsSpelled(m.key) + ['\"'] + (m.afterKey + (":" + (m.gap + (Spelled(m.t) + (m.after + u)))))
  {
    assert s == ['\"'] + s[1..];
  }

  lemma {:induction false} MembersOf(s: string, acc: map<string, Value>) returns (ms: Members)
    requires ReadMembers(s, acc).Some?
    ensures MembersOk(ms)
    ensures var (m, rest) := ReadMembers(s, acc).value; m == acc + MembersMean(ms) && s == MembersSpelled(ms) + ("}" + rest)
    decreases |s|, 3
  {
    var m, u := MemberOf(s, acc);
    if u[0] == '}' {
      ms := LastMember(m);
      assert u == "}" + u[1..];
    } else {
      var gap := SpacesOf(u[1..]);
      var rest := MembersOf(SkipSpace(u[1..]), acc + MemberMeans(m));
      ms := MoreMembers(m, gap, rest);
      assert u == "," + (gap + SkipSpace(u[1..]));
      MoreSpelled(m, gap, rest, ReadMembers(s, acc).value.1);
      MapsJoin(acc, MemberMeans(m), MembersMean(rest));
    }
  }

  // ------------------------------------------------------------ main result

  /** The text of a tree, with whitespace around it. */
  ghost predicate Spells(text: string, before: string, t: Tree, after: string) {
    Spaces(before) && Spaces(after) && Ok(t) && text == before + Spelled(t) + after
  }

  /** json.loads reads exactly the texts of the grammar, each as the value it spells. */
  lemma LoadsReadsTheGrammar(text: string, v: Value)
    ensures Loads(text) == Some(v) <==> exists before, t, after :: Spells(text, before, t, after) && Means(t) == v
  {
    if Loads(text) == Some(v) {
      var before := SpacesOf(text);
      var t := TreeOf(SkipSpace(text));
      var after := SpacesOf(ReadValue(SkipSpace(text)).value.1);
      assert Spells(text, before, t, after) && Means(t) == v;
    }
    if before, t, after :| Spells(text, before, t, after) && Means(t) == v {
      TextIsLoaded(text, before, t, after);
    }
  }

  lemma TextIsLoaded(text: string, before: string, t: Tree, after: string)
    requires Spells(text, before, t, after)
    ensures Loads(text) == Some(Means(t))
  {
    assert text == before + (Spelled(t) + after);
    SpelledStarts(t, after);
    SpacesAreSkipped(before, Spelled(t) + after);
    TreeIsRead(t, after);
    SpacesAreSkipped(after, []);
    assert after + [] == after;
  }
}
