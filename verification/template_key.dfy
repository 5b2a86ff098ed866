/** The key `name/version` under which registry, cache and storage keep a template, and
    its parser. */
module TemplateKey {
  import opened Wrappers

  function Key(name: string, version: string): string {
    name + "/" + version
  }

  /** A key determines its name and version when no name holds a slash. */
  lemma KeySplits(n: string, v: string, n': string, v': string)
    requires '/' !in n && '/' !in n' && Key(n, v) == Key(n', v')
    ensures n == n' && v == v'
  {
    var k := Key(n, v);
    assert k[|n|] == '/' && k[|n'|] == '/';
    assert forall i | 0 <= i < |n| :: k[i] == n[i] && n[i] in n;
    assert forall i | 0 <= i < |n'| :: k[i] == n'[i] && n'[i] in n';
    assert n == k[..|n|] && n' == k[..|n'|];
    assert v == k[|n| + 1..] && v' == k[|n'| + 1..];
  }

  /** strings.Split(s, "/") */
  function Split(s: string): (r: seq<string>)
    ensures |r| >= 1
  {
    if s == "" then [""]
    else
      var rest := Split(s[1..]);
      if s[0] == '/' then [""] + rest else [[s[0]] + rest[0]] + rest[1..]
  }

  predicate BadPart(p: string) {
    p == "." || p == ".." || '\0' in p || '\n' in p || '\r' in p || '\t' in p || "." <= p
  }

  function ParseKey(s: string): Option<(string, string)> {
    var parts := Split(s);
    if s == "" || |parts| != 2 then None
    else if parts[0] == "" || parts[1] == "" || BadPart(parts[0]) || BadPart(parts[1]) then None
    else Some((parts[0], parts[1]))
  }

  /** What ParseKey accepts on either side of the slash. */
  predicate Part(p: string) {
    p != "" && p[0] != '.' && forall c <- p :: c !in {'/', '\0', '\n', '\r', '\t'}
  }

  lemma {:induction false} SplitWithoutSlash(s: string)
    ensures |Split(s)| == 1 <==> '/' !in s
    ensures '/' !in s ==> Split(s) == [s]
  {
    if s != "" {
      SplitWithoutSlash(s[1..]);
      assert s == [s[0]] + s[1..];
    }
  }

  lemma {:induction false} SplitAfterName(n: string, rest: string)
    requires '/' !in n
    ensures Split(n + "/" + rest) == [n] + Split(rest)
  {
    var s := n + "/" + rest;
    if n == "" {
      assert s == "/" + rest && s[1..] == rest;
    } else {
      assert s[1..] == n[1..] + "/" + rest;
      SplitAfterName(n[1..], rest);
      assert n == [n[0]] + n[1..];
    }
  }

  /** Two parts mean one slash. */
  lemma {:induction false} TwoParts(s: string)
    requires |Split(s)| == 2
    ensures s == Key(Split(s)[0], Split(s)[1]) && '/' !in Split(s)[0] && '/' !in Split(s)[1]
  {
    SplitWithoutSlash(s[1..]);
    assert s == [s[0]] + s[1..];
    if s[0] != '/' {
      TwoParts(s[1..]);
    }
  }

  /** ParseKey inverts Key on acceptable parts and refuses everything else. */
  lemma ParseKeyInvertsKey(s: string, n: string, v: string)
    ensures ParseKey(s) == Some((n, v)) <==> s == Key(n, v) && Part(n) && Part(v)
  {
    if ParseKey(s) == Some((n, v)) {
      TwoParts(s);
      NotBad(n);
      NotBad(v);
    }
    if s == Key(n, v) && Part(n) && Part(v) {
      SplitAfterName(n, v);
      SplitWithoutSlash(v);
      NotBad(n);
      NotBad(v);
    }
  }

  lemma NotBad(p: string)
    ensures Part(p) <==> p != "" && !BadPart(p) && '/' !in p
  {
    assert "." <= p <==> p != "" && p[0] == '.';
  }

  /** Dots inside a part and backslashes pass, whatever the comment on ParseKey says. */
  lemma InnerDotsAreAccepted()
    ensures ParseKey("a..b/1\\2") == Some(("a..b", "1\\2"))
  {
    var n, v := "a..b", "1\\2";
    assert Part(n) && Part(v);
    ParseKeyInvertsKey(Key(n, v), n, v);
    assert Key(n, v) == "a..b/1\\2";
  }
}
