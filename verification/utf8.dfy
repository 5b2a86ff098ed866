/** UTF-8 (RFC 3629) between Unicode scalar values and bytes, as Go's encoder and
    Python's str.encode and bytes.decode apply it. */
module Utf8 {
  import opened Wrappers

  newtype Byte = x: int | 0 <= x < 256

  type Bytes = seq<Byte>

  function EncodeChar(c: char): (b: Bytes)
    ensures 1 <= |b| <= 4
    ensures forall x <- b :: x < 0x80 ==> |b| == 1 && x as int == c as int
  {
    var n := c as int;
    if n < 0x80 then [n as Byte]
    else if n < 0x800 then [(0xC0 + n / 0x40) as Byte, (0x80 + n % 0x40) as Byte]
    else if n < 0x10000 then
      [(0xE0 + n / 0x1000) as Byte, (0x80 + n / 0x40 % 0x40) as Byte, (0x80 + n % 0x40) as Byte]
    else
      [(0xF0 + n / 0x40000) as Byte, (0x80 + n / 0x1000 % 0x40) as Byte,
       (0x80 + n / 0x40 % 0x40) as Byte, (0x80 + n % 0x40) as Byte]
  }

  function Encode(s: string): Bytes {
    if s == [] then [] else EncodeChar(s[0]) + Encode(s[1..])
  }

  predicate Continues(b: Byte) { 0x80 <= b < 0xC0 }

  function Low(b: Byte): int
    requires Continues(b)
  {
    b as int - 0x80
  }

  predicate IsScalar(n: int) { 0 <= n < 0xD800 || 0xE000 <= n < 0x110000 }

  /** The first character of `b` and how many bytes it takes; overlong forms,
      surrogates and stray bytes are refused. */
  function DecodeChar(b: Bytes): Option<(char, nat)>
    requires b != []
  {
    var h := b[0] as int;
    if h < 0x80 then Some((h as char, 1))
    else if 0xC0 <= h < 0xE0 && |b| >= 2 && Continues(b[1]) then
      Scalar((h - 0xC0) * 0x40 + Low(b[1]), 0x80, 2)
    else if 0xE0 <= h < 0xF0 && |b| >= 3 && Continues(b[1]) && Continues(b[2]) then
      Scalar((h - 0xE0) * 0x1000 + Low(b[1]) * 0x40 + Low(b[2]), 0x800, 3)
    else if 0xF0 <= h < 0xF8 && |b| >= 4 && Continues(b[1]) && Continues(b[2]) && Continues(b[3]) then
      Scalar((h - 0xF0) * 0x40000 + Low(b[1]) * 0x1000 + Low(b[2]) * 0x40 + Low(b[3]), 0x10000, 4)
    else None
  }

  function Scalar(n: int, least: int, size: nat): Option<(char, nat)> {
    if least <= n && IsScalar(n) then Some((n as char, size)) else None
  }

  function Decode(b: Bytes): Option<string>
    decreases |b|
  {
    if b == [] then Some("")
    else
      match DecodeChar(b)
      case None => None
      case Some((c, size)) =>
        if size == 0 || size > |b| then None
        else match Decode(b[size..])
             case None => None
             case Some(rest) => Some([c] + rest)
  }

  lemma ThreeByteDigits(n: int)
    requires 0x800 <= n < 0x10000
    ensures n == n / 0x1000 * 0x1000 + n / 0x40 % 0x40 * 0x40 + n % 0x40
    ensures n / 0x1000 < 0x10
  {
  }

  lemma FourByteDigits(n: int)
    requires 0x10000 <= n < 0x110000
    ensures n == n / 0x40000 * 0x40000 + n / 0x1000 % 0x40 * 0x1000 + n / 0x40 % 0x40 * 0x40 + n % 0x40
    ensures n / 0x40000 < 0x8
  {
  }

  lemma CharRoundTrip(c: char, tail: Bytes)
    ensures DecodeChar(EncodeChar(c) + tail) == Some((c, |EncodeChar(c)|))
  {
    var n := c as int;
    if 0x10000 <= n { FourByteRoundTrip(c, tail); }
    else if 0x800 <= n { ThreeByteRoundTrip(c, tail); }
  }

  lemma ThreeByteRoundTrip(c: char, tail: Bytes)
    requires 0x800 <= c as int < 0x10000
    ensures DecodeChar(EncodeChar(c) + tail) == Some((c, 3))
  {
    var b, n := EncodeChar(c) + tail, c as int;
    ThreeByteDigits(n);
    assert b[0] == (0xE0 + n / 0x1000) as Byte && b[1] == (0x80 + n / 0x40 % 0x40) as Byte;
    assert b[2] == (0x80 + n % 0x40) as Byte;
    assert Scalar(n, 0x800, 3) == Some((c, 3));
  }

  lemma FourByteRoundTrip(c: char, tail: Bytes)
    requires 0x10000 <= c as int
    ensures DecodeChar(EncodeChar(c) + tail) == Some((c, 4))
  {
    var b, n := EncodeChar(c) + tail, c as int;
    FourByteDigits(n);
    assert b[0] == (0xF0 + n / 0x40000) as Byte && b[1] == (0x80 + n / 0x1000 % 0x40) as Byte;
    assert b[2] == (0x80 + n / 0x40 % 0x40) as Byte && b[3] == (0x80 + n % 0x40) as Byte;
    assert Scalar(n, 0x10000, 4) == Some((c, 4));
  }

  lemma {:induction false} RoundTrip(s: string)
    ensures Decode(Encode(s)) == Some(s)
  {
    if s != [] {
      var b := EncodeChar(s[0]);
      CharRoundTrip(s[0], Encode(s[1..]));
      assert (b + Encode(s[1..]))[|b|..] == Encode(s[1..]);
      RoundTrip(s[1..]);
      assert [s[0]] + s[1..] == s;
    }
  }

  lemma EncodeInjective(s: string, t: string)
    requires Encode(s) == Encode(t)
    ensures s == t
  {
    RoundTrip(s);
    RoundTrip(t);
  }

  /** What is decoded as a character is that character's encoding and nothing else. */
  lemma DecodedIsEncoded(b: Bytes)
    requires b != [] && DecodeChar(b).Some?
    ensures var (c, size) := DecodeChar(b).value; size <= |b| && EncodeChar(c) == b[..size]
  {
    var h := b[0] as int;
    if 0xC0 <= h < 0xE0 { TwoBytesBack(b); }
    else if 0xE0 <= h < 0xF0 { ThreeBytesBack(b); }
    else if 0xF0 <= h { FourBytesBack(b); }
  }

  lemma TwoBytesBack(b: Bytes)
    requires b != [] && 0xC0 <= b[0] < 0xE0 && DecodeChar(b).Some?
    ensures DecodeChar(b).value.1 == 2 <= |b| && EncodeChar(DecodeChar(b).value.0) == b[..2]
  {
    var n := (b[0] as int - 0xC0) * 0x40 + Low(b[1]);
    assert n / 0x40 == b[0] as int - 0xC0 && n % 0x40 == Low(b[1]);
  }

  lemma ThreeBytesBack(b: Bytes)
    requires b != [] && 0xE0 <= b[0] < 0xF0 && DecodeChar(b).Some?
    ensures DecodeChar(b).value.1 == 3 <= |b| && EncodeChar(DecodeChar(b).value.0) == b[..3]
  {
    var n := DecodeChar(b).value.0 as int;
    SixBits(b[0] as int - 0xE0, Low(b[1]), Low(b[2]));
    ThreeByteDigits(n);
  }

  lemma FourBytesBack(b: Bytes)
    requires b != [] && 0xF0 <= b[0] && DecodeChar(b).Some?
    ensures DecodeChar(b).value.1 == 4 <= |b| && EncodeChar(DecodeChar(b).value.0) == b[..4]
  {
    var h := b[0] as int - 0xF0;
    SixBits(h * 0x40 + Low(b[1]), Low(b[2]), Low(b[3]));
    assert (h * 0x40 + Low(b[1])) / 0x40 == h && (h * 0x40 + Low(b[1])) % 0x40 == Low(b[1]);
    FourByteDigits(DecodeChar(b).value.0 as int);
  }

  lemma SixBits(x: int, y: int, z: int)
    requires 0 <= x && 0 <= y < 0x40 && 0 <= z < 0x40
    ensures var n := x * 0x1000 + y * 0x40 + z;
            n / 0x1000 == x && n / 0x40 % 0x40 == y && n % 0x40 == z && n / 0x40 == x * 0x40 + y
  {
    var n := x * 0x1000 + y * 0x40 + z;
    assert n == (x * 0x40 + y) * 0x40 + z;
  }

  /** Bytes decode to a text if and only if they are its encoding: overlong forms,
      surrogates, values out of range and stray bytes decode to nothing. */
  lemma {:induction false} DecodesIffEncoded(b: Bytes, s: string)
    ensures Decode(b) == Some(s) <==> b == Encode(s)
    decreases |b|
  {
    RoundTrip(s);
    if b != [] && Decode(b) == Some(s) {
      DecodedIsEncoded(b);
      var (c, size) := DecodeChar(b).value;
      DecodesIffEncoded(b[size..], s[1..]);
      assert b == b[..size] + b[size..];
    }
  }

  /** One character of each length. */
  lemma EncodingsByExample()
    ensures EncodeChar('A') == [0x41] && EncodeChar(0xE9 as char) == [0xC3, 0xA9]
    ensures EncodeChar(0x20AC as char) == [0xE2, 0x82, 0xAC] && EncodeChar(0x1F600 as char) == [0xF0, 0x9F, 0x98, 0x80]
  {
  }

  lemma {:induction false} EncodeAppend(s: string, t: string)
    ensures Encode(s + t) == Encode(s) + Encode(t)
  {
    if s == [] {
      assert s + t == t;
    } else {
      assert (s + t)[1..] == s[1..] + t;
      EncodeAppend(s[1..], t);
    }
  }

  // ------------------------------------------------------------ byte order

  /** The order of byte strings. */
  predicate BytesLe(a: Bytes, b: Bytes) {
    a == [] || (b != [] && (a[0] < b[0] || (a[0] == b[0] && BytesLe(a[1..], b[1..]))))
  }

  /** At `i` the two differ for the first time, and `a` is less there. */
  predicate LessAt(a: Bytes, b: Bytes, i: nat) {
    i < |a| && i < |b| && a[..i] == b[..i] && a[i] < b[i]
  }

  lemma {:induction false} LessAtDecides(a: Bytes, b: Bytes, i: nat)
    requires LessAt(a, b, i)
    ensures BytesLe(a, b) && !BytesLe(b, a)
  {
    if i > 0 {
      assert a[0] == a[..i][0] == b[..i][0] == b[0];
      assert a[1..][..i - 1] == a[..i][1..] == b[..i][1..] == b[1..][..i - 1];
      LessAtDecides(a[1..], b[1..], i - 1);
    }
  }

  lemma {:induction false} SameFront(front: Bytes, a: Bytes, b: Bytes)
    ensures BytesLe(front + a, front + b) <==> BytesLe(a, b)
  {
    if front == [] {
      assert front + a == a && front + b == b;
    } else {
      assert (front + a)[1..] == front[1..] + a && (front + b)[1..] == front[1..] + b;
      SameFront(front[1..], a, b);
    }
  }

  /** UTF-8 keeps the order of the characters. */
  lemma CharsKeepOrder(c: char, d: char) returns (i: nat)
    requires c < d
    ensures LessAt(EncodeChar(c), EncodeChar(d), i)
  {
    var m, n := c as int, d as int;
    var a, b := EncodeChar(c), EncodeChar(d);
    i := 0;
    if |a| == |b| == 2 { i := if m / 0x40 < n / 0x40 then 0 else 1; }
    else if |a| == |b| == 3 { i := ThreeBytesDiffer(c, d); }
    else if |a| == |b| == 4 { i := FourBytesDiffer(c, d); }
    assert i < |a| && i < |b|;
    assert forall j | 0 <= j < i :: a[j] == b[j];
  }

  lemma ThreeBytesDiffer(c: char, d: char) returns (i: nat)
    requires 0x800 <= c as int < d as int < 0x10000
    ensures LessAt(EncodeChar(c), EncodeChar(d), i)
  {
    var m, n, a, b := c as int, d as int, EncodeChar(c), EncodeChar(d);
    ThreeByteDigits(m);
    ThreeByteDigits(n);
    i := if m / 0x1000 < n / 0x1000 then 0 else if m / 0x40 % 0x40 < n / 0x40 % 0x40 then 1 else 2;
    assert forall j | 0 <= j < i :: a[j] == b[j];
  }

  lemma FourBytesDiffer(c: char, d: char) returns (i: nat)
    requires 0x10000 <= c as int < d as int
    ensures LessAt(EncodeChar(c), EncodeChar(d), i)
  {
    var m, n, a, b := c as int, d as int, EncodeChar(c), EncodeChar(d);
    FourByteDigits(m);
    FourByteDigits(n);
    i := if m / 0x40000 < n / 0x40000 then 0 else if m / 0x1000 % 0x40 < n / 0x1000 % 0x40 then 1
         else if m / 0x40 % 0x40 < n / 0x40 % 0x40 then 2 else 3;
    assert forall j | 0 <= j < i :: a[j] == b[j];
  }

  lemma FirstCharDecides(c: char, d: char, a: Bytes, b: Bytes)
    requires c < d
    ensures var x, y := EncodeChar(c) + a, EncodeChar(d) + b; BytesLe(x, y) && !BytesLe(y, x)
  {
    var i := CharsKeepOrder(c, d);
    var x, y := EncodeChar(c) + a, EncodeChar(d) + b;
    assert x[..i] == EncodeChar(c)[..i] && y[..i] == EncodeChar(d)[..i];
    LessAtDecides(x, y, i);
  }

  /** A byte below 0x80 occurs only where its own character occurs. */
  lemma {:induction false} AsciiByteIsChar(s: string, x: Byte)
    requires x < 0x80 && x in Encode(s)
    ensures x as char in s
  {
    if x in EncodeChar(s[0]) {
      assert x as char == s[0];
    } else {
      AsciiByteIsChar(s[1..], x);
    }
  }
}
