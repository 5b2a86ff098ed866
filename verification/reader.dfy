/** Call's reading half: a limited reader under a buffered one, the CONNECT ack and
    the response line. How the peer's bytes are split into reads does not show. */
module Reader {
  import opened Utf8

  const MAX_RESPONSE_BYTES: nat := 0x1000000  // 16 << 20
  const BUFFER_SIZE: nat := 0x10000           // 64 << 10
  const NEWLINE: Byte := 10

  /** A line through its newline, ErrResponseTooLarge, or another read error. */
  datatype Line = Line(text: Bytes) | TooLarge | ReadError

  /** What reading a line from `rest` yields: `full` when the limit was exhausted. */
  function LineSpec(rest: Bytes, full: bool): (Line, Bytes) {
    if NEWLINE in rest then
      var n := IndexOf(rest) + 1;
      (Line(rest[..n]), rest[n..])
    else (if full then TooLarge else ReadError, [])
  }

  /** The first newline's index. */
  function IndexOf(b: Bytes): (i: nat)
    requires NEWLINE in b
    ensures i < |b| && b[i] == NEWLINE && NEWLINE !in b[..i]
  {
    if b[0] == NEWLINE then 0 else
      var i := 1 + IndexOf(b[1..]);
      assert b[..i] == [b[0]] + b[1..][..i - 1];
      i
  }

  lemma IndexOfPrefix(b: Bytes, more: Bytes)
    requires NEWLINE in b
    ensures NEWLINE in b + more && IndexOf(b + more) == IndexOf(b)
  {
    var i, j := IndexOf(b), IndexOf(b + more);
    assert (b + more)[i] == NEWLINE;
    assert forall x | 0 <= x < i :: (b + more)[x] == b[x] && b[x] in b[..i];
    assert forall x | 0 <= x < j :: (b + more)[x] in (b + more)[..j];
  }

  class LineReader {
    var stream: Bytes    // bytes the peer has still to deliver before it closes
    var left: int        // the limited reader's remaining allowance
    var buffered: Bytes  // read, not yet returned

    constructor (peer: Bytes)
      ensures stream == peer && left == MAX_RESPONSE_BYTES + 1 && buffered == []
      ensures Rest() == Visible(peer)
      ensures Full() <==> |peer| > MAX_RESPONSE_BYTES
    {
      stream, left, buffered := peer, MAX_RESPONSE_BYTES + 1, [];
      new;
      assert Rest() == Visible(peer);
    }

    /** Everything that can still be returned as lines. */
    ghost function Rest(): Bytes
      reads this
    {
      buffered + (if left <= 0 then [] else if |stream| <= left then stream else stream[..left])
    }

    /** Whether reading on would exhaust the allowance. */
    ghost predicate Full()
      reads this
    {
      left <= |stream|
    }

    /** LimitedReader.Read: at most the allowance, any non-zero amount the peer has ready. */
    method Read(room: nat) returns (chunk: Bytes, eof: bool)
      requires room > 0 && left >= 0
      modifies this`stream, this`left
      ensures chunk + stream == old(stream) && left == old(left) - |chunk| && left >= 0
      ensures eof <==> old(left) == 0 || old(stream) == []
      ensures eof <==> chunk == []
    {
      if left <= 0 || stream == [] {
        return [], true;
      }
      var most := if room < left then room else left;
      var n: nat :| 1 <= n <= most && n <= |stream|;
      chunk, eof := stream[..n], false;
      stream, left := stream[n..], left - n;
    }

    /** ReadString and ReadBytes with '\n', and the callers' error test. */
    method ReadLine() returns (line: Line)
      requires left >= 0
      modifies this
      ensures (line, Rest()) == LineSpec(old(Rest()), old(Full()))
      ensures Full() == old(Full()) && 0 <= left <= old(left)
      ensures |old(stream)| - |stream| == old(left) - left
    {
      while NEWLINE !in buffered
        invariant 0 <= left <= old(left) && Rest() == old(Rest()) && Full() == old(Full())
        invariant |old(stream)| - |stream| == old(left) - left
        decreases |stream|
      {
        var chunk, eof := Read(BUFFER_SIZE);
        if eof {
          assert Rest() == buffered;
          line := if left <= 0 then TooLarge else ReadError;
          buffered := [];
          assert Rest() == [];
          return;
        }
        buffered := buffered + chunk;
        assert Rest() == old(Rest());
      }
      line := TakeLine();
    }

    /** Cuts the first line off the buffer. */
    method TakeLine() returns (line: Line)
      requires left >= 0 && NEWLINE in buffered
      modifies this`buffered
      ensures (line, Rest()) == LineSpec(old(Rest()), Full())
    {
      var n := IndexOf(buffered) + 1;
      ghost var tail := Rest()[|buffered|..];
      assert Rest() == buffered + tail;
      IndexOfPrefix(buffered, tail);
      assert (buffered + tail)[..n] == buffered[..n] && (buffered + tail)[n..] == buffered[n..] + tail;
      line := Line(buffered[..n]);
      buffered := buffered[n..];
      assert Rest() == buffered + tail;
    }
  }

  /** The part of the peer's bytes the limit lets through. */
  function Visible(peer: Bytes): Bytes {
    if |peer| <= MAX_RESPONSE_BYTES + 1 then peer else peer[..MAX_RESPONSE_BYTES + 1]
  }

  // ----------------------------------------------------------- parseAck

  predicate IsDigitByte(b: Byte) { 48 <= b < 58 }

  function NumberOf(d: Bytes): nat
    requires forall i | 0 <= i < |d| :: IsDigitByte(d[i])
  {
    if d == [] then 0
    else
      assert IsDigitByte(d[|d| - 1]);
      NumberOf(d[..|d| - 1]) * 10 + (d[|d| - 1] as int - 48)
  }

  /** strconv.Atoi accepts: an optional sign, digits, in the range of int64. */
  predicate AtoiAccepts(s: Bytes) {
    var negative := s != [] && s[0] == 45;
    var digits := if s != [] && s[0] in {43, 45} then s[1..] else s;
    && digits != [] && (forall i | 0 <= i < |digits| :: IsDigitByte(digits[i]))
    && (if negative then NumberOf(digits) <= 0x8000_0000_0000_0000 else NumberOf(digits) < 0x8000_0000_0000_0000)
  }

  /** strings.TrimRight(line, "\r\n") */
  function TrimRight(b: Bytes): (t: Bytes)
    ensures t <= b && (forall x <- b[|t|..] :: x in {10, 13})
    ensures t != [] ==> t[|t| - 1] !in {10, 13}
  {
    if b != [] && b[|b| - 1] in {10, 13} then
      var t := TrimRight(b[..|b| - 1]);
      assert b[|t|..] == b[..|b| - 1][|t|..] + [b[|b| - 1]];
      t
    else b
  }

  datatype Ack = Accepted | Rejected | Malformed

  const OK: Bytes := [79, 75]
  const ERROR: Bytes := [69, 82, 82, 79, 82]

  /** The text before the first space, and whether there was one. */
  function FirstField(b: Bytes): (r: (Bytes, bool))
    ensures r.0 <= b && 32 !in r.0 && (r.1 ==> |r.0| < |b| && b[|r.0|] == 32) && (!r.1 ==> r.0 == b)
  {
    if b == [] then ([], false)
    else if b[0] == 32 then ([], true)
    else
      var r := FirstField(b[1..]);
      ([b[0]] + r.0, r.1)
  }

  function ParseAck(line: Bytes): Ack {
    var t := TrimRight(line);
    var field := FirstField(t);
    if t == [] then Malformed
    else if field.0 == OK then
      if field.1 && AtoiAccepts(t[3..]) then Accepted else Malformed
    else if field.0 == ERROR then Rejected
    else Malformed
  }

  /** The accepted acks are exactly "OK", a space, an int, and trailing CRs and LFs. */
  lemma AckGrammar(line: Bytes)
    ensures ParseAck(line) == Accepted <==>
              exists port: Bytes, end: Bytes :: AtoiAccepts(port) && (forall x <- end :: x in {10, 13})
                                                && line == OK + [32] + port + end
  {
    if ParseAck(line) == Accepted {
      var t := TrimRight(line);
      assert t == OK + [32] + t[3..];
      assert line == OK + [32] + t[3..] + line[|t|..];
    }
    if port: Bytes, end: Bytes :| AtoiAccepts(port) && (forall x <- end :: x in {10, 13}) && line == OK + [32] + port + end {
      AcceptedLine(port, end);
    }
  }

  lemma {:induction false} TrimEnd(body: Bytes, end: Bytes)
    requires (forall x <- end :: x in {10, 13}) && body != [] && body[|body| - 1] !in {10, 13}
    ensures TrimRight(body + end) == body
  {
    if end == [] {
      assert body + end == body;
    } else {
      var e := |end| - 1;
      assert (body + end)[..|body + end| - 1] == body + end[..e];
      assert end[e] in end;
      forall x | x in end[..e] ensures x in {10, 13} { assert x in end; }
      TrimEnd(body, end[..e]);
    }
  }

  lemma AcceptedLine(port: Bytes, end: Bytes)
    requires AtoiAccepts(port) && forall x <- end :: x in {10, 13}
    ensures ParseAck(OK + [32] + port + end) == Accepted
  {
    var body := OK + [32] + port;
    var digits := if port[0] in {43, 45} then port[1..] else port;
    assert body[|body| - 1] == digits[|digits| - 1] && IsDigitByte(digits[|digits| - 1]);
    TrimEnd(body, end);
    assert body[3..] == port;
    OkField(port);
  }

  lemma OkField(port: Bytes)
    ensures FirstField(OK + [32] + port) == (OK, true)
  {
    var body := OK + [32] + port;
    var b1 := body[1..];
    var b2 := b1[1..];
    assert body[0] == 79 && b1[0] == 75 && b2[0] == 32;
    assert FirstField(b2) == ([], true);
    assert FirstField(b1) == ([75] + [], true);
    assert FirstField(body) == ([79] + ([75] + []), true);
    assert [79] + ([75] + []) == OK;
  }

  // ------------------------------------------------------ Call's two reads

  datatype CallResult = Response(line: Bytes) | ResponseTooLarge | Failed

  /** The response read, from what is left after the ack. */
  function ResponseSpec(rest: Bytes, full: bool): CallResult {
    match LineSpec(rest, full).0
    case Line(response) => Response(response)
    case TooLarge => ResponseTooLarge
    case ReadError => Failed
  }

  /** The outcome as a function of the peer's bytes alone. */
  function CallSpec(peer: Bytes): CallResult {
    var (ack, rest) := LineSpec(Visible(peer), |peer| > MAX_RESPONSE_BYTES);
    match ack
    case TooLarge => ResponseTooLarge
    case ReadError => Failed
    case Line(text) =>
      if ParseAck(text) == Accepted then ResponseSpec(rest, |peer| > MAX_RESPONSE_BYTES) else Failed
  }

  /** The ack and response reads of Call, however the peer's bytes arrive. */
  method ReadExchange(peer: Bytes) returns (r: CallResult, taken: nat)
    ensures r == CallSpec(peer)
    ensures forall line :: r == Response(line) <==> Answered(peer, line)
    ensures r == ResponseTooLarge <==> CutOff(peer)
    ensures taken <= MAX_RESPONSE_BYTES + 1 && taken <= |peer|
  {
    CallIsDecided(peer);
    var reader := new LineReader(peer);
    var ack := reader.ReadLine();
    r := if ack.TooLarge? then ResponseTooLarge else Failed;
    if ack.Line? && ParseAck(ack.text) == Accepted {
      r := ReadResponse(reader);
    }
    taken := |peer| - |reader.stream|;
  }

  method ReadResponse(reader: LineReader) returns (r: CallResult)
    requires reader.left >= 0
    modifies reader
    ensures r == ResponseSpec(old(reader.Rest()), old(reader.Full())) && 0 <= reader.left <= old(reader.left)
    ensures |old(reader.stream)| - |reader.stream| == old(reader.left) - reader.left
  {
    var line := reader.ReadLine();
    r := match line case Line(text) => Response(text) case TooLarge => ResponseTooLarge case ReadError => Failed;
  }

  // ----------------------------------------- what the peer's bytes decide

  /** An ack without its newline: "OK", a space, an int, and CRs. */
  ghost predicate IsAck(ack: Bytes) {
    exists port: Bytes, end: Bytes :: AtoiAccepts(port) && (forall x <- end :: x == 13) && ack == OK + [32] + port + end
  }

  ghost predicate IsLine(line: Bytes) {
    line != [] && line[|line| - 1] == NEWLINE && NEWLINE !in line[..|line| - 1]
  }

  /** An ack in front of everything else the peer sends, within the first bytes that the
      limit lets through. */
  ghost predicate Acked(peer: Bytes, ack: Bytes) {
    NEWLINE !in ack && IsAck(ack) && ack + [NEWLINE] <= peer && |ack| + 1 <= MAX_RESPONSE_BYTES + 1
  }

  /** The peer accepts the connection and then sends `line` within the limit. */
  ghost predicate Answered(peer: Bytes, line: Bytes) {
    exists ack: Bytes ::
      Acked(peer, ack) && IsLine(line) && ack + [NEWLINE] + line <= peer && |ack| + 1 + |line| <= MAX_RESPONSE_BYTES + 1
  }

  /** The limit is reached before the end of the line that is being read. */
  ghost predicate CutOff(peer: Bytes) {
    && |peer| > MAX_RESPONSE_BYTES
    && (NEWLINE !in peer[..MAX_RESPONSE_BYTES + 1] ||
        exists ack: Bytes :: Acked(peer, ack) && NEWLINE !in peer[|ack| + 1..MAX_RESPONSE_BYTES + 1])
  }

  /** The grammar of accepted lines, before the newline. */
  lemma IsAckIff(ack: Bytes)
    requires NEWLINE !in ack
    ensures IsAck(ack) <==> ParseAck(ack + [NEWLINE]) == Accepted
  {
    AckGrammar(ack + [NEWLINE]);
    if port: Bytes, end: Bytes :| AtoiAccepts(port) && (forall x <- end :: x == 13) && ack == OK + [32] + port + end {
      assert ack + [NEWLINE] == OK + [32] + port + (end + [NEWLINE]);
    }
    if port: Bytes, end: Bytes :| AtoiAccepts(port) && (forall x <- end :: x in {10, 13}) &&
                                  ack + [NEWLINE] == OK + [32] + port + end {
      CutNewline(ack, port, end);
    }
  }

  lemma CutNewline(ack: Bytes, port: Bytes, end: Bytes)
    requires NEWLINE !in ack && AtoiAccepts(port) && (forall x <- end :: x in {10, 13})
    requires ack + [NEWLINE] == OK + [32] + port + end
    ensures IsAck(ack)
  {
    var line := OK + [32] + port;
    LastOfPort(port);
    assert (ack + [NEWLINE])[|ack|] == NEWLINE;
    assert line[|line| - 1] == port[|port| - 1];
    assert end == [] ==> line + end == line;
    var cut := end[..|end| - 1];
    assert end == cut + [end[|end| - 1]];
    assert ack == (ack + [NEWLINE])[..|ack|] == line + cut;
    forall x | x in cut ensures x == 13 { assert x in end && x in ack; }
  }

  lemma LastOfPort(port: Bytes)
    requires AtoiAccepts(port)
    ensures port != [] && IsDigitByte(port[|port| - 1])
  {
    var digits := if port[0] in {43, 45} then port[1..] else port;
    assert port[|port| - 1] == digits[|digits| - 1];
  }

  /** Only one text is in front of the first newline. */
  lemma OnlyFirstLine(b: Bytes, text: Bytes)
    requires NEWLINE !in text && text + [NEWLINE] <= b
    ensures NEWLINE in b && IndexOf(b) == |text| && b[..|text|] == text
  {
    assert b[|text|] == NEWLINE;
    assert forall i | 0 <= i < |text| :: b[i] == text[i] && text[i] in text;
    forall i | 0 <= i < IndexOf(b) ensures b[i] != NEWLINE { assert b[i] in b[..IndexOf(b)]; }
  }

  lemma PrefixOfVisible(peer: Bytes, text: Bytes)
    ensures text <= Visible(peer) <==> text <= peer && |text| <= MAX_RESPONSE_BYTES + 1
  {
  }

  /** Every peer: a response is returned if and only if it follows an accepted ack within
      the limit, the limit is reported if and only if it cuts a line off, and all else,
      a rejected or malformed ack and a stream that ends too early, fails. */
  lemma CallIsDecided(peer: Bytes)
    ensures forall line :: CallSpec(peer) == Response(line) <==> Answered(peer, line)
    ensures CallSpec(peer) == ResponseTooLarge <==> CutOff(peer)
  {
    var vis := Visible(peer);
    if NEWLINE in vis {
      RoomDecides(peer, IndexOf(vis));
      forall line: Bytes ensures CallSpec(peer) == Response(line) <==> Answered(peer, line) {
        AckDecides(peer, IndexOf(vis), line);
      }
    } else {
      forall ack: Bytes | NEWLINE !in ack ensures !Acked(peer, ack) {
        PrefixOfVisible(peer, ack + [NEWLINE]);
        if ack + [NEWLINE] <= vis { OnlyFirstLine(vis, ack); }
      }
    }
  }

  lemma AckDecides(peer: Bytes, n: nat, line: Bytes)
    requires NEWLINE in Visible(peer) && n == IndexOf(Visible(peer))
    ensures CallSpec(peer) == Response(line) <==> Answered(peer, line)
  {
    var ack, rest := Visible(peer)[..n], Visible(peer)[n + 1..];
    OnlyAck(peer, n);
    if IsAck(ack) { ResponseDecides(peer, ack, rest, line); }
  }

  lemma RoomDecides(peer: Bytes, n: nat)
    requires NEWLINE in Visible(peer) && n == IndexOf(Visible(peer))
    ensures CallSpec(peer) == ResponseTooLarge <==> CutOff(peer)
  {
    var ack, rest := Visible(peer)[..n], Visible(peer)[n + 1..];
    OnlyAck(peer, n);
    NoRoom(rest, |peer| > MAX_RESPONSE_BYTES);
    if |peer| > MAX_RESPONSE_BYTES {
      RestOfVisible(peer, n);
      CutAfterAck(peer, ack, rest);
    }
  }

  lemma NoRoom(rest: Bytes, full: bool)
    ensures ResponseSpec(rest, full) == ResponseTooLarge <==> full && NEWLINE !in rest
  {
  }

  lemma CutAfterAck(peer: Bytes, ack: Bytes, rest: Bytes)
    requires |peer| > MAX_RESPONSE_BYTES && NEWLINE in peer[..MAX_RESPONSE_BYTES + 1] && |ack| <= MAX_RESPONSE_BYTES
    requires (forall other: Bytes :: Acked(peer, other) ==> other == ack)
    requires rest == peer[|ack| + 1..MAX_RESPONSE_BYTES + 1]
    ensures CutOff(peer) <==> Acked(peer, ack) && NEWLINE !in rest
  {
  }

  lemma RestOfVisible(peer: Bytes, n: nat)
    requires |peer| > MAX_RESPONSE_BYTES && n < |Visible(peer)|
    ensures Visible(peer) == peer[..MAX_RESPONSE_BYTES + 1]
    ensures Visible(peer)[n + 1..] == peer[n + 1..MAX_RESPONSE_BYTES + 1]
  {
  }

  /** The first line of what is visible is the only candidate for the ack, and Call takes
      it for one exactly if it is one. */
  lemma OnlyAck(peer: Bytes, n: nat)
    requires NEWLINE in Visible(peer) && n == IndexOf(Visible(peer))
    ensures var vis := Visible(peer);
            var ack, rest := vis[..n], vis[n + 1..];
            && vis == ack + [NEWLINE] + rest && (Acked(peer, ack) <==> IsAck(ack))
            && (forall other: Bytes :: Acked(peer, other) ==> other == ack)
            && CallSpec(peer) == if IsAck(ack) then ResponseSpec(rest, |peer| > MAX_RESPONSE_BYTES) else Failed
  {
    var vis := Visible(peer);
    var ack, rest := vis[..n], vis[n + 1..];
    assert vis[..n + 1] == ack + [NEWLINE] && vis == ack + [NEWLINE] + rest;
    IsAckIff(ack);
    PrefixOfVisible(peer, ack + [NEWLINE]);
    forall other: Bytes ensures Acked(peer, other) ==> other == ack {
      PrefixOfVisible(peer, other + [NEWLINE]);
      if Acked(peer, other) { OnlyFirstLine(vis, other); }
    }
  }

  lemma ResponseDecides(peer: Bytes, ack: Bytes, rest: Bytes, line: Bytes)
    requires Visible(peer) == ack + [NEWLINE] + rest && Acked(peer, ack)
    requires forall other: Bytes :: Acked(peer, other) ==> other == ack
    ensures ResponseSpec(rest, |peer| > MAX_RESPONSE_BYTES) == Response(line) <==> Answered(peer, line)
  {
    PrefixOfVisible(peer, ack + [NEWLINE] + line);
    LinePrefix(rest, line);
    assert ack + [NEWLINE] + line <= Visible(peer) <==> line <= rest by {
      if line <= rest { assert rest == line + rest[|line|..]; }
      if ack + [NEWLINE] + line <= Visible(peer) { assert line == Visible(peer)[|ack| + 1..][..|line|]; }
    }
  }

  /** Reading a line off `rest` yields exactly the line it begins with. */
  lemma LinePrefix(rest: Bytes, line: Bytes)
    ensures NEWLINE in rest && line == rest[..IndexOf(rest) + 1] <==> IsLine(line) && line <= rest
  {
    if IsLine(line) && line <= rest {
      assert line == line[..|line| - 1] + [NEWLINE];
      OnlyFirstLine(rest, line[..|line| - 1]);
    }
    if NEWLINE in rest {
      var n := IndexOf(rest);
      assert rest[..n + 1][..n] == rest[..n];
    }
  }

  lemma FirstNewline(text: Bytes)
    requires NEWLINE !in text
    ensures IndexOf(text + [NEWLINE]) == |text|
  {
    var b := text + [NEWLINE];
    assert b[|text|] == NEWLINE;
    assert forall x | 0 <= x < |text| :: b[x] == text[x] && text[x] in text;
  }

  /** Reading the line `text` off a stream that starts with it. */
  lemma LineThenRest(text: Bytes, rest: Bytes, full: bool)
    requires NEWLINE !in text
    ensures LineSpec(text + [NEWLINE] + rest, full) == (Line(text + [NEWLINE]), rest)
  {
    FirstNewline(text);
    IndexOfPrefix(text + [NEWLINE], rest);
  }

  lemma NoLine(rest: Bytes, text: Bytes, full: bool)
    requires NEWLINE !in text && rest <= text
    ensures LineSpec(rest, full) == (if full then TooLarge else ReadError, [])
  {
  }

  /** The second read, once the ack is off the stream. */
  lemma SecondLine(rest: Bytes, response: Bytes, more: Bytes, room: nat, full: bool)
    requires NEWLINE !in response
    requires var after := response + [NEWLINE] + more;
             rest == if |after| <= room then after else after[..room]
    ensures |response| + 1 <= room ==> LineSpec(rest, full).0 == Line(response + [NEWLINE])
    ensures |response| + 1 > room ==> LineSpec(rest, full).0 == if full then TooLarge else ReadError
  {
    if |response| + 1 <= room {
      assert rest == response + [NEWLINE] + rest[|response| + 1..];
      LineThenRest(response, rest[|response| + 1..], full);
    } else {
      assert rest <= response;
      NoLine(rest, response, full);
    }
  }

  /** A well-behaved peer's response is returned exactly when ack and response
      together fit in the limit; what follows the response does not matter. */
  lemma ResponseIsReturnedIff(ack: Bytes, response: Bytes, more: Bytes)
    requires NEWLINE !in ack && NEWLINE !in response && ParseAck(ack + [NEWLINE]) == Accepted
    ensures CallSpec(ack + [NEWLINE] + (response + [NEWLINE] + more))
         == if |ack| + |response| + 2 <= MAX_RESPONSE_BYTES + 1 then Response(response + [NEWLINE]) else ResponseTooLarge
  {
    var after := response + [NEWLINE] + more;
    var peer := ack + [NEWLINE] + after;
    var full := |peer| > MAX_RESPONSE_BYTES;
    if |ack| <= MAX_RESPONSE_BYTES {
      var room := MAX_RESPONSE_BYTES - |ack|;
      var rest := if |after| <= room then after else after[..room];
      VisibleAfterAck(ack, after);
      LineThenRest(ack, rest, full);
      SecondLine(rest, response, more, room, full);
    } else {
      assert Visible(peer) <= ack;
      NoLine(Visible(peer), ack, full);
    }
  }

  lemma VisibleAfterAck(ack: Bytes, after: Bytes)
    requires |ack| <= MAX_RESPONSE_BYTES
    ensures var room := MAX_RESPONSE_BYTES - |ack|;
            Visible(ack + [NEWLINE] + after) == ack + [NEWLINE] + (if |after| <= room then after else after[..room])
  {
  }
}
