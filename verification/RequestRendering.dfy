/**
 Rendering a request with a correct Content-Length, and what `readRequest` of
 Examples/Req.lean makes of it.
 */
module RequestRendering {
  import opened Common
  import opened RequestText
  import opened RequestReader

  predicate Without(s: string, c: char) {
    forall i | 0 <= i < |s| :: s[i] != c
  }

  /** One line: not empty, without CR or LF. */
  predicate IsLine(s: string) {
    s != "" && Without(s, '\r') && Without(s, '\n')
  }

  function JoinLines(lines: seq<string>): string
    requires lines != []
  {
    if |lines| == 1 then lines[0] else lines[0] + CRLF + JoinLines(lines[1..])
  }

  const VERSION := "HTTP/1.1"

  function RequestLine(verb: string, path: string): string {
    verb + " " + (path + " " + VERSION)
  }

  function LengthLine(n: nat): string {
    "Content-Length: " + Decimal(n)
  }

  function HeadLines(verb: string, path: string, fields: seq<string>, n: nat): seq<string> {
    [RequestLine(verb, path)] + fields + [LengthLine(n)]
  }

  function Rendered(verb: string, path: string, fields: seq<string>, body: string): string {
    JoinLines(HeadLines(verb, path, fields, |body|)) + BLANK_LINE + body
  }

  /** What RFC 9110 allows a method, and a target without spaces, to contain. */
  predicate IsVerb(s: string) {
    Without(s, ' ') && Without(s, ':') && Without(s, '\r') && Without(s, '\n')
  }

  predicate IsPath(s: string) {
    Without(s, ' ') && Without(s, '\r') && Without(s, '\n')
  }

  /** A field line that does not itself give a length. */
  predicate IsOtherField(s: string) {
    IsLine(s) && LengthOf(s) == None
  }

  // ── Finding separators ──

  lemma FindBehind(a: string, b: string, sep: string)
    requires sep != "" && Without(a, sep[0]) && StartsAt(b, 0, sep)
    ensures Find(a + b, sep) == |a|
  {
    var s := a + b;
    assert s[|a|..|a| + |sep|] == b[0..|sep|];
    forall i: nat | i < |a| ensures !StartsAt(s, i, sep) {
      NoStart(s, i, sep);
    }
    FindIs(s, sep, |a|);
  }

  lemma FindNone(s: string, sep: string)
    requires sep != "" && Without(s, sep[0])
    ensures Find(s, sep) == |s|
  {
    forall i: nat ensures !StartsAt(s, i, sep) {
      NoStart(s, i, sep);
    }
  }

  lemma NoStart(s: string, i: nat, sep: string)
    requires sep != "" && (i < |s| ==> s[i] != sep[0])
    ensures !StartsAt(s, i, sep)
  {
    if i + |sep| <= |s| {
      assert s[i..i + |sep|][0] == s[i];
    }
  }

  lemma SplitBehind(a: string, sep: string, rest: string)
    requires sep != "" && Without(a, sep[0])
    ensures SplitOn(a + sep + rest, sep) == [a] + SplitOn(rest, sep)
  {
    assert (sep + rest)[0..|sep|] == sep;
    FindBehind(a, sep + rest, sep);
    assert a + (sep + rest) == a + sep + rest;
    assert (a + sep + rest)[..|a|] == a && (a + sep + rest)[|a| + |sep|..] == rest;
  }

  lemma {:induction false} SplitJoined(lines: seq<string>)
    requires lines != [] && forall l | l in lines :: IsLine(l)
    ensures SplitOn(JoinLines(lines), CRLF) == lines
  {
    assert IsLine(lines[0]);
    if |lines| == 1 {
      FindNone(lines[0], CRLF);
    } else {
      SplitJoined(lines[1..]);
      SplitBehind(lines[0], CRLF, JoinLines(lines[1..]));
      assert lines == [lines[0]] + lines[1..];
    }
  }

  /** No blank line before the end of the head. */
  lemma {:induction false} FindBlank(lines: seq<string>, rest: string)
    requires lines != [] && forall l | l in lines :: IsLine(l)
    ensures Find(JoinLines(lines) + BLANK_LINE + rest, BLANK_LINE) == |JoinLines(lines)|
  {
    assert IsLine(lines[0]);
    var after := BLANK_LINE + rest;
    assert after[0..4] == BLANK_LINE;
    if |lines| == 1 {
      FindBehind(lines[0], after, BLANK_LINE);
      assert lines[0] + after == lines[0] + BLANK_LINE + rest;
    } else {
      FindBlank(lines[1..], rest);
      assert IsLine(lines[1]);
      var tail := JoinLines(lines[1..]) + BLANK_LINE + rest;
      assert tail[0] == lines[1][0];
      SkipLine(lines[0], tail);
      Regroup(lines[0] + CRLF, JoinLines(lines[1..]), BLANK_LINE, rest);
    }
  }

  lemma Regroup(a: string, b: string, c: string, d: string)
    ensures a + b + c + d == a + (b + c + d)
  {
  }

  lemma SkipLine(line: string, tail: string)
    requires Without(line, '\r') && tail != "" && tail[0] != '\r' && Find(tail, BLANK_LINE) < |tail|
    ensures Find(line + CRLF + tail, BLANK_LINE) == |line| + 2 + Find(tail, BLANK_LINE)
  {
    forall i: nat | i < |line + CRLF| ensures !StartsAt(line + CRLF + tail, i, BLANK_LINE) {
      NoBlankInLine(line, tail, i);
    }
    FindShift(line + CRLF, tail, BLANK_LINE);
  }

  lemma NoBlankInLine(line: string, tail: string, i: nat)
    requires Without(line, '\r') && tail != "" && tail[0] != '\r' && i < |line| + 2
    ensures !StartsAt(line + CRLF + tail, i, BLANK_LINE)
  {
    var s := line + CRLF + tail;
    assert s[|line|] == '\r' && s[|line| + 1] == '\n' && s[|line| + 2] == tail[0];
    if i == |line| {
      NoStartThirdChar(s, i);
    } else {
      assert i < |line| ==> s[i] == line[i];
      NoStart(s, i, BLANK_LINE);
    }
  }

  lemma NoStartThirdChar(s: string, i: nat)
    requires i + 2 < |s| && s[i + 2] != '\r'
    ensures !StartsAt(s, i, BLANK_LINE)
  {
    if i + 4 <= |s| {
      assert s[i..i + 4][2] == s[i + 2];
    }
  }

  lemma FindShift(a: string, tail: string, sep: string)
    requires sep != "" && Find(tail, sep) < |tail|
    requires forall i: nat | i < |a| :: !StartsAt(a + tail, i, sep)
    ensures Find(a + tail, sep) == |a| + Find(tail, sep)
  {
    var s, k := a + tail, Find(tail, sep);
    FindIsFirst(tail, sep);
    forall i: nat | i <= k ensures StartsAt(s, |a| + i, sep) <==> StartsAt(tail, i, sep) {
      StartsShift(a, tail, i, sep);
    }
    forall i: nat | i < |a| + k ensures !StartsAt(s, i, sep) {
      if i >= |a| {
        assert StartsAt(s, |a| + (i - |a|), sep) <==> StartsAt(tail, i - |a|, sep);
      }
    }
    FindIs(s, sep, |a| + k);
  }

  lemma StartsShift(a: string, tail: string, i: nat, sep: string)
    ensures StartsAt(a + tail, |a| + i, sep) <==> StartsAt(tail, i, sep)
  {
    if i + |sep| <= |tail| {
      assert (a + tail)[|a| + i..|a| + i + |sep|] == tail[i..i + |sep|];
    }
  }

  // ── Reading the parts of a head ──

  lemma SplitThree(a: string, b: string, c: string)
    requires Without(a, ' ') && Without(b, ' ') && Without(c, ' ')
    ensures SplitOn(a + " " + (b + " " + c), " ") == [a, b, c]
  {
    SplitBehind(a, " ", b + " " + c);
    SplitBehind(b, " ", c);
    FindNone(c, " ");
    assert SplitOn(c, " ") == [c];
  }

  /** A request line is not taken for a Content-Length: a colon follows no method. */
  lemma RequestLineHasNoLength(verb: string, path: string)
    requires IsVerb(verb)
    ensures LengthOf(RequestLine(verb, path)) == None
  {
    var low := ToLower(RequestLine(verb, path));
    var i := if |verb| < 14 then |verb| else 14;
    assert low[i] == Lower(RequestLine(verb, path)[i]) != LENGTH_NAME[i];
    NotNamed(low, i);
  }

  lemma NotNamed(low: string, i: nat)
    requires i < |low| && i < |LENGTH_NAME| && low[i] != LENGTH_NAME[i]
    ensures !StartsAt(low, 0, LENGTH_NAME)
  {
    if |LENGTH_NAME| <= |low| {
      assert low[0..|LENGTH_NAME|][i] == low[i];
    }
  }

  lemma LengthLineIsNamed(d: string)
    ensures StartsAt(ToLower("Content-Length: " + d), 0, LENGTH_NAME)
  {
    var low := ToLower("Content-Length: " + d);
    assert low[0..15] == LENGTH_NAME;
  }

  lemma ColonIsFound(d: string)
    ensures Find("Content-Length: " + d, ":") == 14
  {
    var name := "Content-Length";
    assert "Content-Length: " + d == name + (": " + d);
    assert (": " + d)[0..1] == ":";
    FindBehind(name, ": " + d, ":");
  }

  lemma BehindColon(d: string)
    ensures From("Content-Length: " + d, 15) == " " + d
  {
  }

  lemma LengthLineIsRead(n: nat)
    ensures LengthOf(LengthLine(n)) == Some(n)
  {
    var d := Decimal(n);
    LengthLineIsNamed(d);
    ColonIsFound(d);
    BehindColon(d);
    TrimmedField(d);
    ToNatInvertsDecimal(n);
  }

  lemma {:induction false} FirstLengthIs(fields: seq<string>, line: string, n: nat)
    requires forall f | f in fields :: LengthOf(f) == None
    requires LengthOf(line) == Some(n)
    ensures FirstLength(fields + [line]) == n
  {
    if fields != [] {
      FirstLengthIs(fields[1..], line, n);
      assert (fields + [line])[1..] == fields[1..] + [line];
    }
  }

  /** Reading inverts rendering, whatever the chunking and whatever follows or goes wrong
      behind the body. */
  lemma RenderedIsParsed(verb: string, path: string, fields: seq<string>, body: string, more: string, lost: bool)
    requires IsVerb(verb) && IsPath(path) && forall f | f in fields :: IsOtherField(f)
    ensures Parsed(Stream(Rendered(verb, path, fields, body) + more, lost)) == Request(verb, path, body)
  {
    var head := JoinLines(HeadLines(verb, path, fields, |body|));
    HeadIsRead(verb, path, fields, |body|);
    HeadIsFound(verb, path, fields, body);
    ParsedBehind(head, body, more, lost);
  }

  lemma ParsedBehind(head: string, body: string, more: string, lost: bool)
    requires Find(head + BLANK_LINE + body, BLANK_LINE) == |head| && HeadOf(head).length == |body|
    ensures Parsed(Stream(head + BLANK_LINE + body + more, lost)) == Request(HeadOf(head).verb, HeadOf(head).path, body)
  {
    var text := head + BLANK_LINE + body + more;
    FindInPrefix(head + BLANK_LINE + body, more, BLANK_LINE);
    Slices(head, BLANK_LINE, body, more);
    ParsedFrom(text, |head|, lost);
    BodyIsFirst(HeadOf(head), body, more, lost);
  }

  lemma Slices(a: string, b: string, c: string, d: string)
    ensures (a + b + c + d)[..|a|] == a && (a + b + c + d)[|a| + |b|..] == c + d
  {
  }

  lemma ParsedFrom(text: string, k: nat, lost: bool)
    requires k < |text| && Find(text, BLANK_LINE) == k
    ensures Parsed(Stream(text, lost)) == ParsedBody(HeadOf(text[..k]), text[k + |BLANK_LINE|..], lost)
  {
  }

  lemma BodyIsFirst(h: Head, body: string, more: string, lost: bool)
    requires h.length == |body|
    ensures ParsedBody(h, body + more, lost) == Request(h.verb, h.path, body)
  {
    assert (body + more)[..|body|] == body;
  }

  lemma HeadIsLines(verb: string, path: string, fields: seq<string>, n: nat)
    requires IsVerb(verb) && IsPath(path) && forall f | f in fields :: IsOtherField(f)
    ensures forall l | l in HeadLines(verb, path, fields, n) :: IsLine(l)
  {
    LengthLineIsLine(n);
  }

  lemma LengthLineIsLine(n: nat)
    ensures IsLine(LengthLine(n))
  {
    var line := LengthLine(n);
    assert forall i | 16 <= i < |line| :: line[i] == Decimal(n)[i - 16];
  }

  lemma HeadIsFound(verb: string, path: string, fields: seq<string>, body: string)
    requires IsVerb(verb) && IsPath(path) && forall f | f in fields :: IsOtherField(f)
    ensures var head := JoinLines(HeadLines(verb, path, fields, |body|));
            Find(head + BLANK_LINE + body, BLANK_LINE) == |head|
  {
    HeadIsLines(verb, path, fields, |body|);
    FindBlank(HeadLines(verb, path, fields, |body|), body);
  }

  lemma HeadIsRead(verb: string, path: string, fields: seq<string>, n: nat)
    requires IsVerb(verb) && IsPath(path) && forall f | f in fields :: IsOtherField(f)
    ensures HeadOf(JoinLines(HeadLines(verb, path, fields, n))) == Head(verb, path, n)
  {
    HeadIsLines(verb, path, fields, n);
    SplitJoined(HeadLines(verb, path, fields, n));
    SplitThree(verb, path, VERSION);
    RequestLineHasNoLength(verb, path);
    LengthLineIsRead(n);
    FirstLengthIs([RequestLine(verb, path)] + fields, LengthLine(n), n);
  }

  method RoundTrip(verb: string, path: string, fields: seq<string>, body: string, more: string, script: seq<Event>)
    returns (r: Request)
    requires IsVerb(verb) && IsPath(path) && forall f | f in fields :: IsOtherField(f)
    requires Flat(script).text == Rendered(verb, path, fields, body) + more
    ensures r == Request(verb, path, body)
  {
    var conn := new Connection(script);
    r := ReadRequest(conn);
    RenderedIsParsed(verb, path, fields, body, more, Flat(script).lost);
  }

  /** Two connections that deliver the same bytes are read alike. */
  method ChunkingIsInvisible(a: seq<Event>, b: seq<Event>) returns (ra: Request, rb: Request)
    requires Flat(a) == Flat(b)
    ensures ra == rb == Parsed(Flat(a))
  {
    var ca := new Connection(a);
    var cb := new Connection(b);
    ra := ReadRequest(ca);
    rb := ReadRequest(cb);
  }
}
