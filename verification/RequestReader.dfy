/**
 `readRequest` of Examples/Req.lean: chunks are gathered up to the blank line that ends
 the head, and then up to Content-Length bytes of body. What it returns is a function of
 the bytes alone, and it inverts the rendering of a request.
 */
module RequestReader {
  import opened Common
  import opened RequestText

  type Chunk = s: string | s != "" witness " "

  /** One answer of `Blocking.recv`: some bytes, or an exception. A connection whose
      script has run out is at end of file, where `recv` returns no bytes. */
  datatype Event = Data(text: Chunk) | Fault

  /** The bytes a connection delivers before its end, or before its first error. */
  datatype Stream = Stream(text: string, lost: bool)

  function Flat(script: seq<Event>): Stream {
    if script == [] then Stream("", false)
    else match script[0]
      case Fault => Stream("", true)
      case Data(t) => var rest := Flat(script[1..]); Stream(t + rest.text, rest.lost)
  }

  class Connection {
    var script: seq<Event>

    constructor (script: seq<Event>)
      ensures this.script == script
    {
      this.script := script;
    }

    /** The next chunk; no bytes at the end of the stream; `None` for an exception. */
    method Recv() returns (r: Option<string>)
      modifies this
      ensures r == None <==> old(Flat(script)) == Stream("", true)
      ensures r == Some("") <==> old(Flat(script)) == Stream("", false)
      ensures r.Some? ==> |script| < |old(script)| || r.value == ""
      ensures r.Some? ==> old(Flat(script)) == Stream(r.value + Flat(script).text, Flat(script).lost)
    {
      if script == [] {
        return Some("");
      }
      match script[0] {
        case Fault => r := None;
        case Data(t) => r := Some(t);
      }
      script := script[1..];
    }
  }

  // ── The head ──

  const LENGTH_NAME := "content-length:"

  /** A Content-Length line with a number in it. */
  function LengthOf(line: string): Option<nat> {
    if StartsAt(ToLower(line), 0, LENGTH_NAME)
    then ToNat(Trim(From(line, Find(line, ":") + 1)))
    else None
  }

  function FirstLength(lines: seq<string>): nat {
    if lines == [] then 0
    else match LengthOf(lines[0])
      case Some(n) => n
      case None => FirstLength(lines[1..])
  }

  /** `(full.splitOn blank).getD 0 ""`: the text before the first blank line, or all of it. */
  function HeaderPart(buf: string): (r: string)
    ensures r == buf[..Find(buf, BLANK_LINE)]
  {
    GetD(SplitOn(buf, BLANK_LINE), 0, "")
  }

  datatype Head = Head(verb: string, path: string, length: nat)

  function HeadOf(text: string): Head {
    var lines := SplitOn(text, CRLF);
    var words := SplitOn(GetD(lines, 0, ""), " ");
    Head(GetD(words, 0, "GET"), GetD(words, 1, "/"), FirstLength(lines))
  }

  // ── What is read, as a function of the stream ──

  datatype Request = Request(verb: string, path: string, body: string) | Raised

  function Parsed(s: Stream): Request {
    var k := Find(s.text, BLANK_LINE);
    if k == |s.text| then
      var h := HeadOf(s.text);
      if s.lost then Raised else Request(h.verb, h.path, "")
    else
      ParsedBody(HeadOf(s.text[..k]), s.text[k + |BLANK_LINE|..], s.lost)
  }

  /** The first `length` bytes behind the head, or fewer only at the end of the stream. */
  function ParsedBody(h: Head, rest: string, lost: bool): Request {
    if h.length <= |rest| then Request(h.verb, h.path, rest[..h.length])
    else if lost then Raised
    else Request(h.verb, h.path, rest)
  }

  method ReadRequest(conn: Connection) returns (r: Request)
    modifies conn
    ensures r == Parsed(old(Flat(conn.script)))
  {
    ghost var s := Flat(conn.script);
    var ok, buf := GatherHead(conn);
    if !ok {
      return Raised;
    }
    var h, rest := ParseHead(buf);
    ghost var left := Flat(conn.script);
    var body;
    ok, body := GatherBody(conn, rest, h.length);
    ParsedIs(s, buf, left, h, ok, body, Flat(conn.script));
    if !ok {
      return Raised;
    }
    return Request(h.verb, h.path, body[..if h.length < |body| then h.length else |body|]);
  }

  /** The head that has been gathered, and what came in behind it. */
  method ParseHead(buf: string) returns (h: Head, rest: string)
    ensures h == HeadOf(buf[..Find(buf, BLANK_LINE)])
    ensures rest == From(buf, Find(buf, BLANK_LINE) + |BLANK_LINE|)
  {
    var headerPart := HeaderPart(buf);
    return HeadOf(headerPart), From(buf, |headerPart| + 4);
  }

  /** Gather chunks until a blank line is among them or the stream ends. */
  method GatherHead(conn: Connection) returns (ok: bool, buf: string)
    modifies conn
    ensures ok ==> Find(buf, BLANK_LINE) < |buf| || Flat(conn.script) == Stream("", false)
    ensures ok ==> old(Flat(conn.script)) == Before(buf, Flat(conn.script))
    ensures !ok ==> old(Flat(conn.script)) == Stream(buf, true) && Find(buf, BLANK_LINE) == |buf|
  {
    buf := "";
    var done := false;
    while !done
      invariant Before(buf, Flat(conn.script)) == old(Flat(conn.script))
      invariant done ==> Find(buf, BLANK_LINE) < |buf| || Flat(conn.script) == Stream("", false)
      invariant !done ==> Find(buf, BLANK_LINE) == |buf|
      decreases !done, |conn.script|
    {
      ghost var left := Flat(conn.script);
      var chunk := conn.Recv();
      if chunk == None {
        assert buf + "" == buf;
        return false, buf;
      }
      if chunk.value == "" {
        done := true;
      } else {
        BeforeChunk(buf, chunk.value, left, Flat(conn.script));
        buf := buf + chunk.value;
        if |SplitOn(buf, BLANK_LINE)| > 1 {
          done := true;
        }
      }
    }
    return true, buf;
  }

  /** Gather chunks until there are `n` bytes or the stream ends. */
  method GatherBody(conn: Connection, first: string, n: nat) returns (ok: bool, body: string)
    modifies conn
    ensures ok ==> Before(first, old(Flat(conn.script))) == Before(body, Flat(conn.script))
    ensures ok ==> |body| >= n || Flat(conn.script) == Stream("", false)
    ensures !ok ==> Before(first, old(Flat(conn.script))) == Stream(body, true) && |body| < n
  {
    body := first;
    var eof := false;
    while |body| < n && !eof
      invariant Before(first, old(Flat(conn.script))) == Before(body, Flat(conn.script))
      invariant eof ==> Flat(conn.script) == Stream("", false)
      decreases !eof, |conn.script|
    {
      ghost var left := Flat(conn.script);
      var chunk := conn.Recv();
      if chunk == None {
        assert body + "" == body;
        return false, body;
      }
      if chunk.value == "" {
        eof := true;
      } else {
        BeforeChunk(body, chunk.value, left, Flat(conn.script));
        body := body + chunk.value;
      }
    }
    return true, body;
  }

  /** A stream of which `text` has already been read. */
  function Before(text: string, s: Stream): Stream {
    s.(text := text + s.text)
  }

  lemma BeforeChunk(text: string, chunk: string, s: Stream, left: Stream)
    requires s == Before(chunk, left)
    ensures Before(text, s) == Before(text + chunk, left)
  {
    assert text + (chunk + left.text) == text + chunk + left.text;
  }

  lemma Cut(buf: string, more: string, k: nat, n: nat)
    requires k + n <= |buf|
    ensures (buf + more)[..k] == buf[..k] && (buf + more)[k + n..] == buf[k + n..] + more
  {
  }

  /** A stream of which `buf`, with the whole head, has been read. */
  lemma HeadIsIn(s: Stream, buf: string, left: Stream, k: nat)
    requires s == Before(buf, left) && k == Find(buf, BLANK_LINE) < |buf|
    ensures Find(s.text, BLANK_LINE) == k && k + 4 <= |buf|
    ensures s.text[..k] == buf[..k] && s.text[k + 4..] == buf[k + 4..] + left.text
  {
    FindInPrefix(buf, left.text, BLANK_LINE);
    Cut(buf, left.text, k, 4);
  }

  /** What the two gatherings come to is what the stream alone determines. */
  lemma ParsedIs(s: Stream, buf: string, left: Stream, h: Head, ok: bool, body: string, last: Stream)
    requires s == Before(buf, left)
    requires Find(buf, BLANK_LINE) < |buf| || left == Stream("", false)
    requires h == HeadOf(buf[..Find(buf, BLANK_LINE)])
    requires GatheredBody(Before(From(buf, Find(buf, BLANK_LINE) + 4), left), h.length, ok, body, last)
    ensures Parsed(s) == Answer(h, ok, body)
  {
    var k := Find(buf, BLANK_LINE);
    if k < |buf| {
      ParsedWithHead(s, buf, left, h, ok, body, last);
    } else {
      assert buf + "" == buf == buf[..k];
      assert Before("", left) == left;
      NoBody(s, h, ok, body, last);
    }
  }

  lemma ParsedWithHead(s: Stream, buf: string, left: Stream, h: Head, ok: bool, body: string, last: Stream)
    requires s == Before(buf, left) && Find(buf, BLANK_LINE) + 4 <= |buf|
    requires h == HeadOf(buf[..Find(buf, BLANK_LINE)])
    requires GatheredBody(Before(buf[Find(buf, BLANK_LINE) + 4..], left), h.length, ok, body, last)
    ensures Parsed(s) == Answer(h, ok, body)
  {
    var k := Find(buf, BLANK_LINE);
    HeadIsIn(s, buf, left, k);
    ParsedBehindHead(s, k, h);
    BodyIs(h, s.text[k + 4..], s.lost, ok, body, last);
  }

  /** What gathering up to `n` bytes of body from a stream has come to. */
  predicate GatheredBody(from: Stream, n: nat, ok: bool, body: string, last: Stream) {
    if ok then from == Before(body, last) && (|body| >= n || last == Stream("", false))
    else from == Stream(body, true) && |body| < n
  }

  function Answer(h: Head, ok: bool, body: string): Request {
    if ok then Request(h.verb, h.path, body[..if h.length < |body| then h.length else |body|]) else Raised
  }

  lemma ParsedBehindHead(s: Stream, k: nat, h: Head)
    requires Find(s.text, BLANK_LINE) == k < |s.text| && k + 4 <= |s.text| && h == HeadOf(s.text[..k])
    ensures Parsed(s) == ParsedBody(h, s.text[k + 4..], s.lost)
  {
  }

  /** A stream that ends inside the head has no body. */
  lemma NoBody(s: Stream, h: Head, ok: bool, body: string, last: Stream)
    requires Find(s.text, BLANK_LINE) == |s.text| && !s.lost && h == HeadOf(s.text)
    requires GatheredBody(Stream("", false), h.length, ok, body, last)
    ensures Parsed(s) == Answer(h, ok, body)
  {
    assert ok ==> |body + last.text| == 0;
  }

  lemma BodyIs(h: Head, rest: string, lost: bool, ok: bool, body: string, last: Stream)
    requires GatheredBody(Stream(rest, lost), h.length, ok, body, last)
    ensures ParsedBody(h, rest, lost) == Answer(h, ok, body)
  {
    if ok {
      if h.length <= |body| {
        assert rest[..h.length] == body[..h.length];
      } else {
        assert rest == body == body[..|body|];
      }
    }
  }
}
