/**
 `recvHeadersFrom` of Linen/Network/WebApp/Server/Request.lean over a RecvBuffer of
 ffi/network.c: a request line, whatever it is, and then at most `maxHeaders` lines up to
 an empty one.
 */
module RequestHeads {
  import opened Common
  import opened RecvBuffers
  import opened Readers
  import opened Channels

  const MAX_HEADERS := 100

  /** Header lines; or none, because there are too many or a `readline` threw. */
  datatype Fields = Fields(lines: seq<seq<Byte>>) | TooMany | Raised

  datatype Head = Head(requestLine: seq<Byte>, headers: seq<seq<Byte>>) | Rejected | Thrown

  /** At most `most` lines, the last of them empty. */
  function FieldsOf(most: nat, s: Stream): (Fields, Stream)
    decreases most
  {
    if most == 0 then (TooMany, s)
    else
      var (r, rest) := LineOf(s);
      match r
      case Line(t) => if t == [] then (Fields([]), rest) else Behind([t], FieldsOf(most - 1, rest))
      case _ => (Raised, rest)
  }

  /** Header lines behind those that have been read. */
  function Behind(lines: seq<seq<Byte>>, r: (Fields, Stream)): (Fields, Stream) {
    (if r.0.Fields? then Fields(lines + r.0.lines) else r.0, r.1)
  }

  /** A request line and at most `most` header lines. */
  function HeadOf(most: nat, s: Stream): (Head, Stream) {
    var (r, rest) := LineOf(s);
    match r
    case Line(t) => HeadFrom(t, FieldsOf(most + 1, rest))
    case _ => (Thrown, rest)
  }

  function HeadFrom(line: seq<Byte>, r: (Fields, Stream)): (Head, Stream) {
    match r.0
    case Fields(lines) => (Head(line, lines), r.1)
    case TooMany => (Rejected, r.1)
    case Raised => (Thrown, r.1)
  }

  method ReceiveHead(rb: RecvBuffer) returns (h: Head)
    requires rb.Valid()
    modifies rb, rb.buf, rb.sock
    ensures rb.Valid()
    ensures (h, rb.Pending()) == HeadOf(MAX_HEADERS, old(rb.Pending()))
  {
    var first := rb.ReadLine();
    if !first.Line? {
      return Thrown;
    }
    var f := ReceiveFields(rb, MAX_HEADERS + 1);
    match f {
      case Fields(lines) => return Head(first.text, lines);
      case TooMany => return Rejected;
      case Raised => return Thrown;
    }
  }

  /** The loop over the header lines. */
  method ReceiveFields(rb: RecvBuffer, most: nat) returns (f: Fields)
    requires rb.Valid()
    modifies rb, rb.buf, rb.sock
    ensures rb.Valid()
    ensures (f, rb.Pending()) == FieldsOf(most, old(rb.Pending()))
  {
    var lines: seq<seq<Byte>> := [];
    ghost var goal := FieldsOf(most, rb.Pending());
    BehindNone(goal);
    for i := 0 to most
      invariant rb.Valid()
      invariant goal == Behind(lines, FieldsOf(most - i, rb.Pending()))
    {
      ghost var before := rb.Pending();
      var r := rb.ReadLine();
      NextField(lines, most - i, before, rb.Pending());
      if !r.Line? {
        return Raised;
      }
      if r.text == [] {
        return Fields(lines);
      }
      lines := lines + [r.text];
    }
    return TooMany;
  }

  lemma BehindNone(r: (Fields, Stream))
    ensures Behind([], r) == r
  {
    assert r.0.Fields? ==> [] + r.0.lines == r.0.lines;
  }

  lemma BehindOne(lines: seq<seq<Byte>>, t: seq<Byte>, r: (Fields, Stream))
    ensures Behind(lines, Behind([t], r)) == Behind(lines + [t], r)
  {
    if r.0.Fields? {
      assert lines + ([t] + r.0.lines) == lines + [t] + r.0.lines;
    }
  }

  /** What the next line makes of the header lines so far. */
  lemma NextField(lines: seq<seq<Byte>>, most: nat, s: Stream, rest: Stream)
    requires most > 0 && LineOf(s).1 == rest
    ensures Behind(lines, FieldsOf(most, s)) ==
            match LineOf(s).0
            case Line(t) => if t == [] then (Fields(lines), rest) else Behind(lines + [t], FieldsOf(most - 1, rest))
            case _ => (Raised, rest)
  {
    var r := LineOf(s).0;
    assert lines + [] == lines;
    if r.Line? {
      BehindOne(lines, r.text, FieldsOf(most - 1, rest));
    }
  }

  /** What can be read when these header lines, the empty one and then `after` are next. */
  function Rendering(headers: seq<seq<Byte>>, after: seq<Byte>, rest: Stream): Stream {
    Prepend(Rendered(headers, after), rest)
  }

  /** The lines, when there are fewer than `most`; or else what follows `most` of them is left. */
  function FieldsIn(most: nat, headers: seq<seq<Byte>>, after: seq<Byte>, rest: Stream): (Fields, Stream) {
    if |headers| < most then (Fields(headers), Prepend(after, rest))
    else (TooMany, Rendering(headers[most..], after, rest))
  }

  lemma LineOfRendering(headers: seq<seq<Byte>>, after: seq<Byte>, rest: Stream)
    requires forall l | l in headers :: SendableLine(l)
    ensures LineOf(Rendering(headers, after, rest)) ==
            if headers == [] then (Line([]), Prepend(after, rest))
            else (Line(headers[0]), Rendering(headers[1..], after, rest))
    ensures headers != [] ==> headers[0] != []
  {
    if headers == [] {
      EmptyLineThenRest(after, rest);
    } else {
      assert SendableLine(headers[0]);
      LineThenRest(headers[0], Rendered(headers[1..], after), rest);
    }
  }

  lemma FieldsStep(most: nat, s: Stream, t: seq<Byte>, left: Stream)
    requires LineOf(s) == (Line(t), left)
    ensures FieldsOf(most + 1, s) == if t == [] then (Fields([]), left) else Behind([t], FieldsOf(most, left))
  {
  }

  /** What is read of `s` is `FieldsIn`: all the header lines exactly when they are few enough. */
  lemma {:induction false} FieldsAreRead(most: nat, headers: seq<seq<Byte>>, after: seq<Byte>, rest: Stream, s: Stream)
    requires s == Rendering(headers, after, rest) && forall l | l in headers :: SendableLine(l)
    ensures FieldsOf(most, s) == FieldsIn(most, headers, after, rest)
  {
    if most == 0 {
      assert headers[0..] == headers;
    } else if headers == [] {
      LineOfRendering(headers, after, rest);
      FieldsStep(most - 1, s, [], Prepend(after, rest));
    } else {
      var left := Rendering(headers[1..], after, rest);
      FieldsAreRead(most - 1, headers[1..], after, rest, left);
      LineOfRendering(headers, after, rest);
      FieldsConsed(most, headers, after, rest, s, left);
    }
  }

  lemma FieldsConsed(most: nat, headers: seq<seq<Byte>>, after: seq<Byte>, rest: Stream, s: Stream, left: Stream)
    requires most > 0 && headers != [] && headers[0] != []
    requires LineOf(s) == (Line(headers[0]), left)
    requires FieldsOf(most - 1, left) == FieldsIn(most - 1, headers[1..], after, rest)
    ensures FieldsOf(most, s) == FieldsIn(most, headers, after, rest)
  {
    OneMoreField(most, headers, after, rest);
  }

  lemma OneMoreField(most: nat, headers: seq<seq<Byte>>, after: seq<Byte>, rest: Stream)
    requires most > 0 && headers != []
    ensures Behind([headers[0]], FieldsIn(most - 1, headers[1..], after, rest)) == FieldsIn(most, headers, after, rest)
  {
    assert [headers[0]] + headers[1..] == headers;
    assert |headers| >= most ==> headers[1..][most - 1..] == headers[most..];
  }

  /** A rendered head is read back, and what follows is left, exactly when it has at most
      `most` header lines; with more the request is rejected, not cut short. The request
      line may even be empty. */
  lemma HeadIsRead(most: nat, line: seq<Byte>, headers: seq<seq<Byte>>, after: seq<Byte>, rest: Stream)
    requires |line| + 2 <= LINE_SIZE && FirstCrlf(line) == |line|
    requires forall l | l in headers :: SendableLine(l)
    ensures HeadOf(most, Prepend(line + [CR, LF] + Rendered(headers, after), rest)) ==
            if |headers| <= most then (Head(line, headers), Prepend(after, rest))
            else (Rejected, Prepend(Rendered(headers[most + 1..], after), rest))
  {
    LineThenRest(line, Rendered(headers, after), rest);
    FieldsAreRead(most + 1, headers, after, rest, Prepend(Rendered(headers, after), rest));
  }

  /** At most 100 header lines are read, and with 101 the request is rejected. */
  lemma HundredHeaders(line: seq<Byte>, headers: seq<seq<Byte>>, after: seq<Byte>, rest: Stream)
    requires |line| + 2 <= LINE_SIZE && FirstCrlf(line) == |line|
    requires forall l | l in headers :: SendableLine(l)
    ensures HeadOf(MAX_HEADERS, Prepend(line + [CR, LF] + Rendered(headers, after), rest)).0 ==
            if |headers| <= 100 then Head(line, headers) else Rejected
  {
    HeadIsRead(MAX_HEADERS, line, headers, after, rest);
  }

  // ── A `readline` that throws within the head ──

  /** Header lines, each ended by CRLF. */
  function Terminated(headers: seq<seq<Byte>>): seq<Byte> {
    if headers == [] then [] else headers[0] + [CR, LF] + Terminated(headers[1..])
  }

  /** Whatever header lines came before, as long as there may be more: when the next
      `readline` fails, the whole request throws, and is not merely rejected. */
  lemma HeadThrows(most: nat, line: seq<Byte>, headers: seq<seq<Byte>>, next: Stream)
    requires |line| + 2 <= LINE_SIZE && FirstCrlf(line) == |line| && |headers| <= most
    requires (forall l | l in headers :: SendableLine(l)) && !LineOf(next).0.Line?
    ensures HeadOf(most, Prepend(line + [CR, LF] + Terminated(headers), next)) == (Thrown, LineOf(next).1)
    ensures HeadOf(most, next) == (Thrown, LineOf(next).1)
  {
    LineThenRest(line, Terminated(headers), next);
    FieldsThrow(most + 1, headers, next, Prepend(Terminated(headers), next));
  }

  lemma {:induction false} FieldsThrow(most: nat, headers: seq<seq<Byte>>, next: Stream, s: Stream)
    requires (forall l | l in headers :: SendableLine(l)) && |headers| < most && !LineOf(next).0.Line?
    requires s == Prepend(Terminated(headers), next)
    ensures FieldsOf(most, s) == (Raised, LineOf(next).1)
  {
    if headers == [] {
      PrependNothing(next);
    } else {
      var left := Prepend(Terminated(headers[1..]), next);
      FieldsThrow(most - 1, headers[1..], next, left);
      LineOfTerminated(headers, next);
      FieldsStep(most - 1, s, headers[0], left);
    }
  }

  lemma LineOfTerminated(headers: seq<seq<Byte>>, next: Stream)
    requires headers != [] && SendableLine(headers[0])
    ensures LineOf(Prepend(Terminated(headers), next)) == (Line(headers[0]), Prepend(Terminated(headers[1..]), next))
  {
    LineThenRest(headers[0], Terminated(headers[1..]), next);
  }

  /** So does a receive error within the head. */
  lemma LostInTheHead(most: nat, line: seq<Byte>, headers: seq<seq<Byte>>, part: seq<Byte>, rest: Stream)
    requires |line| + 2 <= LINE_SIZE && FirstCrlf(line) == |line| && |headers| <= most
    requires (forall l | l in headers :: SendableLine(l)) && |part| < 8192 && NoCrlf(part)
    ensures HeadOf(most, Prepend(line + [CR, LF] + Terminated(headers), Stream(part, Lost(rest)))) == (Thrown, rest)
    ensures HeadOf(most, Stream(part, Lost(rest))) == (Thrown, rest)
  {
    FailedMeans(Stream(part, Lost(rest)), rest);
    HeadThrows(most, line, headers, Stream(part, Lost(rest)));
  }
}
