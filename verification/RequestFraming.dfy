/**
 What `readRequest` of Examples/Req.lean makes of any request head: the words of the
 request line, and the length of the body. Header lines are told apart by their
 characters.
 */
module RequestFraming {
  import opened Common
  import opened RequestText
  import opened RequestReader
  import opened RequestRendering

  // ── Lines that give a length, and lines that do not ──

  /** The line begins with "content-length:", in any letter case. */
  predicate Named(line: string) {
    |line| >= 15 && forall i | 0 <= i < 15 :: line[i] == "content-length:"[i] || line[i] == "CONTENT-LENGTH:"[i]
  }

  lemma SameButForCase(c: char, i: nat)
    requires i < 15
    ensures Lower(c) == LENGTH_NAME[i] <==> c == "content-length:"[i] || c == "CONTENT-LENGTH:"[i]
  {
    match i
    case 0 => case 1 => case 2 => case 3 => case 4 => case 5 => case 6 => case 7 =>
    case 8 => case 9 => case 10 => case 11 => case 12 => case 13 =>
    case _ =>
  }

  lemma NamedIff(line: string)
    ensures StartsAt(ToLower(line), 0, LENGTH_NAME) <==> Named(line)
  {
    var low := ToLower(line);
    if |line| >= 15 {
      forall i | 0 <= i < 15
        ensures low[i] == LENGTH_NAME[i] <==> line[i] == "content-length:"[i] || line[i] == "CONTENT-LENGTH:"[i]
      {
        SameButForCase(line[i], i);
      }
      assert low[0..15] == LENGTH_NAME <==> forall i | 0 <= i < 15 :: low[0..15][i] == LENGTH_NAME[i];
      assert forall i | 0 <= i < 15 :: low[0..15][i] == low[i];
    }
  }

  lemma ColonOf(line: string)
    requires Named(line)
    ensures Find(line, ":") == 14
  {
    forall i | 0 <= i < 14 ensures line[i] != ':' {
      SameButForCase(line[i], i);
      NameHasNoColon(i);
    }
    assert line[14..][0..1] == ":";
    FindBehind(line[..14], line[14..], ":");
    assert line[..14] + line[14..] == line;
  }

  lemma NameHasNoColon(i: nat)
    requires i < 14
    ensures "content-length:"[i] != ':' && "CONTENT-LENGTH:"[i] != ':'
  {
    match i
    case 0 => case 1 => case 2 => case 3 => case 4 => case 5 => case 6 => case 7 =>
    case 8 => case 9 => case 10 => case 11 => case 12 =>
    case _ =>
  }

  /** A length line: any capitals, spaces around the number, and leading zeros. */
  lemma LengthIsRead(line: string, a: string, z: string, n: nat, b: string)
    requires Named(line) && line[15..] == a + (z + Decimal(n)) + b && Spaces(a) && Zeros(z) && Spaces(b)
    ensures LengthOf(line) == Some(n)
  {
    NamedIff(line);
    ColonOf(line);
    var v := z + Decimal(n);
    assert forall i | 0 <= i < |v| :: IsDigit(v[i]);
    TrimIs(a, v, b);
    ZerosAreRead(z, n);
  }

  /** The line is not a length line, or its value is no number. */
  predicate Silent(line: string) {
    !Named(line) || exists i | 15 <= i < |line| :: !('0' <= line[i] <= '9') && line[i] !in "_ \t\r\n"
  }

  lemma SilentGivesNone(line: string)
    requires Silent(line)
    ensures LengthOf(line) == None
  {
    NamedIff(line);
    if Named(line) {
      var i :| 15 <= i < |line| && !('0' <= line[i] <= '9') && line[i] !in "_ \t\r\n";
      ColonOf(line);
      assert line[15..][i - 15] == line[i];
      TrimKeeps(line[15..], line[i]);
      if IsNat(Trim(line[15..]), false) {
        NatCharacters(Trim(line[15..]), false, line[i]);
      }
    }
  }

  lemma {:induction false} SilentGiveZero(fields: seq<string>)
    requires forall f | f in fields :: Silent(f)
    ensures FirstLength(fields) == 0
  {
    if fields != [] {
      SilentGivesNone(fields[0]);
      SilentGiveZero(fields[1..]);
    }
  }

  /** The first line that gives a length counts, wherever it is. */
  lemma {:induction false} FirstLengthAmong(before: seq<string>, line: string, after: seq<string>, n: nat)
    requires (forall f | f in before :: Silent(f)) && LengthOf(line) == Some(n)
    ensures FirstLength(before + [line] + after) == n
  {
    var all := before + [line] + after;
    if before == [] {
      assert all[0] == line;
    } else {
      SilentGivesNone(before[0]);
      FirstLengthAmong(before[1..], line, after, n);
      assert all[0] == before[0] && all[1..] == before[1..] + [line] + after;
    }
  }

  // ── Any head ──

  /** Method and path, and then anything. */
  function FirstLine(verb: string, path: string, version: string): string {
    verb + " " + (path + " " + version)
  }

  function HeaderLines(fields: seq<string>): string {
    if fields == [] then "" else "\r\n" + fields[0] + HeaderLines(fields[1..])
  }

  /** What has been sent: a request line, header lines and a blank line, and `more`. */
  function Sent(verb: string, path: string, version: string, fields: seq<string>, more: string): string {
    FirstLine(verb, path, version) + HeaderLines(fields) + "\r\n\r\n" + more
  }

  lemma {:induction false} HeaderLinesJoin(first: string, fields: seq<string>)
    ensures JoinLines([first] + fields) == first + HeaderLines(fields)
    decreases |fields|
  {
    if fields == [] {
      assert [first] + fields == [first] && first + "" == first;
    } else {
      HeaderLinesJoin(fields[0], fields[1..]);
      assert ([first] + fields)[1..] == fields == [fields[0]] + fields[1..];
      assert first + CRLF + (fields[0] + HeaderLines(fields[1..])) == first + ("\r\n" + fields[0] + HeaderLines(fields[1..]));
    }
  }

  predicate IsHead(verb: string, path: string, version: string, fields: seq<string>) {
    && IsVerb(verb) && IsPath(path) && Without(version, '\r') && Without(version, '\n')
    && forall f | f in fields :: IsLine(f)
  }

  /** The first `n` bytes behind the head; fewer only at the end, and none after an error. */
  function Framed(verb: string, path: string, n: nat, more: string, lost: bool): Request {
    if n <= |more| then Request(verb, path, more[..n])
    else if lost then Raised
    else Request(verb, path, more)
  }

  lemma WordsAreRead(verb: string, path: string, version: string)
    requires Without(verb, ' ') && Without(path, ' ')
    ensures var words := SplitOn(FirstLine(verb, path, version), " ");
            GetD(words, 0, "GET") == verb && GetD(words, 1, "/") == path
  {
    SplitBehind(verb, " ", path + " " + version);
    SplitBehind(path, " ", version);
  }

  /** A request line is not taken for a length: a space comes before any colon. */
  lemma FirstLineIsSilent(verb: string, path: string, version: string)
    requires IsVerb(verb)
    ensures LengthOf(FirstLine(verb, path, version)) == None
  {
    var line := FirstLine(verb, path, version);
    var i := if |verb| < 14 then |verb| else 14;
    NamedIff(line);
    if Named(line) {
      SameButForCase(line[i], i);
      assert line[i] == if |verb| < 14 then ' ' else (verb + " ")[14];
      NameHasNoSpace(i);
    }
  }

  lemma NameHasNoSpace(i: nat)
    requires i < 15
    ensures "content-length:"[i] != ' ' && "CONTENT-LENGTH:"[i] != ' '
    ensures i == 14 ==> "content-length:"[i] == ':' == "CONTENT-LENGTH:"[i]
  {
    match i
    case 0 => case 1 => case 2 => case 3 => case 4 => case 5 => case 6 => case 7 =>
    case 8 => case 9 => case 10 => case 11 => case 12 => case 13 =>
    case _ =>
  }

  lemma AnyHeadIsRead(verb: string, path: string, version: string, fields: seq<string>)
    requires IsHead(verb, path, version, fields)
    ensures HeadOf(JoinLines([FirstLine(verb, path, version)] + fields)) == Head(verb, path, FirstLength(fields))
  {
    var first := FirstLine(verb, path, version);
    var lines := [first] + fields;
    assert IsLine(first);
    SplitJoined(lines);
    WordsAreRead(verb, path, version);
    FirstLineIsSilent(verb, path, version);
    assert lines[1..] == fields;
  }

  lemma AnyHeadIsParsed(verb: string, path: string, version: string, fields: seq<string>, more: string, lost: bool)
    requires IsHead(verb, path, version, fields)
    ensures Parsed(Stream(Sent(verb, path, version, fields, more), lost)) ==
            Framed(verb, path, FirstLength(fields), more, lost)
  {
    var lines := [FirstLine(verb, path, version)] + fields;
    assert IsLine(lines[0]);
    FindBlank(lines, more);
    AnyHeadIsRead(verb, path, version, fields);
    HeaderLinesJoin(lines[0], fields);
    ParsedAt(JoinLines(lines), Head(verb, path, FirstLength(fields)), more, lost);
  }

  lemma ParsedAt(head: string, h: Head, more: string, lost: bool)
    requires Find(head + BLANK_LINE + more, BLANK_LINE) == |head| && HeadOf(head) == h
    ensures Parsed(Stream(head + BLANK_LINE + more, lost)) == Framed(h.verb, h.path, h.length, more, lost)
  {
    Behind(head, BLANK_LINE, more);
    ParsedFrom(head + BLANK_LINE + more, |head|, lost);
    BodyIsFramed(h, more, lost);
  }

  lemma BodyIsFramed(h: Head, more: string, lost: bool)
    ensures ParsedBody(h, more, lost) == Framed(h.verb, h.path, h.length, more, lost)
  {
  }

  lemma Behind(a: string, b: string, c: string)
    ensures (a + b + c)[..|a|] == a && (a + b + c)[|a| + |b|..] == c
  {
  }

  /** Without a length there is no body, whatever follows or goes wrong. */
  lemma NoLengthNoBody(verb: string, path: string, version: string, fields: seq<string>, more: string, lost: bool)
    requires IsHead(verb, path, version, fields) && forall f | f in fields :: Silent(f)
    ensures Parsed(Stream(Sent(verb, path, version, fields, more), lost)) == Request(verb, path, "")
  {
    AnyHeadIsParsed(verb, path, version, fields, more, lost);
    SilentGiveZero(fields);
  }

  /** The first length line counts, wherever it stands and however it is written. */
  lemma LengthIsObeyed(verb: string, path: string, version: string,
                       before: seq<string>, line: string, after: seq<string>,
                       a: string, z: string, n: nat, b: string, more: string, lost: bool)
    requires IsHead(verb, path, version, before + [line] + after) && forall f | f in before :: Silent(f)
    requires Named(line) && line[15..] == a + (z + Decimal(n)) + b && Spaces(a) && Zeros(z) && Spaces(b)
    ensures Parsed(Stream(Sent(verb, path, version, before + [line] + after, more), lost)) ==
            Framed(verb, path, n, more, lost)
  {
    AnyHeadIsParsed(verb, path, version, before + [line] + after, more, lost);
    LengthIsRead(line, a, z, n, b);
    FirstLengthAmong(before, line, after, n);
  }

  /** A request line of one word asks for "/". */
  lemma OneWordAsksForRoot(word: string, more: string, lost: bool)
    requires IsVerb(word) && word != ""
    ensures Parsed(Stream(word + "\r\n\r\n" + more, lost)) == Request(word, "/", "")
  {
    assert JoinLines([word]) == word;
    FindBlank([word], more);
    OneWordIsRead(word);
    ParsedAt(word, Head(word, "/", 0), more, lost);
  }

  lemma OneWordIsRead(word: string)
    requires IsVerb(word) && word != ""
    ensures HeadOf(word) == Head(word, "/", 0)
  {
    FindNone(word, CRLF);
    FindNone(word, " ");
    assert SplitOn(word, CRLF) == [word] && SplitOn(word, " ") == [word];
    assert !Named(word) by {
      if Named(word) {
        NameHasNoSpace(14);
      }
    }
    SilentGiveZero([word]);
  }

  /** A stream that never has a blank line: an error when it breaks off, and no body. */
  lemma CutShort(text: string)
    requires forall i: nat :: !StartsAt(text, i, "\r\n\r\n")
    ensures Parsed(Stream(text, true)) == Raised
    ensures Parsed(Stream(text, false)).Request? && Parsed(Stream(text, false)).body == ""
  {
    FindIsFirst(text, BLANK_LINE);
  }
}
