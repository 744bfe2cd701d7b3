/**
 The contract of ZlibCodec can be kept: a codec that stores each byte behind a 1 and
 ends the stream with a 0 keeps it.
 */
module ZlibStored {
  import opened Common
  import opened ZlibCodec

  function Plain(x: seq<Byte>): seq<Byte> {
    if |x| >= 2 && x[0] == 1 then [x[1]] + Plain(x[2..]) else []
  }

  function StatusOf(x: seq<Byte>): Status {
    if x == [] then More
    else if x[0] == 0 then End
    else if x[0] == 1 then (if |x| == 1 then More else StatusOf(x[2..]))
    else Bad
  }

  function Body(x: seq<Byte>): (r: seq<Byte>)
    ensures |r| == 2 * |x|
  {
    if x == [] then [] else [1, x[0]] + Body(x[1..])
  }

  function Limit(n: nat): nat { 2 * n + 1 }

  function Live(h: History): bool {
    h.emitted <= Body(h.eaten)
  }

  function FirstChunk(bs: seq<Byte>): seq<Byte> {
    if |bs| < CHUNK then bs else bs[..CHUNK]
  }

  function InflateOf(h: History, input: seq<Byte>, flush: Flush): Step {
    if h.broken then Step(0, [], Failure)
    else
      var all := h.eaten + input;
      var rest := if |h.emitted| <= |Plain(all)| then Plain(all)[|h.emitted|..] else [];
      var ret :=
        if |rest| >= CHUNK then (if flush == NoFlush then Ok else BufError)
        else match StatusOf(all)
             case End => StreamEnd
             case Bad => Failure
             case More => if flush == NoFlush then Ok else BufError;
      Step(|input|, FirstChunk(rest), ret)
  }

  function DeflateOf(h: History, input: seq<Byte>, flush: Flush): Step {
    if h.broken then Step(0, [], Failure)
    else if flush == NoFlush then Step(|input|, [], Ok)
    else
      var all := Body(h.eaten + input) + [0];
      var rest := if |h.emitted| <= |all| then all[|h.emitted|..] else [];
      Step(|input|, FirstChunk(rest), if |rest| > CHUNK then Ok else StreamEnd)
  }

  const STORED := Codec(Plain, StatusOf, Limit, Live, InflateOf, DeflateOf)

  lemma {:induction false} PlainGrows(x: seq<Byte>, y: seq<Byte>)
    ensures Plain(x) <= Plain(x + y)
    ensures StatusOf(x) != More ==> StatusOf(x + y) == StatusOf(x) && Plain(x + y) == Plain(x)
  {
    if x == [] {
      assert [] + y == y;
    } else if |x| >= 2 && x[0] == 1 {
      PlainGrows(x[2..], y);
      PairAhead(x, y);
    } else {
      assert (x + y)[0] == x[0];
    }
  }

  lemma PairAhead(x: seq<Byte>, y: seq<Byte>)
    requires |x| >= 2
    ensures (x + y)[0] == x[0] && (x + y)[1] == x[1] && (x + y)[2..] == x[2..] + y
  {
  }

  lemma {:induction false} BodyGrows(x: seq<Byte>, y: seq<Byte>)
    ensures Body(x) <= Body(x + y)
  {
    if x == [] {
      assert x + y == y;
    } else {
      BodyGrows(x[1..], y);
      assert (x + y)[1..] == x[1..] + y;
    }
  }

  lemma {:induction false} BodyIsRead(x: seq<Byte>)
    ensures Plain(Body(x) + [0]) == x && StatusOf(Body(x) + [0]) == End
  {
    if x != [] {
      BodyIsRead(x[1..]);
      assert (Body(x) + [0])[2..] == Body(x[1..]) + [0];
    }
  }

  lemma InflateIsKept(h: History, input: seq<Byte>, flush: Flush)
    requires h.emitted <= Plain(h.eaten) && !h.broken
    ensures InflateKeeps(STORED, h, input, flush, InflateOf(h, input, flush))
  {
    PlainGrows(h.eaten, input);
    assert input[..|input|] == input;
    SomeChunk(h.emitted, Plain(h.eaten + input));
  }

  lemma SomeChunk(e: seq<Byte>, all: seq<Byte>)
    requires e <= all
    ensures var rest := all[|e|..];
            e + FirstChunk(rest) <= all && (|rest| < CHUNK ==> e + FirstChunk(rest) == all)
  {
    var rest := all[|e|..];
    assert e + rest == all;
    assert e + FirstChunk(rest) == all[..|e| + |FirstChunk(rest)|];
  }

  lemma DeflateIsKept(h: History, input: seq<Byte>, flush: Flush)
    requires Live(h) && !h.broken
    ensures var s := DeflateOf(h, input, flush);
            && DeflateKeeps(STORED, h, input, flush, s) && s.ret != Failure
            && (s.ret in {Ok, BufError} ==> Live(After(h, input, s)))
  {
    assert input[..|input|] == input;
    BodyGrows(h.eaten, input);
    if flush == NoFlush {
      assert h.emitted + [] == h.emitted;
    } else {
      BodyIsRead(h.eaten + input);
      NextChunk(h.emitted, Body(h.eaten + input));
    }
  }

  lemma NextChunk(e: seq<Byte>, all: seq<Byte>)
    requires e <= all
    ensures var rest := (all + [0])[|e|..];
            if |rest| > CHUNK then e + FirstChunk(rest) <= all && |FirstChunk(rest)| == CHUNK
            else e + FirstChunk(rest) == all + [0]
  {
    var rest := (all + [0])[|e|..];
    assert (all + [0])[..|e|] == e;
    assert e + rest == all + [0];
    if |rest| > CHUNK {
      assert e + rest[..CHUNK] == (all + [0])[..|e| + CHUNK] == all[..|e| + CHUNK];
    } else {
      assert FirstChunk(rest) == rest;
    }
  }

  lemma StoredFormat()
    ensures FormatLaws(STORED)
  {
    forall x: seq<Byte>, y: seq<Byte>
      ensures Plain(x) <= Plain(x + y)
      ensures StatusOf(x) != More ==> StatusOf(x + y) == StatusOf(x) && Plain(x + y) == Plain(x)
    {
      PlainGrows(x, y);
    }
  }

  lemma StoredInflate()
    ensures InflateLaws(STORED)
  {
    forall h: History, input, flush | h.emitted <= Plain(h.eaten) && !h.broken
      ensures InflateKeeps(STORED, h, input, flush, InflateOf(h, input, flush))
    {
      InflateIsKept(h, input, flush);
    }
  }

  lemma StoredDeflate()
    ensures DeflateLaws(STORED) && Sturdy(STORED)
  {
    forall h: History, input, flush | Live(h) && !h.broken
      ensures var s := DeflateOf(h, input, flush);
              && DeflateKeeps(STORED, h, input, flush, s) && s.ret != Failure
              && (s.ret in {Ok, BufError} ==> Live(After(h, input, s)))
    {
      DeflateIsKept(h, input, flush);
    }
  }

  lemma StoredIsLawful()
    ensures Lawful(STORED) && Sturdy(STORED)
  {
    StoredFormat();
    StoredInflate();
    StoredDeflate();
  }
}
