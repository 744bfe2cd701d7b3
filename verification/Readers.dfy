/**
 What a program sees through a RecvBuffer of ffi/network.c, over whole runs of
 `readline` and `readn` calls: exactly when a line is returned, refused or lost,
 that the chunking is invisible, and that no byte appears or disappears.
 */
module Readers {
  import opened Common
  import opened RecvBuffers

  // ── One call ──

  ghost predicate WholeLine(s: Stream, t: seq<Byte>, rest: Stream) {
    s == Prepend(t + [CR, LF], rest) && |t| + 2 <= LINE_SIZE && NoCrlf(t + [CR])
  }

  ghost predicate LastLine(s: Stream, t: seq<Byte>, rest: Stream) {
    s == Stream(t, Eof) && rest == NOTHING && |t| < LINE_SIZE && NoCrlf(t)
  }

  /** A line comes back exactly when it and its CRLF fit in 8192 bytes, or when the
      stream ends in fewer than 8192 bytes without a CRLF. */
  lemma LineMeans(s: Stream, t: seq<Byte>, rest: Stream)
    ensures LineOf(s) == (Line(t), rest) <==> WholeLine(s, t, rest) || LastLine(s, t, rest)
  {
    if WholeLine(s, t, rest) {
      WholeLineIsRead(s, t, rest);
    } else if LastLine(s, t, rest) {
      assert t[..|t|] == t;
      CrlfIsFar(t, |t|);
    } else if LineOf(s) == (Line(t), rest) {
      LineReadIsALine(s);
    }
  }

  lemma WholeLineIsRead(s: Stream, t: seq<Byte>, rest: Stream)
    requires WholeLine(s, t, rest)
    ensures LineOf(s) == (Line(t), rest)
  {
    assert s.bytes[..|t| + 1] == t + [CR] && s.bytes[..|t|] == t;
    assert s.bytes[|t| + 2..] == rest.bytes;
    CrlfIsFirst(s.bytes, |t|);
  }

  lemma LineReadIsALine(s: Stream)
    requires LineOf(s).0.Line?
    ensures WholeLine(s, LineOf(s).0.text, LineOf(s).1) || LastLine(s, LineOf(s).0.text, LineOf(s).1)
  {
    var k := FirstCrlf(s.bytes);
    FirstCrlfIsFirst(s.bytes);
    if k < |s.bytes| && k + 2 <= LINE_SIZE {
      assert s.bytes == s.bytes[..k] + [CR, LF] + s.bytes[k + 2..];
      assert s.bytes[..k + 1] == s.bytes[..k] + [CR];
    }
  }

  ghost predicate EndsInCrlf(bs: seq<Byte>, n: nat) {
    2 <= n <= |bs| && bs[n - 2] == CR && bs[n - 1] == LF
  }

  /** Too long: 8192 bytes arrive before any error, no prefix of them ending in CRLF. */
  lemma TooLongMeans(s: Stream)
    ensures LineOf(s).0 == TooLong <==>
            |s.bytes| >= LINE_SIZE && forall n: nat | n <= LINE_SIZE :: !EndsInCrlf(s.bytes, n)
  {
    var k := FirstCrlf(s.bytes);
    FirstCrlfIsFirst(s.bytes);
    if k < |s.bytes| && k + 2 <= LINE_SIZE {
      assert EndsInCrlf(s.bytes, k + 2);
    } else {
      forall n: nat | 2 <= n <= LINE_SIZE && n <= |s.bytes| ensures !EndsInCrlf(s.bytes, n) {
        assert if k < |s.bytes| then !CrlfAt(s.bytes[..k + 1], n - 2) else !CrlfAt(s.bytes, n - 2);
      }
    }
  }

  /** Lost: the error comes within 8192 bytes, before any CRLF. */
  lemma FailedMeans(s: Stream, rest: Stream)
    ensures LineOf(s) == (LineFailed, rest) <==>
            s.after == Lost(rest) && |s.bytes| < LINE_SIZE && NoCrlf(s.bytes)
  {
    var k := FirstCrlf(s.bytes);
    FirstCrlfIsFirst(s.bytes);
    assert k < |s.bytes| ==> CrlfAt(s.bytes, k);
  }

  /** CR is 13 and LF 10; and a line may have 8190 bytes, and one more is too many. */
  lemma LineLimit(l: seq<Byte>, after: seq<Byte>, rest: Stream)
    requires forall i | 0 <= i < |l| - 1 :: !(l[i] == 13 && l[i + 1] == 10)
    ensures var s := Prepend(l + [13, 10] + after, rest);
            LineOf(s) == if |l| <= 8190 then (Line(l), Prepend(after, rest)) else (TooLong, Drop(s, 8192))
  {
    var bs := l + [13, 10] + after + rest.bytes;
    assert bs[..|l| + 1] == l + [CR] && bs[..|l|] == l && bs[|l| + 2..] == after + rest.bytes;
    assert NoCrlf(l + [CR]);
    CrlfIsFirst(bs, |l|);
  }

  /** `n` bytes come back exactly when they are there; fewer exactly at the end. */
  lemma TakeMeans(n: nat, s: Stream, b: seq<Byte>, rest: Stream)
    ensures TakeOf(n, s) == (Taken(b), rest) <==>
              (|b| == n && s == Prepend(b, rest)) || (|b| < n && s == Stream(b, Eof) && rest == NOTHING)
    ensures TakeOf(n, s) == (TakeFailed, rest) <==> |s.bytes| < n && s.after == Lost(rest)
  {
    if |b| == n && s == Prepend(b, rest) {
      TakeIsDone(s, b, rest);
    } else if n <= |s.bytes| {
      assert s.bytes[..n] + s.bytes[n..] == s.bytes;
    }
  }

  // ── Runs of calls ──

  datatype Call = GetLine | GetN(n: nat)
  datatype Reply = LineReply(line: LineResult) | NReply(taken: TakeResult)

  function Answer(c: Call, s: Stream): (Reply, Stream) {
    match c
    case GetLine => var (r, rest) := LineOf(s); (LineReply(r), rest)
    case GetN(n) => var (r, rest) := TakeOf(n, s); (NReply(r), rest)
  }

  /** The replies of the simple reader, and what it leaves unread. */
  function Replay(calls: seq<Call>, s: Stream): (seq<Reply>, Stream) {
    if calls == [] then ([], s)
    else
      var (rs, mid) := Replay(calls[..|calls| - 1], s);
      var (r, rest) := Answer(calls[|calls| - 1], mid);
      (rs + [r], rest)
  }

  method Run(rb: RecvBuffer, calls: seq<Call>) returns (replies: seq<Reply>)
    requires rb.Valid()
    modifies rb, rb.buf, rb.sock
    ensures rb.Valid()
    ensures (replies, rb.Pending()) == Replay(calls, old(rb.Pending()))
  {
    replies := [];
    ghost var s := rb.Pending();
    for i := 0 to |calls|
      invariant rb.Valid()
      invariant (replies, rb.Pending()) == Replay(calls[..i], s)
    {
      var reply;
      match calls[i] {
        case GetLine => var r := rb.ReadLine(); reply := LineReply(r);
        case GetN(n) => var r := rb.ReadN(n); reply := NReply(r);
      }
      replies := replies + [reply];
      assert calls[..i + 1][..i] == calls[..i];
    }
    assert calls[..|calls|] == calls;
  }

  /** A fresh reader on a socket that behaves as `script` says. */
  method RunOn(script: seq<Event>, calls: seq<Call>) returns (replies: seq<Reply>)
    ensures replies == Replay(calls, Flat(script, 0)).0
  {
    var sock := new Socket(script);
    var rb := new RecvBuffer(sock);
    replies := Run(rb, calls);
  }

  /** Two sockets with the same flat stream cannot be told apart by any calls. */
  method ChunkingIsInvisible(a: seq<Event>, b: seq<Event>, calls: seq<Call>)
    returns (ra: seq<Reply>, rb: seq<Reply>)
    requires Flat(a, 0) == Flat(b, 0)
    ensures ra == rb == Replay(calls, Flat(a, 0)).0
  {
    ra := RunOn(a, calls);
    rb := RunOn(b, calls);
  }

  // ── What the flat stream of a script is ──

  /** All the bytes a script delivers. */
  function Payload(script: seq<Event>): seq<Byte> {
    if script == [] then []
    else (match script[0] case Data(bs) => bs case _ => []) + Payload(script[1..])
  }

  /** No hard error: no errno but EAGAIN, and never four EAGAINs in a row. */
  predicate Transient(script: seq<Event>, again: nat) {
    script == [] ||
    match script[0]
    case Data(_) => Transient(script[1..], 0)
    case Fault => false
    case Again => again + 1 < ATTEMPTS && Transient(script[1..], again + 1)
  }

  /** The stream is the payload and then end of file exactly when no error is hard:
      splits and transient EAGAINs leave no trace. */
  lemma {:induction false} FlatOfTransient(script: seq<Event>, again: nat)
    requires again < ATTEMPTS
    ensures Flat(script, again) == Stream(Payload(script), Eof) <==> Transient(script, again)
  {
    if script != [] {
      match script[0]
      case Data(bs) =>
        FlatOfTransient(script[1..], 0);
        var f := Flat(script[1..], 0);
        if bs + f.bytes == bs + Payload(script[1..]) {
          assert f.bytes == (bs + f.bytes)[|bs|..] == Payload(script[1..]);
        }
      case Fault =>
      case Again =>
        assert [] + Payload(script[1..]) == Payload(script[1..]);
        if again + 1 < ATTEMPTS {
          FlatOfTransient(script[1..], again + 1);
        }
    }
  }

  lemma {:induction false} FlatAppend(xs: seq<Event>, ys: seq<Event>, again: nat)
    requires again < ATTEMPTS && Transient(xs, again) && xs != [] && xs[|xs| - 1].Data?
    ensures Flat(xs + ys, again) == Prepend(Payload(xs), Flat(ys, 0))
  {
    assert (xs + ys)[1..] == xs[1..] + ys;
    if |xs| == 1 {
      assert xs[1..] + ys == ys && xs[0].bytes + [] == xs[0].bytes;
    } else {
      match xs[0]
      case Data(bs) =>
        FlatAppend(xs[1..], ys, 0);
        PrependTwice(bs, Payload(xs[1..]), Flat(ys, 0));
      case Again =>
        FlatAppend(xs[1..], ys, again + 1);
        assert [] + Payload(xs[1..]) == Payload(xs[1..]);
    }
  }

  /** After some bytes: an errno, and four EAGAINs in a row, are an error at that place;
      three leave no trace. */
  lemma ErrorsArePlaced(xs: seq<Event>, ys: seq<Event>)
    requires Transient(xs, 0) && (xs == [] || xs[|xs| - 1].Data?)
    ensures Flat(xs + ([Fault] + ys), 0) == Stream(Payload(xs), Lost(Flat(ys, 0)))
    ensures Flat(xs + ([Again, Again, Again, Again] + ys), 0) == Stream(Payload(xs), Lost(Flat(ys, 0)))
    ensures ys == [] || !ys[0].Again? ==>
              Flat(xs + ([Again, Again, Again] + ys), 0) == Prepend(Payload(xs), Flat(ys, 0))
  {
    FaultsFirst(ys);
    FlatBehind(xs, [Fault] + ys);
    FlatBehind(xs, [Again, Again, Again, Again] + ys);
    FlatBehind(xs, [Again, Again, Again] + ys);
    assert Payload(xs) + [] == Payload(xs);
  }

  lemma FlatBehind(xs: seq<Event>, ys: seq<Event>)
    requires Transient(xs, 0) && (xs == [] || xs[|xs| - 1].Data?)
    ensures Flat(xs + ys, 0) == Prepend(Payload(xs), Flat(ys, 0))
  {
    if xs == [] {
      assert xs + ys == ys;
      PrependNothing(Flat(ys, 0));
    } else {
      FlatAppend(xs, ys, 0);
    }
  }

  lemma OneAgain(ys: seq<Event>, again: nat)
    requires again < 4
    ensures Flat([Again] + ys, again) == if again < 3 then Flat(ys, again + 1) else Stream([], Lost(Flat(ys, 0)))
  {
    assert ([Again] + ys)[1..] == ys;
  }

  lemma FaultsFirst(ys: seq<Event>)
    ensures Flat([Fault] + ys, 0) == Stream([], Lost(Flat(ys, 0)))
    ensures Flat([Again, Again, Again, Again] + ys, 0) == Stream([], Lost(Flat(ys, 0)))
    ensures ys == [] || !ys[0].Again? ==> Flat([Again, Again, Again] + ys, 0) == Flat(ys, 0)
  {
    assert ([Fault] + ys)[1..] == ys;
    var one, two, three := [Again] + ys, [Again] + ([Again] + ys), [Again] + ([Again] + ([Again] + ys));
    assert [Again, Again, Again] + ys == three && [Again, Again, Again, Again] + ys == [Again] + three;
    OneAgain(three, 0);
    OneAgain(two, 1);
    OneAgain(one, 2);
    OneAgain(ys, 3);
    OneAgain(two, 0);
    OneAgain(one, 1);
    OneAgain(ys, 2);
  }

  // ── Conservation ──

  /** Every byte of a stream, across its errors. */
  function Everything(s: Stream): seq<Byte> {
    s.bytes + match s.after case Eof => [] case Lost(rest) => Everything(rest)
  }

  /** The bytes one call used up: delivered, with the CRLF of a line, or discarded. */
  function Spent(r: Reply, s: Stream): seq<Byte> {
    match r
    case LineReply(Line(t)) => if s.bytes == t then t else t + [CR, LF]
    case LineReply(TooLong) => if |s.bytes| < LINE_SIZE then s.bytes else s.bytes[..LINE_SIZE]
    case LineReply(LineFailed) => s.bytes
    case NReply(Taken(b)) => b
    case NReply(TakeFailed) => s.bytes
  }

  function Ledger(calls: seq<Call>, s: Stream): seq<seq<Byte>> {
    if calls == [] then []
    else
      var mid := Replay(calls[..|calls| - 1], s).1;
      Ledger(calls[..|calls| - 1], s) + [Spent(Answer(calls[|calls| - 1], mid).0, mid)]
  }

  lemma AnswerConserves(c: Call, s: Stream)
    ensures var (r, rest) := Answer(c, s); Everything(s) == Spent(r, s) + Everything(rest)
  {
    match c
    case GetLine => LineConserves(s);
    case GetN(n) => TakeConserves(n, s);
  }

  lemma LineConserves(s: Stream)
    ensures var (r, rest) := LineOf(s); Everything(s) == Spent(LineReply(r), s) + Everything(rest)
  {
    var (r, rest) := LineOf(s);
    match r
    case Line(t) =>
      LineMeans(s, t, rest);
      if s.bytes != t {
        EverythingPrepend(t + [CR, LF], rest);
      }
    case TooLong =>
      assert s.bytes[..LINE_SIZE] + rest.bytes == s.bytes;
      EverythingPrepend(s.bytes[..LINE_SIZE], rest);
    case LineFailed => FailedMeans(s, rest);
  }

  lemma TakeConserves(n: nat, s: Stream)
    ensures var (r, rest) := TakeOf(n, s); Everything(s) == Spent(NReply(r), s) + Everything(rest)
  {
    if n <= |s.bytes| {
      assert s.bytes[..n] + s.bytes[n..] == s.bytes;
      EverythingPrepend(s.bytes[..n], Drop(s, n));
    }
  }

  lemma {:induction false} ReplayConserves(calls: seq<Call>, s: Stream)
    ensures Everything(s) == Concat(Ledger(calls, s)) + Everything(Replay(calls, s).1)
  {
    if calls != [] {
      var init, c := calls[..|calls| - 1], calls[|calls| - 1];
      ReplayConserves(init, s);
      var mid := Replay(init, s).1;
      AnswerConserves(c, mid);
      ConcatSnoc(Ledger(init, s), Spent(Answer(c, mid).0, mid));
    }
  }

  lemma {:induction false} EverythingFlat(script: seq<Event>, again: nat)
    requires again < ATTEMPTS
    ensures Everything(Flat(script, again)) == Payload(script)
  {
    if script != [] {
      match script[0]
      case Data(bs) =>
        EverythingFlat(script[1..], 0);
        EverythingPrepend(bs, Flat(script[1..], 0));
      case Fault => EverythingFlat(script[1..], 0);
      case Again => EverythingFlat(script[1..], (again + 1) % ATTEMPTS);
    }
  }

  lemma EverythingPrepend(bs: seq<Byte>, s: Stream)
    ensures Everything(Prepend(bs, s)) == bs + Everything(s)
  {
    var tail := match s.after case Eof => [] case Lost(rest) => Everything(rest);
    assert bs + s.bytes + tail == bs + (s.bytes + tail);
  }

  /** In every reachable state, what the socket has delivered is what the calls used
      up, in order, and then what is still in the buffer. */
  method RunConserves(script: seq<Event>, calls: seq<Call>) returns (rb: RecvBuffer, received: seq<Byte>)
    ensures rb.Valid() && fresh(rb)
    ensures Payload(script) == received + Payload(rb.sock.script)
    ensures received == Concat(Ledger(calls, Flat(script, 0))) + rb.Buffered()
  {
    var sock := new Socket(script);
    rb := new RecvBuffer(sock);
    var _ := Run(rb, calls);
    var used := Concat(Ledger(calls, Flat(script, 0)));
    received := used + rb.buf[rb.pos..rb.len];
    EverythingFlat(script, 0);
    EverythingFlat(rb.sock.script, 0);
    Conserved(calls, Flat(script, 0), rb.Buffered(), Flat(rb.sock.script, 0));
  }

  lemma Conserved(calls: seq<Call>, s: Stream, kept: seq<Byte>, left: Stream)
    requires Replay(calls, s).1 == Prepend(kept, left)
    ensures Everything(s) == Concat(Ledger(calls, s)) + kept + Everything(left)
  {
    ReplayConserves(calls, s);
    EverythingPrepend(kept, left);
  }
}
