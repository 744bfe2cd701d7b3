/**
 The buffered reader of ffi/network.c: a 4 KiB compacting buffer over a socket
 that delivers its bytes in arbitrary chunks, with a CRLF line reader and an
 exact-length reader.

 `Flat` is what any reader could learn from a socket, with the chunking and the
 transient EAGAINs gone. Both readers are proved against functions of it.
 */
module RecvBuffers {
  import opened Common

  const RECVBUF_SIZE := 4096
  const LINE_SIZE := 8192
  const ATTEMPTS := 4

  type Chunk = bs: seq<Byte> | bs != [] witness [0]

  /** One answer of `recv`: some bytes, EAGAIN/EWOULDBLOCK, or any other errno.
      A socket whose script has run out is at end of file. */
  datatype Event = Data(bytes: Chunk) | Again | Fault

  /** What any reader can learn from a socket, whatever the chunking: the bytes up
      to the next call that must fail, and then what follows it. */
  datatype Stream = Stream(bytes: seq<Byte>, after: Ending)
  datatype Ending = Eof | Lost(rest: Stream)

  const NOTHING := Stream([], Eof)

  function Prepend(bs: seq<Byte>, s: Stream): Stream {
    s.(bytes := bs + s.bytes)
  }

  function Drop(s: Stream, n: nat): Stream
    requires n <= |s.bytes|
  {
    s.(bytes := s.bytes[n..])
  }

  /** The stream a script stands for, when `again` EAGAINs in a row came before it.
      Four of them in one refill are an error; fewer leave no trace. */
  function Flat(script: seq<Event>, again: nat): Stream
    requires again < ATTEMPTS
  {
    if script == [] then NOTHING
    else match script[0]
      case Data(bs) => Prepend(bs, Flat(script[1..], 0))
      case Fault => Stream([], Lost(Flat(script[1..], 0)))
      case Again =>
        if again + 1 == ATTEMPTS then Stream([], Lost(Flat(script[1..], 0)))
        else Flat(script[1..], again + 1)
  }

  // ── The simple readers over the flat stream ──

  ghost predicate CrlfAt(bs: seq<Byte>, k: nat) {
    k + 1 < |bs| && bs[k] == CR && bs[k + 1] == LF
  }

  ghost predicate NoCrlf(bs: seq<Byte>) {
    forall k: nat :: !CrlfAt(bs, k)
  }

  /** Where the first CRLF of `bs` is, or `|bs|` when it has none. */
  function FirstCrlf(bs: seq<Byte>): (k: nat)
    ensures k == |bs| || k + 1 < |bs|
  {
    if bs == [] then 0
    else if |bs| > 1 && bs[0] == CR && bs[1] == LF then 0
    else FirstCrlf(bs[1..]) + 1
  }

  lemma {:induction false} FirstCrlfIsFirst(bs: seq<Byte>)
    ensures var k := FirstCrlf(bs);
            if k == |bs| then NoCrlf(bs) else CrlfAt(bs, k) && NoCrlf(bs[..k + 1])
  {
    if bs != [] && !CrlfAt(bs, 0) {
      FirstCrlfIsFirst(bs[1..]);
      var k := FirstCrlf(bs[1..]);
      assert k + 1 < |bs| ==> bs[..k + 2][1..] == bs[1..][..k + 1];
      NoCrlfCons(if k + 1 < |bs| then bs[..k + 2] else bs);
    }
  }

  lemma NoCrlfCons(bs: seq<Byte>)
    requires bs != [] && NoCrlf(bs[1..]) && !CrlfAt(bs, 0)
    ensures NoCrlf(bs)
  {
    forall k: nat ensures !CrlfAt(bs, k) {
      if k > 0 {
        assert !CrlfAt(bs[1..], k - 1);
      }
    }
  }

  datatype LineResult = Line(text: seq<Byte>) | TooLong | LineFailed

  /** A line of at most 8190 bytes and its CRLF; or all there is before the end. */
  function LineOf(s: Stream): (LineResult, Stream) {
    var k := FirstCrlf(s.bytes);
    if k < |s.bytes| && k + 2 <= LINE_SIZE then (Line(s.bytes[..k]), Drop(s, k + 2))
    else if |s.bytes| >= LINE_SIZE then (TooLong, Drop(s, LINE_SIZE))
    else match s.after
      case Eof => (Line(s.bytes), NOTHING)
      case Lost(rest) => (LineFailed, rest)
  }

  datatype TakeResult = Taken(bytes: seq<Byte>) | TakeFailed

  /** The next `n` bytes, or all there are before the end. */
  function TakeOf(n: nat, s: Stream): (TakeResult, Stream) {
    if n <= |s.bytes| then (Taken(s.bytes[..n]), Drop(s, n))
    else match s.after
      case Eof => (Taken(s.bytes), NOTHING)
      case Lost(rest) => (TakeFailed, rest)
  }

  lemma {:induction false} CrlfIsFirst(bs: seq<Byte>, k: nat)
    requires CrlfAt(bs, k) && NoCrlf(bs[..k + 1])
    ensures FirstCrlf(bs) == k
  {
    if k > 0 {
      assert !CrlfAt(bs[..k + 1], 0);
      forall j: nat ensures !CrlfAt(bs[1..][..k], j) {
        assert !CrlfAt(bs[..k + 1], j + 1);
      }
      CrlfIsFirst(bs[1..], k - 1);
    }
  }

  lemma CrlfIsFar(bs: seq<Byte>, n: nat)
    requires n <= |bs| && NoCrlf(bs[..n])
    ensures FirstCrlf(bs) == |bs| || FirstCrlf(bs) + 2 > n
  {
    var f := FirstCrlf(bs);
    FirstCrlfIsFirst(bs);
    assert f + 2 <= n && f < |bs| ==> CrlfAt(bs[..n], f);
  }

  lemma PrependNothing(s: Stream)
    ensures Prepend([], s) == s
  {
    assert [] + s.bytes == s.bytes;
  }

  lemma PrependTwice(a: seq<Byte>, b: seq<Byte>, s: Stream)
    ensures Prepend(a, Prepend(b, s)) == Prepend(a + b, s)
    ensures b == [] ==> Prepend(b, s) == s
  {
    assert a + (b + s.bytes) == a + b + s.bytes;
  }

  lemma NoCrlfSnoc(bs: seq<Byte>, c: Byte)
    requires NoCrlf(bs) && !(bs != [] && bs[|bs| - 1] == CR && c == LF)
    ensures NoCrlf(bs + [c])
  {
    forall k: nat ensures !CrlfAt(bs + [c], k) {
      assert !CrlfAt(bs, k);
    }
  }

  /** What the scan of a line can have come to after the bytes `all` of it. */
  ghost predicate Stopped(r: LineResult, all: seq<Byte>) {
    match r
    case Line(t) => all == t + [CR, LF] && |all| <= LINE_SIZE && NoCrlf(t + [CR])
    case TooLong => |all| == LINE_SIZE && NoCrlf(all)
    case LineFailed => false
  }

  lemma StoppedIsLineOf(r: LineResult, all: seq<Byte>, s: Stream, left: Stream)
    requires Stopped(r, all) && s == Prepend(all, left)
    ensures LineOf(s) == (r, left)
  {
    assert s.bytes[|all|..] == left.bytes && s.bytes[..|all|] == all;
    match r
    case Line(t) =>
      assert s.bytes[..|t| + 1] == t + [CR] && s.bytes[..|t|] == t;
      CrlfIsFirst(s.bytes, |t|);
    case TooLong => CrlfIsFar(s.bytes, LINE_SIZE);
  }

  /** What is left when a refill of an empty buffer gives no bytes. */
  ghost predicate AtEnd(before: Stream, eof: bool, left: Stream) {
    if eof then before == left == NOTHING else before == Stream([], Lost(left))
  }

  /** The stream ended, or failed, inside a line. */
  lemma LineAtEnd(s: Stream, acc: seq<Byte>, before: Stream, eof: bool, left: Stream)
    requires |acc| < LINE_SIZE && NoCrlf(acc) && s == Prepend(acc, before) && AtEnd(before, eof, left)
    ensures LineOf(s) == (if eof then Line(acc) else LineFailed, left)
  {
    assert acc + [] == acc && acc[..|acc|] == acc;
    CrlfIsFar(acc, |acc|);
  }

  /** The stream ended, or failed, before `n` bytes were there. */
  lemma TakeAtEnd(n: nat, s: Stream, acc: seq<Byte>, before: Stream, eof: bool, left: Stream)
    requires |acc| < n && s == Prepend(acc, before) && AtEnd(before, eof, left)
    ensures TakeOf(n, s) == (if eof then Taken(acc) else TakeFailed, left)
  {
    assert acc + [] == acc;
  }

  lemma TakeIsDone(s: Stream, acc: seq<Byte>, left: Stream)
    requires s == Prepend(acc, left)
    ensures TakeOf(|acc|, s) == (Taken(acc), left)
  {
    assert s.bytes[..|acc|] == acc && s.bytes[|acc|..] == left.bytes;
  }

  /** Some of the buffered bytes have been read. */
  lemma Ate(s: Stream, known: seq<Byte>, eaten: seq<Byte>, left: seq<Byte>, flat: Stream)
    requires s == Prepend(known, Prepend(eaten + left, flat))
    ensures s == Prepend(known + eaten, Prepend(left, flat))
  {
    assert known + (eaten + left + flat.bytes) == (known + eaten) + (left + flat.bytes);
  }

  // ── The socket and the buffer ──

  datatype Received = Bytes(bs: seq<Byte>) | WouldBlock | Error

  /** The environment: what `recv` will answer, call by call. */
  class Socket {
    var script: seq<Event>

    constructor (script: seq<Event>)
      ensures this.script == script
    {
      this.script := script;
    }

    /** `recv(fd, _, space, 0)`: at most `space` bytes of the next chunk. */
    method Recv(space: nat) returns (r: Received)
      requires space > 0
      modifies this
      ensures r.Bytes? && r.bs == [] ==> old(script) == [] && script == []
      ensures r.Bytes? && r.bs != [] ==>
        && |r.bs| <= space
        && old(script) != [] && old(script)[0].Data?
        && Flat(old(script), 0) == Prepend(r.bs, Flat(script, 0))
      ensures r.WouldBlock? ==> old(script) != [] && old(script)[0].Again? && script == old(script)[1..]
      ensures r.Error? ==> old(script) != [] && old(script)[0].Fault? && script == old(script)[1..]
    {
      if script == [] {
        return Bytes([]);
      }
      match script[0]
      case Again => r := WouldBlock; script := script[1..];
      case Fault => r := Error; script := script[1..];
      case Data(bs) =>
        if |bs| <= space {
          r := Bytes(bs);
          script := script[1..];
        } else {
          r := Bytes(bs[..space]);
          assert bs[..space] + bs[space..] == bs;
          script := [Data(bs[space..])] + script[1..];
          assert script[1..] == old(script)[1..];
        }
    }

    /** The retries of one refill: EAGAINs are passed over, but not four in a row. */
    method RecvPatiently(space: nat) returns (r: Received)
      requires space > 0
      modifies this
      ensures !r.WouldBlock?
      ensures r.Bytes? ==> |r.bs| <= space && old(Flat(script, 0)) == Prepend(r.bs, Flat(script, 0))
      ensures r.Bytes? ==> (r.bs == [] <==> old(Flat(script, 0)) == NOTHING)
      ensures r.Error? ==> old(Flat(script, 0)) == Stream([], Lost(Flat(script, 0)))
    {
      for retry := 0 to ATTEMPTS
        invariant retry < ATTEMPTS ==> Flat(script, retry) == old(Flat(script, 0))
        invariant retry == ATTEMPTS ==> old(Flat(script, 0)) == Stream([], Lost(Flat(script, 0)))
      {
        ghost var before := script;
        r := Recv(space);
        if !r.WouldBlock? {
          return;
        }
        assert before[0] == Again;
      }
      return Error;
    }
  }

  class RecvBuffer {
    const buf: array<Byte>
    const sock: Socket
    var pos: nat
    var len: nat

    ghost predicate Valid()
      reads this
    {
      buf.Length == RECVBUF_SIZE && pos <= len <= RECVBUF_SIZE
    }

    /** The bytes received and not yet read. */
    ghost function Buffered(): seq<Byte>
      reads this, buf
      requires Valid()
    {
      buf[pos..len]
    }

    /** All that is still to be read, from the buffer and then from the socket. */
    ghost function Pending(): Stream
      reads this, buf, sock
      requires Valid()
    {
      Prepend(Buffered(), Flat(sock.script, 0))
    }

    constructor (sock: Socket)
      ensures Valid() && this.sock == sock && fresh(buf)
      ensures Buffered() == [] && Pending() == Flat(sock.script, 0)
    {
      this.sock := sock;
      buf := new Byte[RECVBUF_SIZE](_ => 0);
      pos, len := 0, 0;
      new;
      assert Buffered() == [];
    }

    /** Move the unread bytes to the front of the buffer. */
    method Compact()
      requires Valid()
      modifies this, buf
      ensures Valid() && pos == 0 && Buffered() == old(Buffered())
    {
      if pos > 0 && len > pos {
        var remaining := len - pos;
        forall i | 0 <= i < remaining {
          buf[i] := buf[pos + i];
        }
        len := remaining;
        pos := 0;
      } else if pos > 0 {
        pos := 0;
        len := 0;
      }
    }

    /** Copy what `recv` delivered in behind the unread bytes. */
    method Append(bs: seq<Byte>)
      requires Valid() && len + |bs| <= RECVBUF_SIZE
      modifies this`len, buf
      ensures Valid() && len == old(len) + |bs| && Buffered() == old(Buffered()) + bs
    {
      forall i | 0 <= i < |bs| {
        buf[len + i] := bs[i];
      }
      len := len + |bs|;
    }

    /** Refill from the socket: how many bytes came, 0 at end of file, -1 on error.
        With a full buffer it also answers 0; with an empty one a 0 is always the
        end of the stream. */
    method Fill() returns (n: int)
      requires Valid()
      modifies this, buf, sock
      ensures Valid() && pos == 0
      ensures -1 <= n <= RECVBUF_SIZE - |old(Buffered())|
      ensures n >= 0 ==> Pending() == old(Pending())
      ensures |Buffered()| == |old(Buffered())| + if n > 0 then n else 0
      ensures old(Buffered()) <= Buffered()
      ensures n == 0 <==> |old(Buffered())| == RECVBUF_SIZE || old(Flat(sock.script, 0)) == NOTHING
      ensures |old(Buffered())| == RECVBUF_SIZE ==> sock.script == old(sock.script)
      ensures n == -1 ==> old(Flat(sock.script, 0)) == Stream([], Lost(Flat(sock.script, 0)))
      ensures n <= 0 && old(Buffered()) == [] ==> AtEnd(old(Pending()), n == 0, Pending())
    {
      ghost var kept, flat := Buffered(), Flat(sock.script, 0);
      Compact();
      var space := RECVBUF_SIZE - len;
      if space == 0 {
        return 0;
      }
      var r := sock.RecvPatiently(space);
      if r.Error? {
        PrependNothing(Flat(sock.script, 0));
        return -1;
      }
      n := |r.bs|;
      PrependTwice(kept, r.bs, Flat(sock.script, 0));
      if n > 0 {
        Append(r.bs);
      }
    }

    /** The scan of the buffered bytes inside `ReadLine`: `lineLen0` bytes of the line
        are known, it eats some more, and `stopped` tells that it ended or is too long. */
    method Scan(line: array<Byte>, lineLen0: nat)
      returns (stopped: bool, r: LineResult, lineLen: nat, ghost eaten: seq<Byte>)
      requires Valid() && line != buf && line.Length == LINE_SIZE && lineLen0 < LINE_SIZE
      requires NoCrlf(line[..lineLen0])
      modifies this`pos, line
      ensures Valid() && lineLen < LINE_SIZE
      ensures old(Buffered()) == eaten + Buffered()
      ensures stopped ==> Stopped(r, old(line[..lineLen0]) + eaten)
      ensures !stopped ==> line[..lineLen] == old(line[..lineLen0]) + eaten && NoCrlf(line[..lineLen])
      ensures !stopped ==> Buffered() == []
    {
      stopped, r, lineLen, eaten := false, TooLong, lineLen0, [];
      ghost var known, have, p0 := line[..lineLen0], Buffered(), pos;
      while pos < len
        invariant Valid() && p0 <= pos && lineLen < LINE_SIZE
        invariant eaten == have[..pos - p0] && line[..lineLen] == known + eaten && NoCrlf(known + eaten)
      {
        var c := buf[pos];
        ghost var all := known + eaten;
        pos := pos + 1;
        eaten := eaten + [c];
        assert known + eaten == all + [c];
        if lineLen > 0 && line[lineLen - 1] == CR && c == LF {
          assert all == line[..lineLen - 1] + [CR];
          return true, Line(line[..lineLen - 1]), lineLen, eaten;
        }
        NoCrlfSnoc(all, c);
        if lineLen < LINE_SIZE - 1 {
          line[lineLen] := c;
          lineLen := lineLen + 1;
          assert line[..lineLen] == all + [c];
        } else {
          return true, TooLong, lineLen, eaten;
        }
      }
    }

    /** One CRLF-terminated line, as the simple reader reads it. */
    method ReadLine() returns (r: LineResult)
      requires Valid()
      modifies this, buf, sock
      ensures Valid()
      ensures (r, Pending()) == LineOf(old(Pending()))
    {
      var line := new Byte[LINE_SIZE];
      var lineLen: nat := 0;
      var stopped := false;
      ghost var s := Pending();
      PrependNothing(s);
      while true
        invariant Valid() && lineLen < LINE_SIZE && fresh(line)
        invariant s == Prepend(line[..lineLen], Pending()) && NoCrlf(line[..lineLen])
        decreases |Pending().bytes|, if pos < len then 0 else 1
      {
        ghost var known, eaten := line[..lineLen], [];
        stopped, r, lineLen, eaten := Scan(line, lineLen);
        Ate(s, known, eaten, Buffered(), Flat(sock.script, 0));
        if stopped {
          StoppedIsLineOf(r, known + eaten, s, Pending());
          return;
        }
        ghost var before := Pending();  // the buffer is empty, so a 0 is the end of the stream
        var n := Fill();
        if n <= 0 {
          LineAtEnd(s, line[..lineLen], before, n == 0, Pending());
          return if n < 0 then LineFailed else Line(line[..lineLen]);
        }
      }
    }

    /** Copy out as many unread bytes as there are, and as are still wanted. */
    method DrainTo(dst: array<Byte>, total0: nat, n: nat) returns (total: nat, ghost eaten: seq<Byte>)
      requires Valid() && dst != buf && total0 < n <= dst.Length
      modifies this`pos, dst
      ensures Valid() && total == total0 + |eaten| && total <= n
      ensures old(Buffered()) == eaten + Buffered()
      ensures dst[..total] == old(dst[..total0]) + eaten
      ensures total < n ==> Buffered() == []
    {
      total, eaten := total0, [];
      var avail := len - pos;
      if avail > 0 {
        var toCopy := if avail < n - total then avail else n - total;
        eaten := Buffered()[..toCopy];
        forall i | 0 <= i < toCopy {
          dst[total + i] := buf[pos + i];
        }
        pos := pos + toCopy;
        total := total + toCopy;
        assert dst[total0..total] == eaten;
        assert dst[..total] == dst[..total0] + eaten;
      }
    }

    /** Exactly `n` bytes, or all there are before the end of the stream. */
    method ReadN(n: nat) returns (r: TakeResult)
      requires Valid()
      modifies this, buf, sock
      ensures Valid()
      ensures (r, Pending()) == TakeOf(n, old(Pending()))
    {
      var dst := new Byte[n];
      var total: nat := 0;
      ghost var s, acc := Pending(), [];
      PrependNothing(s);
      while total < n
        invariant Valid() && total <= n && fresh(dst)
        invariant acc == dst[..total] && s == Prepend(acc, Pending())
        decreases n - total, if pos < len then 0 else 1
      {
        ghost var known, eaten := acc, [];
        total, eaten := DrainTo(dst, total, n);
        acc := known + eaten;
        Ate(s, known, eaten, Buffered(), Flat(sock.script, 0));
        if total < n {
          ghost var before := Pending();  // the buffer is empty, so a 0 is the end of the stream
          var nr := Fill();
          if nr <= 0 {
            TakeAtEnd(n, s, acc, before, nr == 0, Pending());
            return if nr < 0 then TakeFailed else Taken(dst[..total]);
          }
        }
      }
      TakeIsDone(s, acc, Pending());
      return Taken(dst[..n]);
    }
  }
}
