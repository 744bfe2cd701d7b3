/**
 `sendall` of ffi/network.c, and a message sent with it and read back through a
 RecvBuffer, for every pattern of partial sends and of receive chunks.
 */
module Channels {
  import opened Common
  import opened RecvBuffers
  import opened Readers

  /** One answer of `send`: it takes up to `n` bytes (none at all when `n` is 0), or fails. */
  datatype Accept = Take(n: nat) | Refuse

  /** The sending end: what `send` will answer, and the bytes it has accepted. A plan
      that has run out takes all it is given. */
  class Wire {
    var plan: seq<Accept>
    var sent: seq<Byte>

    constructor (plan: seq<Accept>)
      ensures this.plan == plan && sent == []
    {
      this.plan, sent := plan, [];
    }

    /** `send(fd, rest, |rest|, 0)`. */
    method Send(rest: seq<Byte>) returns (n: int)
      requires rest != []
      modifies this
      ensures -1 <= n <= |rest|
      ensures sent == old(sent) + if n > 0 then rest[..n] else []
      ensures plan == if old(plan) == [] then [] else old(plan)[1..]
      ensures n == -1 <==> old(plan) != [] && old(plan)[0] == Refuse
      ensures n == 0 <==> old(plan) != [] && old(plan)[0] == Take(0)
    {
      if plan == [] {
        n := |rest|;
      } else {
        match plan[0] {
          case Refuse => n := -1;
          case Take(k) => n := if k <= |rest| then k else |rest|;
        }
        plan := plan[1..];
      }
      sent := sent + if n > 0 then rest[..n] else [];
    }
  }

  datatype SendResult = Sent | SendFailed | ConnectionClosed

  /** All of `data`, or an error after a proper prefix of it. It stops at the first
      answer that refuses, and only there: `used` answers were used. */
  method SendAll(w: Wire, data: seq<Byte>) returns (r: SendResult, ghost used: nat)
    modifies w
    ensures r == Sent ==> w.sent == old(w.sent) + data
    ensures r != Sent ==> exists k: nat | k < |data| :: w.sent == old(w.sent) + data[..k]
    ensures used <= |old(w.plan)| && w.plan == old(w.plan)[used..]
    ensures r == Sent ==> forall i | 0 <= i < used :: old(w.plan)[i] !in {Refuse, Take(0)}
    ensures r != Sent ==> used > 0 && old(w.plan)[used - 1] == if r == SendFailed then Refuse else Take(0)
    ensures r != Sent ==> forall i | 0 <= i < used - 1 :: old(w.plan)[i] !in {Refuse, Take(0)}
  {
    var total: nat := 0;
    used := 0;
    while total < |data|
      invariant total <= |data|
      invariant w.sent == old(w.sent) + data[..total]
      invariant used <= |old(w.plan)| && w.plan == old(w.plan)[used..]
      invariant forall i | 0 <= i < used :: old(w.plan)[i] !in {Refuse, Take(0)}
    {
      ghost var left := w.plan;
      var n := w.Send(data[total..]);
      used := used + if left == [] then 0 else 1;
      if n < 0 {
        return SendFailed, used;
      }
      if n == 0 {
        return ConnectionClosed, used;
      }
      assert data[..total] + data[total..][..n] == data[..total + n];
      total := total + n;
    }
    return Sent, used;
  }

  // ── A message of lines, an empty line and a body ──

  predicate SendableLine(l: seq<Byte>) {
    l != [] && |l| + 2 <= LINE_SIZE && FirstCrlf(l) == |l|
  }

  function Rendered(lines: seq<seq<Byte>>, body: seq<Byte>): seq<Byte> {
    if lines == [] then [CR, LF] + body
    else lines[0] + [CR, LF] + Rendered(lines[1..], body)
  }

  predicate Willing(plan: seq<Accept>) {
    forall i | 0 <= i < |plan| :: plan[i] !in {Refuse, Take(0)}
  }

  method SendMessage(w: Wire, lines: seq<seq<Byte>>, body: seq<Byte>) returns (ok: bool)
    modifies w
    ensures old(w.sent) <= w.sent <= old(w.sent) + Rendered(lines, body)
    ensures ok ==> w.sent == old(w.sent) + Rendered(lines, body)
    ensures Willing(old(w.plan)) ==> ok
  {
    ghost var start, all := w.sent, Rendered(lines, body);
    for i := 0 to |lines|
      invariant Willing(old(w.plan)) ==> Willing(w.plan)
      invariant start <= w.sent && w.sent + Rendered(lines[i..], body) == start + all
    {
      ghost var before := w.sent;
      var r, _ := SendAll(w, lines[i] + [CR, LF]);
      PartSent(before, lines[i] + [CR, LF], Rendered(lines[i + 1..], body), w.sent);
      assert lines[i..][1..] == lines[i + 1..];
      if r != Sent {
        return false;
      }
    }
    assert lines[|lines|..] == [];
    ghost var before := w.sent;
    var blank, _ := SendAll(w, [CR, LF]);
    PartSent(before, [CR, LF], body, w.sent);
    if blank != Sent {
      return false;
    }
    ghost var headSent := w.sent;
    var last, _ := SendAll(w, body);
    PartSent(headSent, body, [], w.sent);
    return last == Sent;
  }

  /** Some of `piece`, or all of it, has been sent, and `tail` is to follow. */
  lemma PartSent(before: seq<Byte>, piece: seq<Byte>, tail: seq<Byte>, now: seq<Byte>)
    requires now == before + piece || exists k: nat | k < |piece| :: now == before + piece[..k]
    ensures before <= now <= before + (piece + tail)
    ensures now == before + piece ==> now + tail == before + (piece + tail)
  {
  }

  datatype Message = Message(lines: seq<seq<Byte>>, body: seq<Byte>) | Incomplete

  /** Lines up to an empty one, and then `n` bytes. */
  function MessageOf(n: nat, s: Stream): (Message, Stream)
    decreases |s.bytes|
  {
    var (r, rest) := LineOf(s);
    match r
    case Line(t) =>
      if t == [] then
        var (b, left) := TakeOf(n, rest);
        (if b.Taken? then Message([], b.bytes) else Incomplete, left)
      else
        var (m, left) := MessageOf(n, rest);
        (if m.Message? then Message([t] + m.lines, m.body) else Incomplete, left)
    case _ => (Incomplete, rest)
  }

  /** Reading inverts sending, whatever follows on the channel. */
  lemma {:induction false} RenderedIsRead(lines: seq<seq<Byte>>, body: seq<Byte>, rest: Stream)
    requires forall l | l in lines :: SendableLine(l)
    ensures MessageOf(|body|, Prepend(Rendered(lines, body), rest)) == (Message(lines, body), rest)
  {
    if lines == [] {
      EmptyLineIsRead(body, rest);
    } else {
      assert SendableLine(lines[0]);
      LineThenRest(lines[0], Rendered(lines[1..], body), rest);
      RenderedIsRead(lines[1..], body, rest);
      assert [lines[0]] + lines[1..] == lines;
    }
  }

  lemma EmptyLineIsRead(body: seq<Byte>, rest: Stream)
    ensures MessageOf(|body|, Prepend([CR, LF] + body, rest)) == (Message([], body), rest)
  {
    EmptyLineThenRest(body, rest);
    TakeIsDone(Prepend(body, rest), body, rest);
  }

  lemma EmptyLineThenRest(after: seq<Byte>, rest: Stream)
    ensures LineOf(Prepend([CR, LF] + after, rest)) == (Line([]), Prepend(after, rest))
  {
    assert [] + [CR, LF] + after == [CR, LF] + after;
    LineThenRest([], after, rest);
  }

  lemma LineThenRest(l: seq<Byte>, after: seq<Byte>, rest: Stream)
    requires |l| + 2 <= LINE_SIZE && FirstCrlf(l) == |l|
    ensures LineOf(Prepend(l + [CR, LF] + after, rest)) == (Line(l), Prepend(after, rest))
  {
    FirstCrlfIsFirst(l);
    forall k: nat ensures !CrlfAt(l + [CR], k) {
      assert !CrlfAt(l, k);
    }
    assert l + [CR, LF] + after + rest.bytes == (l + [CR, LF]) + (after + rest.bytes);
    WholeLineIsRead(Prepend(l + [CR, LF] + after, rest), l, Prepend(after, rest));
  }

  method ReceiveMessage(rb: RecvBuffer, n: nat) returns (m: Message)
    requires rb.Valid()
    modifies rb, rb.buf, rb.sock
    ensures rb.Valid()
    ensures (m, rb.Pending()) == MessageOf(n, old(rb.Pending()))
  {
    var lines: seq<seq<Byte>> := [];
    ghost var goal := MessageOf(n, rb.Pending());
    AfterNone(goal);
    while true
      invariant rb.Valid()
      invariant goal == After(lines, MessageOf(n, rb.Pending()))
      decreases |rb.Pending().bytes|
    {
      ghost var before := rb.Pending();
      var r := rb.ReadLine();
      if !r.Line? {
        return Incomplete;
      }
      if r.text == [] {
        var b := rb.ReadN(n);
        assert lines + [] == lines;
        return if b.Taken? then Message(lines, b.bytes) else Incomplete;
      }
      AfterOne(n, lines, r.text, before, rb.Pending());
      lines := lines + [r.text];
    }
  }

  /** A message whose first lines, `lines`, have been read. */
  ghost function After(lines: seq<seq<Byte>>, r: (Message, Stream)): (Message, Stream) {
    (if r.0.Message? then Message(lines + r.0.lines, r.0.body) else Incomplete, r.1)
  }

  lemma AfterNone(r: (Message, Stream))
    ensures After([], r) == r
  {
    assert r.0.Message? ==> [] + r.0.lines == r.0.lines;
  }

  lemma AfterOne(n: nat, lines: seq<seq<Byte>>, t: seq<Byte>, s: Stream, rest: Stream)
    requires LineOf(s) == (Line(t), rest) && t != []
    ensures |rest.bytes| < |s.bytes|
    ensures After(lines, MessageOf(n, s)) == After(lines + [t], MessageOf(n, rest))
  {
    var m := MessageOf(n, rest).0;
    if m.Message? {
      assert lines + ([t] + m.lines) == lines + [t] + m.lines;
    }
  }

  /** What a channel may do with the bytes it has accepted: cut them into any chunks, with
      transient EAGAINs between them. */
  ghost predicate Delivers(deliver: seq<Byte> -> seq<Event>) {
    forall bs :: Transient(deliver(bs), 0) && Payload(deliver(bs)) == bs
  }

  /** End to end, for every pattern of partial sends, every way to deliver and anything
      behind: the receiver reads what its simple reader reads of the accepted bytes, and
      so exactly the message when all of it was sent. */
  method Exchange(lines: seq<seq<Byte>>, body: seq<Byte>, plan: seq<Accept>, behind: seq<Byte>,
                  deliver: seq<Byte> -> seq<Event>)
    returns (sent: bool, accepted: seq<Byte>, m: Message)
    requires (forall l | l in lines :: SendableLine(l)) && Delivers(deliver)
    ensures Willing(plan) ==> sent
    ensures accepted <= Rendered(lines, body) && (sent ==> accepted == Rendered(lines, body))
    ensures m == MessageOf(|body|, Flat(deliver(accepted + behind), 0)).0
    ensures m == MessageOf(|body|, Stream(accepted + behind, Eof)).0
    ensures sent ==> m == Message(lines, body)
  {
    var w := new Wire(plan);
    sent := SendMessage(w, lines, body);
    accepted := w.sent;
    var sock := new Socket(deliver(accepted + behind));
    var rb := new RecvBuffer(sock);
    m := ReceiveMessage(rb, |body|);
    FlatOfTransient(deliver(accepted + behind), 0);
    RenderedIsRead(lines, body, Stream(behind, Eof));
    assert Prepend(Rendered(lines, body), Stream(behind, Eof)) == Stream(Rendered(lines, body) + behind, Eof);
  }
}
