/**
 What ffi/zlib.c relies on in zlib: one call of `inflate` or `deflate` on a
 `z_stream`, known only through its documented contract.
 */
module ZlibCodec {
  import opened Common

  /** LINEN_ZLIB_CHUNK: the output space offered to every call. */
  const CHUNK := 16384

  datatype Flush = NoFlush | Finish
  datatype Ret = StreamEnd | Ok | BufError | Failure

  /** What a call did: how much input it used, what it wrote, what it returned. */
  datatype Step = Step(used: nat, out: seq<Byte>, ret: Ret)

  /** A `z_stream`: all it has consumed, all it has written, and whether a call on it failed. */
  datatype History = History(eaten: seq<Byte>, emitted: seq<Byte>, broken: bool)

  datatype Status = More | End | Bad

  /**
   The library. `plain(x)` is what the compressed bytes `x` decompress to so far, and
   `status(x)` whether `x` is an unfinished stream, a whole one, or no stream at all;
   bytes after the end of a stream change neither. `limit(n)` bounds the compressed
   size of `n` bytes. `inflate` and `deflate` are any functions of the stream's history
   and of the call's arguments that keep the contracts below; `live` are the histories a
   deflate stream can have before it ends.
   */
  datatype Codec = Codec(
    plain: seq<Byte> -> seq<Byte>,
    status: seq<Byte> -> Status,
    limit: nat -> nat,
    live: History -> bool,
    inflate: (History, seq<Byte>, Flush) -> Step,
    deflate: (History, seq<Byte>, Flush) -> Step
  )

  function After(h: History, input: seq<Byte>, s: Step): History
    requires s.used <= |input|
  {
    History(h.eaten + input[..s.used], h.emitted + s.out, h.broken || s.ret == Failure)
  }

  /** All the input is used and all the output it determines is written. */
  ghost predicate Drained(c: Codec, h: History) {
    h.emitted == c.plain(h.eaten) && c.status(h.eaten) == More
  }

  /** `inflate` stops when the input is used up, the output space is full, the stream
      has ended, or the input is no stream. Under Z_FINISH, Z_BUF_ERROR stands for Z_OK. */
  ghost predicate InflateKeeps(c: Codec, h: History, input: seq<Byte>, flush: Flush, s: Step) {
    && s.used <= |input| && |s.out| <= CHUNK
    && var next := After(h, input, s);
    && next.emitted <= c.plain(next.eaten)
    && match s.ret
       case StreamEnd => c.status(next.eaten) == End && next.emitted == c.plain(next.eaten)
       case Failure => c.status(next.eaten) == Bad
       case Ok => flush == NoFlush && (|s.out| == CHUNK || (s.used == |input| && Drained(c, next)))
       case BufError =>
         if flush == NoFlush then s.out == [] && input == [] && Drained(c, next)
         else |s.out| == CHUNK || (s.used == |input| && Drained(c, next))
  }

  /** `deflate` may hold output back until Z_FINISH, which ends a stream that decompresses
      to all the input. An error leaves the stream broken. */
  ghost predicate DeflateKeeps(c: Codec, h: History, input: seq<Byte>, flush: Flush, s: Step) {
    && s.used <= |input| && |s.out| <= CHUNK
    && var next := After(h, input, s);
    && |next.emitted| <= c.limit(|next.eaten|)
    && match s.ret
       case StreamEnd =>
         flush == Finish && s.used == |input|
         && c.status(next.emitted) == End && c.plain(next.emitted) == next.eaten
       case Failure => true
       case Ok => |s.out| == CHUNK || (flush == NoFlush && s.used == |input|)
       case BufError => if flush == NoFlush then s.out == [] && input == [] else |s.out| == CHUNK
  }

  ghost predicate FormatLaws(c: Codec) {
    && c.plain([]) == [] && c.status([]) == More
    && (forall x, y :: c.plain(x) <= c.plain(x + y))
    && (forall x, y :: c.status(x) != More ==> c.status(x + y) == c.status(x) && c.plain(x + y) == c.plain(x))
    && (forall m: nat, n: nat | m <= n :: c.limit(m) <= c.limit(n))
  }

  ghost predicate InflateLaws(c: Codec) {
    forall h: History, input, flush | h.emitted <= c.plain(h.eaten) ::
      if h.broken then c.inflate(h, input, flush) == Step(0, [], Failure)
      else InflateKeeps(c, h, input, flush, c.inflate(h, input, flush))
  }

  ghost predicate DeflateLaws(c: Codec) {
    && c.live(FRESH)
    && forall h: History, input, flush | c.live(h) || h.broken ::
         var s := c.deflate(h, input, flush);
         if h.broken then s == Step(0, [], Failure)
         else DeflateKeeps(c, h, input, flush, s) && (s.ret in {Ok, BufError} ==> c.live(After(h, input, s)))
  }

  ghost predicate Lawful(c: Codec) {
    FormatLaws(c) && InflateLaws(c) && DeflateLaws(c)
  }

  /** `deflate` on a stream in order never fails, as zlib documents. */
  ghost predicate Sturdy(c: Codec) {
    forall h: History, input, flush | c.live(h) && !h.broken :: c.deflate(h, input, flush).ret != Failure
  }

  const FRESH := History([], [], false)

  /** The object ffi/zlib.c keeps a `z_stream` in: its history, the input it was given
      and has not used, and whether `inflateEnd`/`deflateEnd` released it. No call is
      possible after that. */
  class ZStream {
    const lib: Codec
    var hist: History
    var nextIn: seq<Byte>
    var ended: bool

    constructor (lib: Codec)
      ensures this.lib == lib && hist == FRESH && nextIn == [] && !ended
    {
      this.lib := lib;
      hist, nextIn, ended := FRESH, [], false;
    }

    method Inflate(flush: Flush) returns (out: seq<Byte>, ret: Ret)
      requires !ended && Lawful(lib) && hist.emitted <= lib.plain(hist.eaten)
      modifies this`hist, this`nextIn
      ensures |out| <= CHUNK && hist.emitted == old(hist).emitted + out
      ensures hist.eaten + nextIn == old(hist).eaten + old(nextIn) && |nextIn| <= |old(nextIn)|
      ensures hist.emitted <= lib.plain(hist.eaten) <= lib.plain(hist.eaten + nextIn)
      ensures hist.broken == (ret == Failure)
      ensures old(hist).broken ==> ret == Failure
      ensures ret == StreamEnd ==> lib.status(hist.eaten) == End && hist.emitted == lib.plain(hist.eaten)
      ensures ret == Failure ==> old(hist).broken || lib.status(hist.eaten) == Bad
      ensures ret == Ok ==> |out| == CHUNK || (nextIn == [] && Drained(lib, hist))
      ensures ret == BufError && flush == NoFlush ==> nextIn == [] && Drained(lib, hist)
      ensures ret == BufError && flush == Finish ==> |out| == CHUNK || (nextIn == [] && Drained(lib, hist))
      ensures flush == Finish ==> ret != Ok
    {
      var s := lib.inflate(hist, nextIn, flush);
      InflateStep(lib, hist, nextIn, flush);
      hist, nextIn := After(hist, nextIn, s), nextIn[s.used..];
      return s.out, s.ret;
    }

    method Deflate(flush: Flush) returns (out: seq<Byte>, ret: Ret)
      requires !ended && Lawful(lib) && (lib.live(hist) || hist.broken)
      modifies this`hist, this`nextIn
      ensures |out| <= CHUNK && hist.emitted == old(hist).emitted + out
      ensures hist.eaten + nextIn == old(hist).eaten + old(nextIn) && |nextIn| <= |old(nextIn)|
      ensures hist.broken == (ret == Failure)
      ensures old(hist).broken ==> ret == Failure
      ensures ret == Failure ==> old(hist).broken || !Sturdy(lib)
      ensures ret in {Ok, BufError} ==> lib.live(hist)
      ensures ret != Failure ==> |hist.emitted| <= lib.limit(|hist.eaten + nextIn|)
      ensures ret == StreamEnd ==>
                flush == Finish && nextIn == [] && lib.status(hist.emitted) == End && lib.plain(hist.emitted) == hist.eaten
      ensures ret in {Ok, BufError} ==> |out| == CHUNK || (flush == NoFlush && nextIn == [])
    {
      var s := lib.deflate(hist, nextIn, flush);
      DeflateStep(lib, hist, nextIn, flush);
      hist, nextIn := After(hist, nextIn, s), nextIn[s.used..];
      return s.out, s.ret;
    }

    /** `inflateEnd` or `deflateEnd`. */
    method Release()
      requires !ended
      modifies this`ended
      ensures ended
    {
      ended := true;
    }
  }

  /** A call moves input to the history and no more. */
  lemma Split(h: History, input: seq<Byte>, used: nat)
    requires used <= |input|
    ensures h.eaten + input[..used] + input[used..] == h.eaten + input
  {
    assert input[..used] + input[used..] == input;
  }

  lemma InflateStep(c: Codec, h: History, input: seq<Byte>, flush: Flush)
    requires Lawful(c) && h.emitted <= c.plain(h.eaten)
    ensures var s := c.inflate(h, input, flush);
            && s.used <= |input| && |s.out| <= CHUNK
            && h.eaten + input[..s.used] + input[s.used..] == h.eaten + input
            && After(h, input, s).emitted <= c.plain(After(h, input, s).eaten) <= c.plain(h.eaten + input)
            && if h.broken then s == Step(0, [], Failure) else InflateKeeps(c, h, input, flush, s)
  {
    var s := c.inflate(h, input, flush);
    assert h.broken || InflateKeeps(c, h, input, flush, s);
    assert h.eaten + [] == h.eaten && input[..0] == [] && h.emitted + [] == h.emitted;
    Split(h, input, s.used);
    assert c.plain(h.eaten + input[..s.used]) <= c.plain(h.eaten + input[..s.used] + input[s.used..]);
  }

  lemma DeflateStep(c: Codec, h: History, input: seq<Byte>, flush: Flush)
    requires Lawful(c) && (c.live(h) || h.broken)
    ensures var s := c.deflate(h, input, flush);
            && s.used <= |input| && |s.out| <= CHUNK
            && h.eaten + input[..s.used] + input[s.used..] == h.eaten + input
            && (s.ret == Failure ==> h.broken || !Sturdy(c))
            && (s.ret in {Ok, BufError} ==> c.live(After(h, input, s)))
            && if h.broken then s == Step(0, [], Failure)
               else DeflateKeeps(c, h, input, flush, s) && |After(h, input, s).emitted| <= c.limit(|h.eaten + input|)
  {
    var s := c.deflate(h, input, flush);
    assert h.broken || DeflateKeeps(c, h, input, flush, s);
    Split(h, input, s.used);
    if !h.broken {
      assert c.limit(|After(h, input, s).eaten|) <= c.limit(|h.eaten + input|);
    }
  }
}
