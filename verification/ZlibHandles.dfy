/**
 The inflate and deflate handles of ffi/zlib.c: feed, finish and finalizer, with the
 `initialized` and `finished` flags, each proved against a small state machine.
 */
module ZlibHandles {
  import opened Common
  import opened ZlibCodec
  import opened ZlibDrive

  const UINT_RANGE := 0x1_0000_0000

  /** `avail_in = (uInt)len` keeps the length modulo 2^32: what a call sees of its input. */
  function Seen(data: seq<Byte>): seq<Byte> {
    data[..|data| % UINT_RANGE]
  }

  datatype Result = Out(bytes: seq<Byte>) | Err

  // ── Inflate ──

  /** Open: between feeds. Ended: a feed met the end of the stream. Broken: a feed failed.
      Closed: finish was called before any end. */
  datatype Phase = Open | Ended | Broken | Closed

  datatype InflateState = InflateState(phase: Phase, fed: seq<Byte>)

  /** One feed, in terms of all that has been fed. */
  function Fed(c: Codec, s: InflateState, data: seq<Byte>): (InflateState, Result) {
    match s.phase
    case Closed => (s, Out([]))
    case Broken => (InflateState(Broken, s.fed + Seen(data)), Err)
    case _ =>
      var all := s.fed + Seen(data);
      match c.status(all)
      case Bad => (InflateState(Broken, all), Err)
      case End => (InflateState(Ended, all), Out(New(c, s.fed, all)))
      case More => (InflateState(Open, all), Out(New(c, s.fed, all)))
  }

  /** What `all` decompresses to beyond what its prefix `some` does. */
  function New(c: Codec, some: seq<Byte>, all: seq<Byte>): seq<Byte> {
    var n := |c.plain(some)|;
    if n <= |c.plain(all)| then c.plain(all)[n..] else []
  }

  /** Finish never has any output: a successful feed leaves nothing behind. */
  function Finished(s: InflateState): (InflateState, Result) {
    match s.phase
    case Open => (InflateState(Closed, s.fed), Out([]))
    case Broken => (InflateState(Closed, s.fed), Err)
    case _ => (s, Out([]))
  }

  class Inflater {
    const strm: ZStream
    var initialized: bool
    var finished: bool
    ghost var state: InflateState

    ghost predicate Valid()
      reads this, strm
    {
      && Lawful(strm.lib)
      && strm.ended == !initialized
      && finished == (state.phase in {Ended, Closed})
      && initialized == (state.phase != Closed)
      && strm.hist.emitted <= strm.lib.plain(strm.hist.eaten)
      && match state.phase
         case Open =>
           && !strm.hist.broken && strm.hist.eaten == state.fed
           && Drained(strm.lib, strm.hist)
         case Ended => strm.lib.status(state.fed) == End
         case Broken => strm.hist.broken
         case Closed => true
    }

    constructor (lib: Codec)
      requires Lawful(lib)
      ensures Valid() && fresh(strm) && strm.lib == lib && state == InflateState(Open, [])
    {
      strm := new ZStream(lib);
      initialized, finished := true, false;
      state := InflateState(Open, []);
    }

    method Feed(data: seq<Byte>) returns (r: Result)
      requires Valid()
      modifies this, strm
      ensures Valid() && (state, r) == Fed(strm.lib, old(state), data)
    {
      ghost var c := strm.lib;
      ghost var was, next := state.phase, Fed(c, state, data).0;
      if finished {
        if state.phase == Ended {
          PastTheEnd(c, state.fed, Seen(data));
          assert New(c, state.fed, state.fed + Seen(data)) == [];
        }
        state := next;
        return Out([]);
      }
      strm.nextIn := data[..|data| % UINT_RANGE];
      var out := new OutBuf();
      var ok, streamEnded, made := DriveInflate(strm, NoFlush, out);
      if was != Broken {
        FeedOutcome(c, state.fed, Seen(data), strm.hist, strm.nextIn, ok, streamEnded);
      }
      if !ok {
        state := next;
        return Err;
      }
      finished := streamEnded;
      assert c.plain(state.fed) <= c.plain(state.fed + Seen(data));
      assert out.Contents() == New(c, state.fed, state.fed + Seen(data));
      state := next;
      return Out(out.data[..out.len]);
    }

    method FinishStream() returns (r: Result)
      requires Valid()
      modifies this, strm
      ensures Valid() && (state, r) == Finished(old(state))
      ensures r == if old(state).phase == Broken then Err else Out([])
    {
      if finished {
        return Out([]);
      }
      strm.nextIn := [];
      var out := new OutBuf();
      ghost var h0 := strm.hist;
      var ok, streamEnded, made := DriveInflate(strm, Finish, out);
      if state.phase == Open {
        NothingWasLeft(strm.lib, h0, strm.hist, strm.nextIn, made);
      }
      if initialized {
        strm.Release();
        initialized := false;
      }
      finished := true;
      state := Finished(state).0;
      if !ok {
        return Err;
      }
      assert out.Contents() == [];
      return Out(out.data[..out.len]);
    }

    /** The stream is released by now exactly when no feed met its end. */
    method Finalize()
      requires Valid()
      modifies strm
      ensures strm.ended <==> state.phase != Ended
    {
      if initialized && !finished {
        strm.Release();
      }
    }
  }

  // ── Deflate ──

  /** Live: between feeds. Failed: `deflate` returned an error. Shut: finish was called. */
  datatype DeflatePhase = Live | Failed | Shut

  /** What a deflate handle has taken in and has given out. */
  datatype DeflateState = DeflateState(phase: DeflatePhase, fed: seq<Byte>, given: seq<Byte>)

  class Deflater {
    const strm: ZStream
    var initialized: bool
    var finished: bool
    ghost var state: DeflateState

    ghost predicate Valid()
      reads this, strm
    {
      && Lawful(strm.lib)
      && strm.ended == !initialized == finished == state.phase.Shut?
      && state.given == strm.hist.emitted && state.fed == strm.hist.eaten
      && (state.phase == Live ==> strm.lib.live(strm.hist) && !strm.hist.broken)
      && (state.phase == Failed ==> strm.hist.broken)
    }

    constructor (lib: Codec)
      requires Lawful(lib)
      ensures Valid() && fresh(strm) && strm.lib == lib && state == DeflateState(Live, [], [])
    {
      strm := new ZStream(lib);
      initialized, finished := true, false;
      state := DeflateState(Live, [], []);
    }

    /** All of what is seen of the input is taken in; what comes out is up to zlib. */
    method Feed(data: seq<Byte>) returns (r: Result)
      requires Valid()
      modifies this, strm
      ensures Valid()
      ensures old(state).phase == Shut ==> state == old(state) && r == Out([])
      ensures old(state).phase == Failed ==> r == Err
      ensures old(state).phase == Live && r.Out? ==>
                state == DeflateState(Live, old(state).fed + Seen(data), old(state).given + r.bytes)
      ensures r.Err? ==> state.phase == Failed && (old(state).phase == Failed || !Sturdy(strm.lib))
    {
      if finished {
        return Out([]);
      }
      strm.nextIn := data[..|data| % UINT_RANGE];
      var out := new OutBuf();
      ghost var h0 := strm.hist;
      var ok, streamEnded, made := DriveDeflate(strm, NoFlush, out);
      state := DeflateState(if ok then Live else Failed, strm.hist.eaten, strm.hist.emitted);
      if !ok {
        return Err;
      }
      finished := streamEnded;
      AllTakenIn(h0, Seen(data), strm.hist, made);
      r := Out(out.data[..out.len]);
      assert r.bytes == made;
    }

    /** The rest of a stream that decompresses to all that was fed. */
    method FinishStream() returns (r: Result)
      requires Valid()
      modifies this, strm
      ensures Valid() && state.phase == Shut
      ensures old(state).phase == Shut ==> state == old(state) && r == Out([])
      ensures old(state).phase == Failed ==> r == Err
      ensures old(state).phase == Live && r.Out? ==>
                state == DeflateState(Shut, old(state).fed, old(state).given + r.bytes)
      ensures old(state).phase == Live && r.Out? ==>
                strm.lib.status(state.given) == End && strm.lib.plain(state.given) == state.fed
      ensures r.Err? ==> old(state).phase == Failed || !Sturdy(strm.lib)
    {
      if finished {
        return Out([]);
      }
      strm.nextIn := [];
      var out := new OutBuf();
      ghost var h0 := strm.hist;
      var ok, streamEnded, made := DriveDeflate(strm, Finish, out);
      if initialized {
        strm.Release();
        initialized := false;
      }
      finished := true;
      state := DeflateState(Shut, strm.hist.eaten, strm.hist.emitted);
      if !ok {
        return Err;
      }
      AllTakenIn(h0, [], strm.hist, made);
      r := Out(out.data[..out.len]);
      assert r.bytes == made;
    }

    /** A deflate stream is always released. */
    method Finalize()
      requires Valid()
      modifies strm
      ensures strm.ended
    {
      if initialized && !finished {
        strm.Release();
      }
    }
  }

  /** A drained stream has nothing to give without input. */
  lemma NothingWasLeft(c: Codec, h0: History, h: History, left: seq<Byte>, made: seq<Byte>)
    requires Drained(c, h0) && Moved(h0, [], h, left, made) && h.emitted <= c.plain(h.eaten)
    ensures h.eaten == h0.eaten && h.emitted == h0.emitted && made == []
  {
    assert |h.eaten| + |left| == |h0.eaten|;
    assert h0.eaten + [] == h0.eaten;
  }

  lemma AllTakenIn(h0: History, input: seq<Byte>, h: History, made: seq<Byte>)
    requires Moved(h0, input, h, [], made)
    ensures h.eaten == h0.eaten + input && (input == [] ==> h.eaten == h0.eaten)
  {
    assert h.eaten + [] == h.eaten && h0.eaten + [] == h0.eaten;
  }

  lemma PastTheEnd(c: Codec, fed: seq<Byte>, data: seq<Byte>)
    requires Lawful(c) && c.status(fed) == End
    ensures c.status(fed + data) == End && c.plain(fed + data) == c.plain(fed)
  {
  }

  /** However a drive over `fed + data` stopped, the status of all that was fed agrees. */
  lemma FeedOutcome(c: Codec, fed: seq<Byte>, data: seq<Byte>, h: History, left: seq<Byte>, ok: bool, ended: bool)
    requires Lawful(c) && fed + data == h.eaten + left
    requires ok ==> h.emitted == c.plain(h.eaten) && c.status(h.eaten) == if ended then End else More
    requires ok && !ended ==> left == []
    requires !ok ==> c.status(h.eaten) == Bad
    ensures c.status(fed + data) == if !ok then Bad else if ended then End else More
    ensures ok ==> h.emitted == c.plain(fed + data)
  {
    assert c.status(h.eaten) != More ==> c.status(h.eaten + left) == c.status(h.eaten);
    assert ok && !ended ==> h.eaten + left == h.eaten;
  }
}
