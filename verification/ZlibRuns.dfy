/**
 Whole runs over the handles of ffi/zlib.c, and the one-shot functions built on them
 in Linen/Crypto/Zlib/FFI.lean: inflating does not depend on the chunking, and it
 inverts deflating.
 */
module ZlibRuns {
  import opened Common
  import opened ZlibCodec
  import opened ZlibHandles
  import ZlibStored

  function SeenAll(xs: seq<seq<Byte>>): (r: seq<seq<Byte>>)
    ensures |r| == |xs|
  {
    seq(|xs|, i requires 0 <= i < |xs| => Seen(xs[i]))
  }

  predicate AllSmall(xs: seq<seq<Byte>>) {
    forall i | 0 <= i < |xs| :: |xs[i]| < 0x1_0000_0000
  }

  /** The 32-bit length loses input exactly when some chunk has 4 GiB or more. */
  lemma {:induction false} LosesNothingIff(xs: seq<seq<Byte>>)
    ensures |Concat(SeenAll(xs))| <= |Concat(xs)|
    ensures Concat(SeenAll(xs)) == Concat(xs) <==> AllSmall(xs)
  {
    if xs != [] {
      LosesNothingIff(xs[1..]);
      assert SeenAll(xs)[1..] == SeenAll(xs[1..]);
      assert AllSmall(xs) <==> |xs[0]| < UINT_RANGE && AllSmall(xs[1..]);
      if |xs[0]| < UINT_RANGE {
        assert Seen(xs[0]) == xs[0];
        assert Concat(xs)[|xs[0]|..] == Concat(xs[1..]);
        assert Concat(SeenAll(xs))[|xs[0]|..] == Concat(SeenAll(xs[1..]));
      } else {
        assert |Seen(xs[0])| < |xs[0]|;
      }
    }
  }

  /** A chunk of exactly 4 GiB is not seen at all. */
  lemma FourGiBAreDropped(x: seq<Byte>)
    requires |x| == 0x1_0000_0000
    ensures Concat(SeenAll([x])) == [] != Concat([x])
  {
    assert SeenAll([x]) == [Seen(x)] && Seen(x) == [];
    assert Concat([Seen(x)]) == [] + Concat([]);
    assert Concat([x]) == x + Concat([]);
  }

  // ── Inflating in chunks ──

  const START := InflateState(Open, [])

  function Feeds(c: Codec, chunks: seq<seq<Byte>>): (InflateState, seq<Result>) {
    if chunks == [] then (START, [])
    else
      var (s, rs) := Feeds(c, chunks[..|chunks| - 1]);
      var (t, r) := Fed(c, s, chunks[|chunks| - 1]);
      (t, rs + [r])
  }

  predicate NoErr(rs: seq<Result>) {
    forall i | 0 <= i < |rs| :: rs[i].Out?
  }

  function Pieces(rs: seq<Result>): (r: seq<seq<Byte>>)
    ensures |r| == |rs|
  {
    seq(|rs|, i requires 0 <= i < |rs| => if rs[i].Out? then rs[i].bytes else [])
  }

  /** After any feeds, phase and outputs depend on the bytes fed alone: the outputs so
      far are what those bytes decompress to, unless they are no stream. */
  lemma {:induction false} FeedsGive(c: Codec, chunks: seq<seq<Byte>>)
    requires Lawful(c)
    ensures var (s, rs) := Feeds(c, chunks);
            && s.fed == Concat(SeenAll(chunks))
            && s.phase == (match c.status(s.fed) case More => Open case End => Ended case Bad => Broken)
            && NoErr(rs) == (c.status(s.fed) != Bad)
            && (NoErr(rs) ==> Concat(Pieces(rs)) == c.plain(s.fed))
  {
    if chunks != [] {
      var init, x := chunks[..|chunks| - 1], chunks[|chunks| - 1];
      FeedsGive(c, init);
      var (s, rs) := Feeds(c, init);
      var (t, r) := Fed(c, s, x);
      assert SeenAll(chunks) == SeenAll(init) + [Seen(x)];
      ConcatSnoc(SeenAll(init), Seen(x));
      FedMore(c, s, x);
      NoErrSnoc(rs, r);
    }
  }

  lemma FedMore(c: Codec, s: InflateState, x: seq<Byte>)
    requires Lawful(c)
    requires s.phase == match c.status(s.fed) case More => Open case End => Ended case Bad => Broken
    ensures var (t, r) := Fed(c, s, x);
            && t.fed == s.fed + Seen(x)
            && t.phase == (match c.status(t.fed) case More => Open case End => Ended case Bad => Broken)
            && r.Out? == (c.status(t.fed) != Bad)
            && (c.status(s.fed) == Bad ==> c.status(t.fed) == Bad)
            && (r.Out? ==> c.plain(s.fed) + r.bytes == c.plain(t.fed))
  {
    assert c.status(s.fed) != More ==> c.status(s.fed + Seen(x)) == c.status(s.fed);
    assert c.plain(s.fed) <= c.plain(s.fed + Seen(x));
  }

  lemma NoErrSnoc(rs: seq<Result>, r: Result)
    ensures NoErr(rs + [r]) == (NoErr(rs) && r.Out?)
    ensures NoErr(rs + [r]) ==> Concat(Pieces(rs + [r])) == Concat(Pieces(rs)) + r.bytes
  {
    assert (rs + [r])[|rs|] == r && forall i | 0 <= i < |rs| :: (rs + [r])[i] == rs[i];
    if NoErr(rs + [r]) {
      assert Pieces(rs + [r]) == Pieces(rs) + [r.bytes];
      ConcatSnoc(Pieces(rs), r.bytes);
    }
  }

  lemma ChunkingIsInvisible(c: Codec, xs: seq<seq<Byte>>, ys: seq<seq<Byte>>)
    requires Lawful(c) && AllSmall(xs) && AllSmall(ys) && Concat(xs) == Concat(ys)
    ensures Feeds(c, xs).0 == Feeds(c, ys).0
    ensures NoErr(Feeds(c, xs).1) == NoErr(Feeds(c, ys).1)
    ensures NoErr(Feeds(c, xs).1) ==> Concat(Pieces(Feeds(c, xs).1)) == Concat(Pieces(Feeds(c, ys).1))
  {
    LosesNothingIff(xs);
    LosesNothingIff(ys);
    FeedsGive(c, xs);
    FeedsGive(c, ys);
  }

  /** init, and a feed per chunk. */
  method FeedAll(c: Codec, chunks: seq<seq<Byte>>) returns (h: Inflater, rs: seq<Result>)
    requires Lawful(c)
    ensures h.Valid() && fresh(h) && fresh(h.strm) && h.strm.lib == c
    ensures (h.state, rs) == Feeds(c, chunks)
  {
    h := new Inflater(c);
    rs := [];
    for i := 0 to |chunks|
      invariant h.Valid() && fresh(h) && fresh(h.strm) && h.strm.lib == c
      invariant (h.state, rs) == Feeds(c, chunks[..i])
    {
      assert chunks[..i + 1][..i] == chunks[..i];
      var r := h.Feed(chunks[i]);
      rs := rs + [r];
    }
    assert chunks[..|chunks|] == chunks;
  }

  /** init, a feed per chunk, finish, and the finalizer. */
  method InflateAll(c: Codec, chunks: seq<seq<Byte>>)
    returns (rs: seq<Result>, last: Result, released: bool)
    requires Lawful(c)
    ensures rs == Feeds(c, chunks).1
    ensures last == Finished(Feeds(c, chunks).0).1
    ensures last == if NoErr(rs) then Out([]) else Err
    ensures released <==> c.status(Concat(SeenAll(chunks))) != End
  {
    var h;
    h, rs := FeedAll(c, chunks);
    FeedsGive(c, chunks);
    last := h.FinishStream();
    h.Finalize();
    released := h.strm.ended;
  }

  /** A handle that is used on after finish: finish was an error exactly when a feed was;
      after it nothing is an error, and nothing comes out. */
  method InflateAfterFinish(c: Codec, chunks: seq<seq<Byte>>, late: seq<seq<Byte>>)
    returns (rs: seq<Result>, last: Result, lateRs: seq<Result>, again: Result)
    requires Lawful(c)
    ensures rs == Feeds(c, chunks).1 && last == if NoErr(rs) then Out([]) else Err
    ensures |lateRs| == |late| && forall r | r in lateRs :: r == Out([])
    ensures again == Out([])
  {
    var h;
    h, rs := FeedAll(c, chunks);
    FeedsGive(c, chunks);
    last := h.FinishStream();
    lateRs := [];
    for i := 0 to |late|
      invariant h.Valid() && fresh(h) && fresh(h.strm) && h.strm.lib == c
      invariant h.state.phase in {Ended, Closed}
      invariant |lateRs| == i && forall r | r in lateRs :: r == Out([])
    {
      FedLate(c, h.state, late[i]);
      var r := h.Feed(late[i]);
      lateRs := lateRs + [r];
    }
    again := h.FinishStream();
  }

  lemma FedLate(c: Codec, s: InflateState, x: seq<Byte>)
    requires Lawful(c) && s.phase in {Ended, Closed} && (s.phase == Ended ==> c.status(s.fed) == End)
    ensures Fed(c, s, x).0.phase == s.phase && Fed(c, s, x).1 == Out([])
  {
    if s.phase == Ended {
      PastTheEnd(c, s.fed, Seen(x));
    }
  }

  /** The output is a whole stream for what was seen of the chunks, if no call failed. */
  method DeflateAll(c: Codec, chunks: seq<seq<Byte>>)
    returns (ok: bool, pieces: seq<seq<Byte>>, released: bool)
    requires Lawful(c)
    ensures Sturdy(c) ==> ok
    ensures ok ==> c.status(Concat(pieces)) == End
    ensures ok ==> c.plain(Concat(pieces)) == Concat(SeenAll(chunks))
    ensures released
  {
    var h := new Deflater(c);
    ok, pieces := true, [];
    assert SeenAll(chunks[..0]) == [];
    for i := 0 to |chunks|
      invariant h.Valid() && fresh(h) && fresh(h.strm) && h.strm.lib == c
      invariant ok || !Sturdy(c)
      invariant ok ==> h.state == DeflateState(Live, Concat(SeenAll(chunks[..i])), Concat(pieces))
    {
      var r := h.Feed(chunks[i]);
      ok := ok && r.Out?;
      if r.Out? {
        assert SeenAll(chunks[..i + 1]) == SeenAll(chunks[..i]) + [Seen(chunks[i])];
        ConcatSnoc(SeenAll(chunks[..i]), Seen(chunks[i]));
        ConcatSnoc(pieces, r.bytes);
        pieces := pieces + [r.bytes];
      }
    }
    assert chunks[..|chunks|] == chunks;
    var last := h.FinishStream();
    ok := ok && last.Out?;
    if last.Out? {
      ConcatSnoc(pieces, last.bytes);
      pieces := pieces + [last.bytes];
    }
    h.Finalize();
    released := h.strm.ended;
  }

  /** A way to cut what deflating gives into chunks of less than 4 GiB. */
  ghost predicate Cuts(cut: seq<Byte> -> seq<seq<Byte>>) {
    forall bs :: Concat(cut(bs)) == bs && AllSmall(cut(bs))
  }

  /** Deflate in any chunks, cut what comes out in any other way, inflate: what was
      seen of the chunks comes back, and so all of it exactly when none has 4 GiB. The
      inflating stream, having met its end, is never released. */
  method RoundTrip(c: Codec, chunks: seq<seq<Byte>>, cut: seq<Byte> -> seq<seq<Byte>>)
    returns (deflated: bool, pieces: seq<seq<Byte>>, rs: seq<Result>, last: Result, released: bool)
    requires Lawful(c) && Cuts(cut)
    ensures Sturdy(c) ==> deflated
    ensures deflated ==> c.status(Concat(pieces)) == End && c.plain(Concat(pieces)) == Concat(SeenAll(chunks))
    ensures rs == Feeds(c, cut(Concat(pieces))).1 && last == Finished(Feeds(c, cut(Concat(pieces))).0).1
    ensures deflated ==> NoErr(rs) && last == Out([]) && !released
    ensures deflated ==> Concat(Pieces(rs)) == Concat(SeenAll(chunks))
    ensures deflated ==> (Concat(Pieces(rs)) == Concat(chunks) <==> AllSmall(chunks))
  {
    deflated, pieces, released := DeflateAll(c, chunks);
    var compressed := cut(Concat(pieces));
    rs, last, released := InflateAll(c, compressed);
    LosesNothingIff(chunks);
    LosesNothingIff(compressed);
    FeedsGive(c, compressed);
  }

  // ── The one-shot functions ──

  /** `decompress`. Truncated input is taken for whole; only input that is no stream is
      an error. The `z_stream` of a whole stream is never released. */
  method Decompress(c: Codec, input: seq<Byte>) returns (r: Result, released: bool)
    requires Lawful(c)
    ensures r == if c.status(Seen(input)) == Bad then Err else Out(c.plain(Seen(input)))
    ensures released <==> c.status(Seen(input)) != End
  {
    var rs, last;
    rs, last, released := InflateAll(c, [input]);
    OneChunk(c, input);
    r := if rs[0].Out? && last.Out? then Out(rs[0].bytes + last.bytes) else Err;
  }

  /** So the `z_stream` is not always freed: here is a codec and a whole stream for it. */
  method WholeStreamLeaks() returns (r: Result, released: bool)
    ensures r == Out([]) && !released
  {
    ZlibStored.StoredIsLawful();
    assert ZlibStored.StatusOf([0]) == End && ZlibStored.Plain([0]) == [];
    assert Seen([0]) == [0];
    r, released := Decompress(ZlibStored.STORED, [0]);
  }

  lemma OneChunk(c: Codec, input: seq<Byte>)
    requires Lawful(c)
    ensures Concat(SeenAll([input])) == Seen(input)
    ensures Feeds(c, [input]).1 == [if c.status(Seen(input)) == Bad then Err else Out(c.plain(Seen(input)))]
    ensures c.status(Seen(input)) != Bad ==> Finished(Feeds(c, [input]).0).1 == Out([])
  {
    assert SeenAll([input]) == [Seen(input)];
    assert Concat([Seen(input)]) == Seen(input) + Concat([]);
    assert [input][..0] == [];
    assert Feeds(c, [input][..0]) == (START, []);
    assert [] + Seen(input) == Seen(input);
    FeedsGive(c, [input]);
  }
}
