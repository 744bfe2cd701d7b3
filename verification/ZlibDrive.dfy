/**
 The loops of ffi/zlib.c that call `inflate` or `deflate` until there is nothing more
 to be had from the input, and the growable buffer they write to.
 */
module ZlibDrive {
  import opened Common
  import opened ZlibCodec

  function Pow2(k: nat): nat { if k == 0 then 1 else 2 * Pow2(k - 1) }

  ghost predicate IsCapacity(n: nat) {
    n == 0 || exists k: nat :: n == CHUNK * Pow2(k)
  }

  /** `out_buf`, `out_len` and `out_cap`; a null buffer is an empty one. */
  class OutBuf {
    var data: array<Byte>
    var len: nat
    ghost var copied: nat  // bytes moved by realloc so far

    ghost predicate Valid()
      reads this
    {
      && len <= data.Length && (data.Length == 0 || data.Length >= CHUNK) && IsCapacity(data.Length)
      && data.Length <= Max(CHUNK, 2 * len)
      && copied <= data.Length
    }

    ghost function Contents(): seq<Byte>
      requires Valid()
      reads this, data
    {
      data[..len]
    }

    constructor ()
      ensures Valid() && Contents() == [] && fresh(data)
    {
      data := new Byte[0];
      len, copied := 0, 0;
    }

    /** Make room for the bytes of one call: one doubling is always enough. */
    method Grow(produced: nat)
      requires Valid() && 0 < produced <= CHUNK && len + produced > data.Length
      modifies this
      ensures len == old(len) && len + produced <= data.Length && data.Length >= CHUNK
      ensures fresh(data) && data[..len] == old(data[..len])
      ensures data.Length == Doubled(old(data).Length)
      ensures IsCapacity(data.Length) && copied <= data.Length
    {
      var cap := data.Length;
      var newCap := NewCapacity(cap, len + produced);
      NextCapacity(cap);
      var grown := new Byte[newCap](i => 0);
      forall i | 0 <= i < len {
        grown[i] := data[i];
      }
      copied := copied + cap;
      data := grown;
    }

    /** memcpy behind the contents. */
    method Write(chunk: seq<Byte>)
      requires len + |chunk| <= data.Length
      modifies this`len, data
      ensures len == old(len) + |chunk| && data[..len] == old(data[..len]) + chunk
    {
      forall i | 0 <= i < |chunk| {
        data[len + i] := chunk[i];
      }
      assert data[..len] == old(data[..len]) && data[len..len + |chunk|] == chunk;
      len := len + |chunk|;
    }

    method Append(chunk: seq<Byte>)
      requires Valid() && |chunk| <= CHUNK
      modifies this, data
      ensures Valid() && Contents() == old(Contents()) + chunk
      ensures copied <= data.Length && (data.Length <= 16384 || data.Length <= 2 * len)
      ensures data == old(data) || fresh(data)
    {
      var produced := |chunk|;
      if produced > 0 {
        if len + produced > data.Length {
          Grow(produced);
        }
        Write(chunk);
      }
    }
  }

  function Doubled(cap: nat): nat {
    if cap == 0 then CHUNK else cap * 2
  }

  /** Double until `need` bytes fit; no further when the first doubling is enough. */
  method NewCapacity(cap: nat, need: nat) returns (newCap: nat)
    ensures newCap >= need && (Doubled(cap) >= need ==> newCap == Doubled(cap))
  {
    newCap := Doubled(cap);
    while newCap < need
      invariant newCap > 0 && (newCap == Doubled(cap) || Doubled(cap) < need)
      decreases need - newCap
    {
      newCap := newCap * 2;
    }
  }

  lemma NextCapacity(n: nat)
    requires IsCapacity(n)
    ensures IsCapacity(Doubled(n))
  {
    if n == 0 {
      assert CHUNK == CHUNK * Pow2(0);
    } else {
      var k: nat :| n == CHUNK * Pow2(k);
      assert 2 * n == CHUNK * Pow2(k + 1);
    }
  }

  /** A stream went on from `h0` with the input `in0`, of which `left` is left, and wrote `made`. */
  ghost predicate Moved(h0: History, in0: seq<Byte>, h: History, left: seq<Byte>, made: seq<Byte>) {
    h0.eaten + in0 == h.eaten + left && |left| <= |in0| && h.emitted == h0.emitted + made
  }

  /** `linen_zlib_drive`. All the input is used, and all the output it determines is
      written, unless the stream ended or proved to be none. Under Z_FINISH a call that
      fills its output space is taken for the last one. */
  method DriveInflate(strm: ZStream, flush: Flush, out: OutBuf)
    returns (ok: bool, streamEnded: bool, ghost made: seq<Byte>)
    requires !strm.ended && Lawful(strm.lib) && strm.hist.emitted <= strm.lib.plain(strm.hist.eaten)
    requires out.Valid()
    modifies strm`hist, strm`nextIn, out, out.data
    ensures out.Valid() && out.Contents() == old(out.Contents()) + made
    ensures Moved(old(strm.hist), old(strm.nextIn), strm.hist, strm.nextIn, made)
    ensures strm.hist.emitted <= strm.lib.plain(strm.hist.eaten)
    ensures ok ==> !strm.hist.broken && !old(strm.hist).broken
    ensures ok && streamEnded ==> strm.lib.status(strm.hist.eaten) == End
    ensures ok && streamEnded ==> strm.hist.emitted == strm.lib.plain(strm.hist.eaten)
    ensures ok && !streamEnded ==> strm.nextIn == []
    ensures ok && !streamEnded ==> Drained(strm.lib, strm.hist) || (flush == Finish && |made| >= CHUNK)
    ensures !ok ==> strm.hist.broken && (old(strm.hist).broken || strm.lib.status(strm.hist.eaten) == Bad)
  {
    ghost var h0, in0, c0 := strm.hist, strm.nextIn, out.Contents();
    ghost var all := h0.eaten + in0;
    made := [];
    while true
      invariant out.Valid() && out.Contents() == c0 + made
      invariant out.data == old(out.data) || fresh(out.data)
      invariant Moved(h0, in0, strm.hist, strm.nextIn, made)
      invariant strm.hist.emitted <= strm.lib.plain(strm.hist.eaten)
      invariant |strm.hist.emitted| <= |strm.lib.plain(all)|
      invariant strm.hist.broken == h0.broken
      decreases |strm.lib.plain(all)| - |strm.hist.emitted|
    {
      var chunk, ret := strm.Inflate(flush);
      var produced := |chunk|;
      out.Append(chunk);
      Longer(c0, h0.emitted, made, chunk);
      made := made + chunk;
      if ret == StreamEnd {
        return true, true, made;
      }
      if ret == Ok {
        if strm.nextIn == [] && produced < CHUNK {
          return true, false, made;
        }
        continue;
      }
      if ret == BufError {
        if strm.nextIn == [] {
          return true, false, made;
        }
        continue;
      }
      return false, false, made;
    }
  }

  lemma Longer(a: seq<Byte>, b: seq<Byte>, made: seq<Byte>, chunk: seq<Byte>)
    ensures a + made + chunk == a + (made + chunk) && b + made + chunk == b + (made + chunk)
  {
  }

  /** `linen_zlib_drive_deflate`. All the input is taken in; under Z_FINISH the stream ends. */
  method DriveDeflate(strm: ZStream, flush: Flush, out: OutBuf)
    returns (ok: bool, streamEnded: bool, ghost made: seq<Byte>)
    requires !strm.ended && Lawful(strm.lib) && (strm.lib.live(strm.hist) || strm.hist.broken)
    requires out.Valid()
    modifies strm`hist, strm`nextIn, out, out.data
    ensures out.Valid() && out.Contents() == old(out.Contents()) + made
    ensures Moved(old(strm.hist), old(strm.nextIn), strm.hist, strm.nextIn, made)
    ensures ok ==> strm.nextIn == [] && streamEnded == (flush == Finish)
    ensures ok ==> !old(strm.hist).broken && !strm.hist.broken
    ensures ok && flush == NoFlush ==> strm.lib.live(strm.hist)
    ensures ok && flush == Finish ==> strm.lib.status(strm.hist.emitted) == End
    ensures ok && flush == Finish ==> strm.lib.plain(strm.hist.emitted) == strm.hist.eaten
    ensures !ok ==> strm.hist.broken && (old(strm.hist).broken || !Sturdy(strm.lib))
  {
    ghost var h0, in0, c0 := strm.hist, strm.nextIn, out.Contents();
    ghost var bound := strm.lib.limit(|h0.eaten + in0|);
    made := [];
    while true
      invariant out.Valid() && out.Contents() == c0 + made
      invariant out.data == old(out.data) || fresh(out.data)
      invariant Moved(h0, in0, strm.hist, strm.nextIn, made)
      invariant strm.hist.broken == h0.broken && (strm.lib.live(strm.hist) || h0.broken)
      decreases bound - |strm.hist.emitted|
    {
      var chunk, ret := strm.Deflate(flush);
      var produced := |chunk|;
      out.Append(chunk);
      Longer(c0, h0.emitted, made, chunk);
      made := made + chunk;
      if ret == StreamEnd {
        return true, true, made;
      }
      if ret == Ok || ret == BufError {
        if strm.nextIn == [] && produced < CHUNK {
          return true, false, made;
        }
        continue;
      }
      return false, false, made;
    }
  }
}
