/**
 Base64 of RFC 4648 section 4, as the EVP encoder and decoder that ffi/jose.c calls
 implement it: the standard alphabet, padded to a multiple of four characters.
 */
module Base64 {
  import opened Common

  type Sextet = x: int | 0 <= x < 64

  const PAD := '='

  function Letter(v: Sextet): char {
    if v < 26 then 'A' + v as char
    else if v < 52 then 'a' + (v - 26) as char
    else if v < 62 then '0' + (v - 52) as char
    else if v == 62 then '+'
    else '/'
  }

  predicate IsLetter(c: char) {
    'A' <= c <= 'Z' || 'a' <= c <= 'z' || '0' <= c <= '9' || c == '+' || c == '/'
  }

  function Value(c: char): Sextet
    requires IsLetter(c)
  {
    if 'A' <= c <= 'Z' then c as int - 'A' as int
    else if 'a' <= c <= 'z' then c as int - 'a' as int + 26
    else if '0' <= c <= '9' then c as int - '0' as int + 52
    else if c == '+' then 62
    else 63
  }

  lemma LetterOfValue(c: char)
    requires IsLetter(c)
    ensures Letter(Value(c)) == c
  {
  }

  lemma ValueOfLetter(v: Sextet)
    ensures IsLetter(Letter(v)) && Value(Letter(v)) == v
  {
  }

  /** Three bytes in four sextets; a missing byte counts as zero. */
  function Split(a: Byte, b: Byte, c: Byte): (Sextet, Sextet, Sextet, Sextet) {
    (a / 4, a % 4 * 16 + b / 16, b % 16 * 4 + c / 64, c % 64)
  }

  function Join(v: Sextet, w: Sextet, x: Sextet, y: Sextet): (Byte, Byte, Byte) {
    (v * 4 + w / 16, w % 16 * 16 + x / 4, x % 4 * 64 + y)
  }

  /** RFC 4648 section 4: three bytes and their four sextets are the same 24-bit group. */
  lemma SplitIsTheSameGroup(a: Byte, b: Byte, c: Byte)
    ensures var (v, w, x, y) := Split(a, b, c);
            ((v * 64 + w) * 64 + x) * 64 + y == (a * 256 + b) * 256 + c
  {
    assert a == 4 * (a / 4) + a % 4 && b == 16 * (b / 16) + b % 16 && c == 64 * (c / 64) + c % 64;
  }

  /** The high and the low bits put together come apart again. */
  lemma Carried(high: nat, low: nat, base: nat)
    requires low < base && (base == 4 || base == 16 || base == 64)
    ensures (high * base + low) / base == high && (high * base + low) % base == low
  {
  }

  lemma JoinSplit(a: Byte, b: Byte, c: Byte)
    ensures var (v, w, x, y) := Split(a, b, c); Join(v, w, x, y) == (a, b, c)
  {
    Carried(a % 4, b / 16, 16);
    Carried(b % 16, c / 64, 4);
  }

  lemma SplitJoin(v: Sextet, w: Sextet, x: Sextet, y: Sextet)
    ensures var (a, b, c) := Join(v, w, x, y); Split(a, b, c) == (v, w, x, y)
  {
    Carried(v, w / 16, 4);
    Carried(w % 16, x / 4, 16);
    Carried(x % 4, y, 64);
  }

  /** The sextets that stand for `bs`, none of them only padding. */
  function Sextets(bs: seq<Byte>): seq<Sextet> {
    if bs == [] then []
    else if |bs| == 1 then
      var q := Split(bs[0], 0, 0);
      [q.0, q.1]
    else if |bs| == 2 then
      var q := Split(bs[0], bs[1], 0);
      [q.0, q.1, q.2]
    else
      var q := Split(bs[0], bs[1], bs[2]);
      [q.0, q.1, q.2, q.3] + Sextets(bs[3..])
  }

  /** The bytes a run of sextets stands for. One sextet alone stands for nothing. */
  function BytesFrom(vs: seq<Sextet>): Option<seq<Byte>> {
    if vs == [] then Some([])
    else if |vs| == 1 then None
    else if |vs| == 2 then Some([Join(vs[0], vs[1], 0, 0).0])
    else if |vs| == 3 then
      var b := Join(vs[0], vs[1], vs[2], 0);
      Some([b.0, b.1])
    else
      var b := Join(vs[0], vs[1], vs[2], vs[3]);
      match BytesFrom(vs[4..])
      case None => None
      case Some(rest) => Some([b.0, b.1, b.2] + rest)
  }

  function Text(vs: seq<Sextet>): (r: string)
    ensures |r| == |vs| && forall i | 0 <= i < |vs| :: r[i] == Letter(vs[i])
  {
    seq(|vs|, i requires 0 <= i < |vs| => Letter(vs[i]))
  }

  predicate AllLetters(s: string) {
    forall i | 0 <= i < |s| :: IsLetter(s[i])
  }

  function Values(s: string): (r: seq<Sextet>)
    requires AllLetters(s)
    ensures |r| == |s| && forall i | 0 <= i < |s| :: r[i] == Value(s[i])
  {
    seq(|s|, i requires 0 <= i < |s| => Value(s[i]))
  }

  lemma TextIsLetters(vs: seq<Sextet>)
    ensures AllLetters(Text(vs)) && Values(Text(vs)) == vs
  {
    forall i | 0 <= i < |vs| ensures IsLetter(Text(vs)[i]) && Value(Text(vs)[i]) == vs[i] {
      ValueOfLetter(vs[i]);
    }
  }

  lemma ValuesAreLetters(s: string)
    requires AllLetters(s)
    ensures Text(Values(s)) == s
  {
    forall i | 0 <= i < |s| ensures Letter(Value(s[i])) == s[i] {
      LetterOfValue(s[i]);
    }
  }

  /** The letters alone, without padding. */
  function Letters(bs: seq<Byte>): string {
    Text(Sextets(bs))
  }

  /** The bytes of a run of letters. */
  function BytesOf(s: string): Option<seq<Byte>> {
    if AllLetters(s) then BytesFrom(Values(s)) else None
  }

  function Padding(n: nat): (r: string)
    ensures |r| == n && forall i | 0 <= i < n :: r[i] == PAD
  {
    seq(n, _ => PAD)
  }

  /** EVP_EncodeBlock. */
  function Encode(bs: seq<Byte>): string {
    Letters(bs) + Padding((3 - |bs| % 3) % 3)
  }

  /** One or two padding characters at the end; more than two are not taken for padding. */
  function PadsAtEnd(s: string): (n: nat)
    ensures n <= 2 && n <= |s|
  {
    if s == [] || s[|s| - 1] != PAD then 0
    else if |s| == 1 || s[|s| - 2] != PAD then 1
    else 2
  }

  /** EVP_DecodeUpdate and EVP_DecodeFinal over one string: whole groups of four, at most
      two of them padding, at the end. Bits that pad the last letter are ignored. */
  function Decode(s: string): Option<seq<Byte>> {
    if |s| % 4 == 0 then BytesOf(s[..|s| - PadsAtEnd(s)]) else None
  }

  // ── Sextets and bytes ──

  lemma {:induction false} SextetsCount(bs: seq<Byte>, q: nat, r: nat)
    requires |bs| == 3 * q + r && r < 3
    ensures |Sextets(bs)| == 4 * q + if r == 0 then 0 else r + 1
  {
    if q > 0 {
      SextetsCount(bs[3..], q - 1, r);
    }
  }

  lemma SextetsLength(bs: seq<Byte>)
    ensures |Sextets(bs)| == (4 * |bs| + 2) / 3
    ensures |Sextets(bs)| + (3 - |bs| % 3) % 3 == (|bs| + 2) / 3 * 4
  {
    SextetsCount(bs, |bs| / 3, |bs| % 3);
    Thirds(|bs|, |bs| / 3, |bs| % 3);
  }

  lemma Thirds(n: nat, q: nat, r: nat)
    requires n == 3 * q + r && r < 3
    ensures (4 * n + 2) / 3 == 4 * q + if r == 0 then 0 else r + 1
    ensures (n + 2) / 3 == q + if r == 0 then 0 else 1
    ensures (3 - r) % 3 == if r == 0 then 0 else 3 - r
  {
  }

  lemma {:induction false} BytesFromCount(vs: seq<Sextet>, q: nat, r: nat)
    requires |vs| == 4 * q + r && r < 4
    ensures BytesFrom(vs).Some? <==> r != 1
    ensures BytesFrom(vs).Some? ==> |BytesFrom(vs).value| == 3 * q + if r == 0 then 0 else r - 1
  {
    if q > 0 {
      BytesFromCount(vs[4..], q - 1, r);
    }
  }

  lemma BytesFromLength(vs: seq<Sextet>)
    ensures BytesFrom(vs).Some? <==> |vs| % 4 != 1
    ensures BytesFrom(vs).Some? ==> |BytesFrom(vs).value| == |vs| * 3 / 4
  {
    BytesFromCount(vs, |vs| / 4, |vs| % 4);
  }

  lemma {:induction false} SextetsBack(bs: seq<Byte>)
    ensures BytesFrom(Sextets(bs)) == Some(bs)
  {
    if |bs| == 1 {
      JoinSplit(bs[0], 0, 0);
      assert bs == [bs[0]];
    } else if |bs| == 2 {
      JoinSplit(bs[0], bs[1], 0);
      assert bs == [bs[0], bs[1]];
    } else if |bs| >= 3 {
      JoinSplit(bs[0], bs[1], bs[2]);
      SextetsBack(bs[3..]);
      assert Sextets(bs)[4..] == Sextets(bs[3..]);
      assert bs == [bs[0], bs[1], bs[2]] + bs[3..];
    }
  }

  /** The bits of the last sextet that stand for no byte. */
  function UnusedBits(vs: seq<Sextet>): nat {
    UnusedIn(vs, |vs| % 4)
  }

  function UnusedIn(vs: seq<Sextet>, r: nat): nat {
    if vs != [] && r == 2 then vs[|vs| - 1] % 16
    else if vs != [] && r == 3 then vs[|vs| - 1] % 4
    else 0
  }

  lemma BytesBack(vs: seq<Sextet>)
    requires |vs| % 4 != 1
    ensures BytesFrom(vs).Some? && (Sextets(BytesFrom(vs).value) == vs <==> UnusedBits(vs) == 0)
  {
    GroupsBack(vs, |vs| / 4, |vs| % 4);
  }

  lemma {:induction false} GroupsBack(vs: seq<Sextet>, q: nat, r: nat)
    requires |vs| == 4 * q + r && r < 4 && r != 1
    ensures BytesFrom(vs).Some? && (Sextets(BytesFrom(vs).value) == vs <==> UnusedIn(vs, r) == 0)
  {
    if q == 0 {
      ShortBack(vs);
    } else {
      GroupsBack(vs[4..], q - 1, r);
      BackFromFour(vs, BytesFrom(vs[4..]).value);
    }
  }

  lemma ShortBack(vs: seq<Sextet>)
    requires |vs| < 4 && |vs| != 1
    ensures BytesFrom(vs).Some? && (Sextets(BytesFrom(vs).value) == vs <==> UnusedIn(vs, |vs|) == 0)
  {
    if |vs| == 2 {
      TwoBack(vs);
    } else if |vs| == 3 {
      ThreeBack(vs);
    }
  }

  lemma TwoBack(vs: seq<Sextet>)
    requires |vs| == 2
    ensures BytesFrom(vs).Some? && (Sextets(BytesFrom(vs).value) == vs <==> UnusedIn(vs, 2) == 0)
  {
    BackFromTwo(vs[0], vs[1]);
    assert vs == [vs[0], vs[1]];
  }

  lemma ThreeBack(vs: seq<Sextet>)
    requires |vs| == 3
    ensures BytesFrom(vs).Some? && (Sextets(BytesFrom(vs).value) == vs <==> UnusedIn(vs, 3) == 0)
  {
    BackFromThree(vs[0], vs[1], vs[2]);
    assert vs == [vs[0], vs[1], vs[2]];
  }

  /** Cutting the low bits off changes nothing exactly when they are zero. */
  lemma LowBitsOff(x: Sextet)
    ensures 0 <= x / 16 * 16 < 64 && 0 <= x / 4 * 4 < 64
    ensures x / 16 * 16 == x <==> x % 16 == 0
    ensures x / 4 * 4 == x <==> x % 4 == 0
  {
    assert x == 16 * (x / 16) + x % 16 && x == 4 * (x / 4) + x % 4;
  }

  lemma SextetsOfOne(a: Byte)
    ensures Sextets([a]) == [Split(a, 0, 0).0, Split(a, 0, 0).1]
  {
  }

  lemma SextetsOfTwo(a: Byte, b: Byte)
    ensures Sextets([a, b]) == [Split(a, b, 0).0, Split(a, b, 0).1, Split(a, b, 0).2]
  {
  }

  lemma BackFromTwo(v: Sextet, w: Sextet)
    ensures Sextets([Join(v, w, 0, 0).0]) == [v, w / 16 * 16]
    ensures w / 16 * 16 == w <==> w % 16 == 0
  {
    LowBitsOff(w);
    Carried(w / 16, 0, 16);
    SplitJoin(v, w / 16 * 16, 0, 0);
    SextetsOfOne(Join(v, w, 0, 0).0);
  }

  lemma BackFromThree(v: Sextet, w: Sextet, x: Sextet)
    ensures Sextets([Join(v, w, x, 0).0, Join(v, w, x, 0).1]) == [v, w, x / 4 * 4]
    ensures x / 4 * 4 == x <==> x % 4 == 0
  {
    LowBitsOff(x);
    SplitWithoutLow(v, w, x / 4, x % 4);
    SextetsOfTwo(Join(v, w, x, 0).0, Join(v, w, x, 0).1);
  }

  /** The two low bits of a third sextet reach neither of the two bytes. */
  lemma SplitWithoutLow(v: Sextet, w: Sextet, q: nat, r: nat)
    requires q < 16 && r < 4
    ensures var b := Join(v, w, q * 4 + r, 0); var s := Split(b.0, b.1, 0);
            s.0 == v && s.1 == w && s.2 == q * 4
  {
    Carried(q, r, 4);
    Carried(q, 0, 4);
    SplitJoin(v, w, q * 4, 0);
  }

  lemma BackFromFour(vs: seq<Sextet>, rest: seq<Byte>)
    requires |vs| >= 4
    ensures var b := Join(vs[0], vs[1], vs[2], vs[3]);
            Sextets([b.0, b.1, b.2] + rest) == vs <==> Sextets(rest) == vs[4..]
  {
    var b := Join(vs[0], vs[1], vs[2], vs[3]);
    SextetsStep(b.0, b.1, b.2, rest);
    SplitJoin(vs[0], vs[1], vs[2], vs[3]);
    AppendSame([vs[0], vs[1], vs[2], vs[3]], Sextets(rest), vs);
  }

  lemma SextetsStep(a: Byte, b: Byte, c: Byte, rest: seq<Byte>)
    ensures var q := Split(a, b, c);
            Sextets([a, b, c] + rest) == [q.0, q.1, q.2, q.3] + Sextets(rest)
  {
    assert ([a, b, c] + rest)[3..] == rest;
  }

  lemma AppendSame<T>(a: seq<T>, x: seq<T>, all: seq<T>)
    requires |a| <= |all| && all[..|a|] == a
    ensures a + x == all <==> x == all[|a|..]
  {
    assert all == all[..|a|] + all[|a|..];
    assert (a + x)[|a|..] == x;
  }

  lemma EncodeIs(bs: seq<Byte>, vs: seq<Sextet>, text: string, n: nat)
    requires Sextets(bs) == vs && n == (3 - |bs| % 3) % 3 && |text| == |vs|
    requires forall i | 0 <= i < |vs| :: text[i] == Letter(vs[i])
    ensures Encode(bs) == text + Padding(n)
  {
    assert Letters(bs) == text;
  }

  lemma SextetsOfF(f: Byte)
    requires f == 102
    ensures Sextets([f]) == [25, 32]
  {
    SextetsOfOne(f);
    SplitOf(f, 0, 0, 25, 2, 0, 0, 0, 0);
  }

  lemma VectorF(f: Byte)
    requires f == 102
    ensures Encode([f]) == "Zg=="
  {
    SextetsOfF(f);
    EncodeIs([f], [25, 32], "Zg", 2);
    assert "Zg" + Padding(2) == "Zg==";
  }

  lemma VectorFo(f: Byte, o: Byte)
    requires f == 102 && o == 111
    ensures Encode([f, o]) == "Zm8="
  {
    SextetsOfTwo(f, o);
    SplitOf(f, o, 0, 25, 2, 6, 15, 0, 0);
    EncodeIs([f, o], [25, 38, 60], "Zm8", 1);
    assert "Zm8" + Padding(1) == "Zm8=";
  }

  lemma VectorFoo(f: Byte, o: Byte)
    requires f == 102 && o == 111
    ensures Sextets([f, o, o]) == [25, 38, 61, 47] && Encode([f, o, o]) == "Zm9v"
  {
    SextetsStep(f, o, o, []);
    assert [f, o, o] + [] == [f, o, o];
    SplitOf(f, o, o, 25, 2, 6, 15, 1, 47);
    EncodeIs([f, o, o], [25, 38, 61, 47], "Zm9v", 0);
    assert "Zm9v" + Padding(0) == "Zm9v";
  }

  lemma SextetsOfBar(b: Byte, a: Byte, r: Byte)
    requires b == 98 && a == 97 && r == 114
    ensures Sextets([b, a, r]) == [24, 38, 5, 50]
  {
    SextetsStep(b, a, r, []);
    assert [b, a, r] + [] == [b, a, r];
    SplitOf(b, a, r, 24, 2, 6, 1, 1, 50);
  }

  lemma VectorFoobar(f: Byte, o: Byte, b: Byte, a: Byte, r: Byte)
    requires f == 102 && o == 111 && b == 98 && a == 97 && r == 114
    ensures Encode([f, o, o, b, a, r]) == "Zm9vYmFy"
  {
    SextetsOfBar(b, a, r);
    SextetsStep(f, o, o, [b, a, r]);
    assert [f, o, o] + [b, a, r] == [f, o, o, b, a, r];
    SplitOf(f, o, o, 25, 2, 6, 15, 1, 47);
    EncodeIs([f, o, o, b, a, r], [25, 38, 61, 47, 24, 38, 5, 50], "Zm9vYmFy", 0);
    assert "Zm9vYmFy" + Padding(0) == "Zm9vYmFy";
  }

  /** Splitting, given the quotients and remainders. */
  lemma SplitOf(a: Byte, b: Byte, c: Byte, a1: nat, a2: nat, b1: nat, b2: nat, c1: nat, c2: nat)
    requires a == a1 * 4 + a2 && a2 < 4 && b == b1 * 16 + b2 && b2 < 16 && c == c1 * 64 + c2 && c2 < 64
    ensures Split(a, b, c) == (a1, a2 * 16 + b1, b2 * 4 + c1, c2)
  {
    Carried(a1, a2, 4);
    Carried(b1, b2, 16);
    Carried(c1, c2, 64);
  }

  /** Test vectors of RFC 4648 section 10: "f", "fo", "foo" and "foobar". */
  lemma TestVectors()
    ensures Encode([102]) == "Zg==" && Encode([102, 111]) == "Zm8="
    ensures Encode([102, 111, 111]) == "Zm9v" && Encode([102, 111, 111, 98, 97, 114]) == "Zm9vYmFy"
  {
    VectorF(102);
    VectorFo(102, 111);
    VectorFoo(102, 111);
    VectorFoobar(102, 111, 98, 97, 114);
  }

  // ── The alphabet, and the number that bytes and sextets are ──

  /** RFC 4648 section 4, table 1. */
  const TABLE := UPPER + LOWER + DIGITS + "+/"

  /** RFC 4648 section 5, table 2. */
  const URL_TABLE := UPPER + LOWER + DIGITS + "-_"

  /** The letters are the entries of the tables, one by one. */
  lemma LetterIsInTable(v: Sextet)
    ensures Letter(v) == TABLE[v]
    ensures URL_TABLE[v] == if v == 62 then '-' else if v == 63 then '_' else TABLE[v]
  {
    if v < 26 {
      UpperLetter(v);
    } else if v < 52 {
      LowerLetter(v - 26);
    } else if v < 62 {
      DigitLetter(v - 52);
    }
  }

  /** The characters of the table, and no others, are letters. */
  lemma LettersAreTheTable(c: char)
    ensures IsLetter(c) <==> exists v: nat :: v < 64 && TABLE[v] == c
  {
    if IsLetter(c) {
      var v: nat := Value(c);
      LetterOfValue(c);
      LetterIsInTable(v);
      assert v < 64 && TABLE[v] == c;
    }
    forall v: nat | v < 64 && TABLE[v] == c ensures IsLetter(c) {
      LetterIsInTable(v);
      ValueOfLetter(v);
    }
  }

  /** Encoding is by the table, and then padding, of which there is as much as completes
      a group of four. */
  lemma EncodedByTable(bs: seq<Byte>, i: nat)
    requires i < |Encode(bs)|
    ensures |Encode(bs)| == (|bs| + 2) / 3 * 4 && |Sextets(bs)| == (4 * |bs| + 2) / 3 <= |Encode(bs)|
    ensures Encode(bs)[i] == if i < |Sextets(bs)| then TABLE[Sextets(bs)[i]] else '='
  {
    SextetsLength(bs);
    if i < |Sextets(bs)| {
      LetterIsInTable(Sextets(bs)[i]);
    }
  }

  /** A text whose characters are the table's entries at `vs` has the values `vs`. */
  lemma ReadByTable(s: string, vs: seq<Sextet>)
    requires |s| == |vs| && forall i | 0 <= i < |s| :: s[i] == TABLE[vs[i]]
    ensures AllLetters(s) && Values(s) == vs
  {
    forall i | 0 <= i < |s| ensures IsLetter(s[i]) && Value(s[i]) == vs[i] {
      LetterIsInTable(vs[i]);
      ValueOfLetter(vs[i]);
    }
  }

  /** Bytes as the digits of a number in base 256, behind the digits of `n`. */
  function NumberOfBytes(n: nat, bs: seq<Byte>): nat
    decreases |bs|
  {
    if bs == [] then n else NumberOfBytes(n * 256 + bs[0], bs[1..])
  }

  /** Sextets as the digits of a number in base 64. */
  function NumberOfSextets(n: nat, vs: seq<Sextet>): nat
    decreases |vs|
  {
    if vs == [] then n else NumberOfSextets(n * 64 + vs[0], vs[1..])
  }

  /** A number of `n` bytes with the zero bits behind them that complete the last sextet. */
  function Shifted(x: nat, n: nat): nat {
    if n % 3 == 1 then x * 16 else if n % 3 == 2 then x * 4 else x
  }

  lemma NextSextet(n: nat, v: Sextet, rest: seq<Sextet>)
    ensures NumberOfSextets(n, [v] + rest) == NumberOfSextets(n * 64 + v, rest)
  {
    assert ([v] + rest)[1..] == rest;
  }

  lemma NextByte(n: nat, a: Byte, rest: seq<Byte>)
    ensures NumberOfBytes(n, [a] + rest) == NumberOfBytes(n * 256 + a, rest)
  {
    assert ([a] + rest)[1..] == rest;
  }

  lemma MoreSextets(n: nat, v: Sextet, w: Sextet, rest: seq<Sextet>)
    ensures NumberOfSextets(n, [v, w] + rest) == NumberOfSextets((n * 64 + v) * 64 + w, rest)
  {
    assert [v, w] + rest == [v] + ([w] + rest);
    NextSextet(n, v, [w] + rest);
    NextSextet(n * 64 + v, w, rest);
  }

  lemma FourSextets(n: nat, v: Sextet, w: Sextet, x: Sextet, y: Sextet, rest: seq<Sextet>)
    ensures NumberOfSextets(n, [v, w, x, y] + rest) == NumberOfSextets((((n * 64 + v) * 64 + w) * 64 + x) * 64 + y, rest)
  {
    assert [v, w, x, y] + rest == [v, w] + ([x, y] + rest);
    MoreSextets(n, v, w, [x, y] + rest);
    MoreSextets((n * 64 + v) * 64 + w, x, y, rest);
  }

  lemma ThreeBytes(n: nat, a: Byte, b: Byte, c: Byte, rest: seq<Byte>)
    ensures NumberOfBytes(n, [a, b, c] + rest) == NumberOfBytes(((n * 256 + a) * 256 + b) * 256 + c, rest)
  {
    assert [a, b, c] + rest == [a] + ([b] + ([c] + rest));
    NextByte(n, a, [b] + ([c] + rest));
    NextByte(n * 256 + a, b, [c] + rest);
    NextByte((n * 256 + a) * 256 + b, c, rest);
  }

  /** The numbers of what is left over behind the last whole group. */
  lemma ShortNumbers(n: nat, v: Sextet, w: Sextet, x: Sextet, a: Byte, b: Byte)
    ensures NumberOfSextets(n, []) == n == NumberOfBytes(n, [])
    ensures NumberOfSextets(n, [v, w]) == n * 4096 + v * 64 + w
    ensures NumberOfSextets(n, [v, w, x]) == n * 262144 + v * 4096 + w * 64 + x
    ensures NumberOfBytes(n, [a]) == n * 256 + a
    ensures NumberOfBytes(n, [a, b]) == n * 65536 + a * 256 + b
  {
    assert [v, w] == [v, w] + [] && [v, w, x] == [v, w] + ([x] + []);
    MoreSextets(n, v, w, []);
    MoreSextets(n, v, w, [x] + []);
    NextSextet((n * 64 + v) * 64 + w, x, []);
    assert [a] == [a] + [] && [a, b] == [a] + ([b] + []);
    NextByte(n, a, []);
    NextByte(n, a, [b] + []);
    NextByte(n * 256 + a, b, []);
  }

  /** RFC 4648 section 4: the bits of the bytes, with zero bits behind them, are those of
      the sextets. */
  lemma {:induction false} SextetsAreTheNumber(n: nat, bs: seq<Byte>)
    ensures NumberOfSextets(n, Sextets(bs)) == Shifted(NumberOfBytes(n, bs), |bs|)
    decreases |bs|
  {
    if |bs| < 3 {
      ShortBytesNumber(n, bs);
    } else {
      var m := GroupOfBytes(n, bs);
      SextetsAreTheNumber(m, bs[3..]);
      ShiftStays(|bs|);
    }
  }

  lemma ShiftStays(n: nat)
    requires n >= 3
    ensures forall x: nat :: Shifted(x, n) == Shifted(x, n - 3)
  {
  }

  lemma ShortBytesNumber(n: nat, bs: seq<Byte>)
    requires |bs| < 3
    ensures NumberOfSextets(n, Sextets(bs)) == Shifted(NumberOfBytes(n, bs), |bs|)
  {
    if bs == [] {
      ShortNumbers(n, 0, 0, 0, 0, 0);
    } else if |bs| == 1 {
      OneByteNumber(n, bs[0]);
      assert bs == [bs[0]];
    } else {
      TwoBytesNumber(n, bs[0], bs[1]);
      assert bs == [bs[0], bs[1]];
    }
  }

  lemma OneByteNumber(n: nat, a: Byte)
    ensures NumberOfSextets(n, Sextets([a])) == NumberOfBytes(n, [a]) * 16
  {
    var (v, w, _, _) := Split(a, 0, 0);
    SplitIsTheSameGroup(a, 0, 0);
    SextetsOfOne(a);
    ShortNumbers(n, v, w, 0, a, 0);
  }

  lemma TwoBytesNumber(n: nat, a: Byte, b: Byte)
    ensures NumberOfSextets(n, Sextets([a, b])) == NumberOfBytes(n, [a, b]) * 4
  {
    var (v, w, x, _) := Split(a, b, 0);
    SplitIsTheSameGroup(a, b, 0);
    SextetsOfTwo(a, b);
    ShortNumbers(n, v, w, x, a, b);
  }

  lemma SameBehind(n: nat, v: Sextet, w: Sextet, x: Sextet, y: Sextet, a: Byte, b: Byte, c: Byte)
    requires ((v * 64 + w) * 64 + x) * 64 + y == (a * 256 + b) * 256 + c
    ensures (((n * 64 + v) * 64 + w) * 64 + x) * 64 + y == ((n * 256 + a) * 256 + b) * 256 + c
  {
  }

  /** A group of four sextets and one of three bytes that are the same 24 bits. */
  lemma SameGroup(n: nat, v: Sextet, w: Sextet, x: Sextet, y: Sextet, vs: seq<Sextet>,
                  a: Byte, b: Byte, c: Byte, bs: seq<Byte>)
    requires ((v * 64 + w) * 64 + x) * 64 + y == (a * 256 + b) * 256 + c
    ensures var m := ((n * 256 + a) * 256 + b) * 256 + c;
            NumberOfSextets(n, [v, w, x, y] + vs) == NumberOfSextets(m, vs) && NumberOfBytes(n, [a, b, c] + bs) == NumberOfBytes(m, bs)
  {
    SameBehind(n, v, w, x, y, a, b, c);
    FourSextets(n, v, w, x, y, vs);
    ThreeBytes(n, a, b, c, bs);
  }

  lemma GroupOfThree(n: nat, a: Byte, b: Byte, c: Byte, rest: seq<Byte>)
    ensures var m := ((n * 256 + a) * 256 + b) * 256 + c;
            && NumberOfBytes(n, [a, b, c] + rest) == NumberOfBytes(m, rest)
            && NumberOfSextets(n, Sextets([a, b, c] + rest)) == NumberOfSextets(m, Sextets(rest))
  {
    var (v, w, x, y) := Split(a, b, c);
    SplitIsTheSameGroup(a, b, c);
    SextetsStep(a, b, c, rest);
    SameGroup(n, v, w, x, y, Sextets(rest), a, b, c, rest);
  }

  /** The number with the first group of the bytes, and of the sextets they come to. */
  lemma GroupOfBytes(n: nat, bs: seq<Byte>) returns (m: nat)
    requires |bs| >= 3
    ensures NumberOfBytes(n, bs) == NumberOfBytes(m, bs[3..])
    ensures NumberOfSextets(n, Sextets(bs)) == NumberOfSextets(m, Sextets(bs[3..]))
  {
    assert bs == [bs[0], bs[1], bs[2]] + bs[3..];
    GroupOfThree(n, bs[0], bs[1], bs[2], bs[3..]);
    m := ((n * 256 + bs[0]) * 256 + bs[1]) * 256 + bs[2];
  }

  /** And the bits of the sextets, but for those that pad the last, are those of the bytes. */
  lemma {:induction false} BytesAreTheNumber(n: nat, vs: seq<Sextet>)
    requires |vs| % 4 != 1
    ensures BytesFrom(vs).Some?
    ensures var bs := BytesFrom(vs).value;
            NumberOfSextets(n, vs) == Shifted(NumberOfBytes(n, bs), |bs|) + UnusedBits(vs) && UnusedBits(vs) < Shifted(1, |bs|)
    decreases |vs|
  {
    if |vs| < 4 {
      ShortSextetsNumber(n, vs);
    } else {
      BytesFromLength(vs);
      BytesFromLength(vs[4..]);
      var m := GroupOfSextets(n, vs);
      BytesAreTheNumber(m, vs[4..]);
      UnusedStays(vs);
      ShiftStays(|BytesFrom(vs).value|);
    }
  }

  lemma UnusedStays(vs: seq<Sextet>)
    requires |vs| >= 4 && |vs| % 4 != 1
    ensures UnusedBits(vs) == UnusedBits(vs[4..])
  {
    assert |vs| > 4 ==> vs[4..][|vs| - 5] == vs[|vs| - 1];
  }

  lemma ShortSextetsNumber(n: nat, vs: seq<Sextet>)
    requires |vs| < 4 && |vs| != 1
    ensures BytesFrom(vs).Some?
    ensures var bs := BytesFrom(vs).value;
            NumberOfSextets(n, vs) == Shifted(NumberOfBytes(n, bs), |bs|) + UnusedIn(vs, |vs|) && UnusedIn(vs, |vs|) < Shifted(1, |bs|)
  {
    if vs == [] {
      ShortNumbers(n, 0, 0, 0, 0, 0);
    } else if |vs| == 2 {
      ShortNumbers(n, vs[0], vs[1], 0, Join(vs[0], vs[1], 0, 0).0, 0);
      assert vs == [vs[0], vs[1]];
    } else {
      var b := Join(vs[0], vs[1], vs[2], 0);
      ShortNumbers(n, vs[0], vs[1], vs[2], b.0, b.1);
      assert vs == [vs[0], vs[1], vs[2]];
    }
  }

  /** The number with the first group of the sextets, and of the bytes they stand for. */
  lemma GroupOfSextets(n: nat, vs: seq<Sextet>) returns (m: nat)
    requires |vs| >= 4 && BytesFrom(vs).Some? && BytesFrom(vs[4..]).Some?
    ensures NumberOfSextets(n, vs) == NumberOfSextets(m, vs[4..])
    ensures NumberOfBytes(n, BytesFrom(vs).value) == NumberOfBytes(m, BytesFrom(vs[4..]).value)
    ensures |BytesFrom(vs).value| == |BytesFrom(vs[4..]).value| + 3
  {
    var rest := BytesFrom(vs[4..]).value;
    var a, b, c := Joined(vs, rest);
    SameGroup(n, vs[0], vs[1], vs[2], vs[3], vs[4..], a, b, c, rest);
    assert vs == [vs[0], vs[1], vs[2], vs[3]] + vs[4..];
    m := ((n * 256 + a) * 256 + b) * 256 + c;
  }

  lemma Joined(vs: seq<Sextet>, rest: seq<Byte>) returns (a: Byte, b: Byte, c: Byte)
    requires |vs| >= 4 && BytesFrom(vs[4..]) == Some(rest)
    ensures BytesFrom(vs) == Some([a, b, c] + rest)
    ensures var v: int := vs[0]; ((v * 64 + vs[1]) * 64 + vs[2]) * 64 + vs[3] == (a * 256 + b) * 256 + c
  {
    a, b, c := Join(vs[0], vs[1], vs[2], vs[3]).0, Join(vs[0], vs[1], vs[2], vs[3]).1, Join(vs[0], vs[1], vs[2], vs[3]).2;
    JoinIsTheSameGroup(vs[0], vs[1], vs[2], vs[3]);
  }

  lemma JoinIsTheSameGroup(v: Sextet, w: Sextet, x: Sextet, y: Sextet)
    ensures var (a, b, c) := Join(v, w, x, y);
            ((v * 64 + w) * 64 + x) * 64 + y == (a * 256 + b) * 256 + c
  {
    assert w == 16 * (w / 16) + w % 16 && x == 4 * (x / 4) + x % 4;
  }
}
