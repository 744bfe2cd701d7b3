/**
 The base64url codec of ffi/jose.c: RFC 4648 section 5 without padding, made from the
 standard encoder and decoder by rewriting an array of characters in place.
 */
module Base64Url {
  import opened Common
  import opened Base64

  function ToUrl(c: char): char {
    if c == '+' then '-' else if c == '/' then '_' else c
  }

  function ToStd(c: char): char {
    if c == '-' then '+' else if c == '_' then '/' else c
  }

  function UrlOf(s: string): (r: string)
    ensures |r| == |s| && forall i | 0 <= i < |s| :: r[i] == ToUrl(s[i])
  {
    seq(|s|, i requires 0 <= i < |s| => ToUrl(s[i]))
  }

  function StdOf(s: string): (r: string)
    ensures |r| == |s| && forall i | 0 <= i < |s| :: r[i] == ToStd(s[i])
  {
    seq(|s|, i requires 0 <= i < |s| => ToStd(s[i]))
  }

  /** What encoding means: the letters in the URL alphabet, unpadded. */
  function UrlEncoded(bs: seq<Byte>): string {
    UrlOf(Letters(bs))
  }

  function MissingPadding(n: nat): nat {
    (4 - n % 4) % 4
  }

  /** What decoding means: the standard decoding, padding restored. */
  function UrlDecoded(s: string): Option<seq<Byte>> {
    Decode(StdOf(s) + Padding(MissingPadding(|s|)))
  }

  // ── The encoder and decoder OpenSSL provides, on arrays ──

  /** EVP_EncodeBlock: the encoding and a NUL, and the length without the NUL. */
  method EvpEncodeBlock(b64: array<char>, data: seq<Byte>) returns (n: nat)
    requires b64.Length > |Encode(data)|
    modifies b64
    ensures n == |Encode(data)| && b64[..n] == Encode(data)
  {
    var e := Encode(data);
    forall i | 0 <= i < |e| {
      b64[i] := e[i];
    }
    b64[|e|] := '\0';
    return |e|;
  }

  /** EVP_DecodeInit, EVP_DecodeUpdate and EVP_DecodeFinal: the length, or -1. */
  method EvpDecode(decoded: array<Byte>, b64: array<char>, n: nat) returns (len: int)
    requires n <= b64.Length && n / 4 * 3 <= decoded.Length
    modifies decoded
    ensures -1 <= len <= n / 4 * 3
    ensures len == -1 <==> Decode(b64[..n]) == None
    ensures len >= 0 ==> Decode(b64[..n]) == Some(decoded[..len])
  {
    var chars := b64[..n];
    var r := Decode(chars);
    DecodeFits(chars);
    if r == None {
      return -1;
    }
    forall i | 0 <= i < |r.value| {
      decoded[i] := r.value[i];
    }
    assert decoded[..|r.value|] == r.value && b64[..n] == chars;
    return |r.value|;
  }

  // ── The two functions of ffi/jose.c ──

  method UrlEncode(data: seq<Byte>) returns (s: string)
    ensures s == UrlEncoded(data)
  {
    if |data| == 0 {
      return "";
    }
    var b64Max := (|data| + 2) / 3 * 4 + 1;
    var b64 := new char[b64Max];
    EncodedLength(data);
    var b64Len := EvpEncodeBlock(b64, data);
    Translate(b64, b64Len);
    ThenPadding(data);
    ghost var r := UrlOf(Encode(data));
    assert r == b64[..b64Len];
    var outLen := b64Len;
    while outLen > 0 && b64[outLen - 1] == PAD
      invariant |Letters(data)| <= outLen <= b64Len
    {
      outLen := outLen - 1;
      assert r[outLen] == PAD;
    }
    b64[outLen] := '\0';
    assert b64[..outLen] == r[..outLen];
    return b64[..outLen];
  }

  /** The loop that puts the first `n` characters into the URL alphabet. */
  method Translate(b64: array<char>, n: nat)
    requires n <= b64.Length
    modifies b64
    ensures b64[..n] == UrlOf(old(b64[..n]))
  {
    for i := 0 to n
      invariant forall j | 0 <= j < i :: b64[j] == ToUrl(old(b64[j]))
      invariant forall j | i <= j < n :: b64[j] == old(b64[j])
    {
      if b64[i] == '+' {
        b64[i] := '-';
      } else if b64[i] == '/' {
        b64[i] := '_';
      }
    }
  }

  /** The URL letters of an encoding, and the padding behind them. */
  lemma ThenPadding(data: seq<Byte>)
    ensures var r, n := UrlOf(Encode(data)), |Letters(data)|;
            && n <= |r| && r[..n] == UrlEncoded(data)
            && (forall i | 0 <= i < n :: r[i] != PAD) && (forall i | n <= i < |r| :: r[i] == PAD)
  {
    LettersAreLetters(data);
  }

  /** The input in the standard alphabet, its padding restored, and a NUL. */
  method Restore(input: string) returns (b64: array<char>, paddedLen: nat)
    ensures paddedLen == |input| + MissingPadding(|input|) && b64.Length == paddedLen + 1
    ensures b64[..paddedLen] == StdOf(input) + Padding(MissingPadding(|input|))
  {
    var inputLen := |input|;
    paddedLen := inputLen;
    var pad := (4 - inputLen % 4) % 4;
    paddedLen := paddedLen + pad;
    b64 := new char[paddedLen + 1];
    for i := 0 to inputLen
      invariant forall j | 0 <= j < i :: b64[j] == ToStd(input[j])
    {
      var c := input[i];
      if c == '-' {
        b64[i] := '+';
      } else if c == '_' {
        b64[i] := '/';
      } else {
        b64[i] := c;
      }
    }
    for i := 0 to pad
      invariant forall j | 0 <= j < inputLen :: b64[j] == ToStd(input[j])
      invariant forall j | inputLen <= j < inputLen + i :: b64[j] == PAD
    {
      b64[inputLen + i] := PAD;
    }
    b64[paddedLen] := '\0';
  }

  method UrlDecode(input: string) returns (r: Option<seq<Byte>>)
    ensures r == UrlDecoded(input)
  {
    if |input| == 0 {
      assert StdOf(input) + Padding(0) == "";
      return Some([]);
    }
    var b64, paddedLen := Restore(input);
    var maxOut := paddedLen / 4 * 3;
    var decoded := new Byte[maxOut];
    var total := EvpDecode(decoded, b64, paddedLen);
    return if total < 0 then None else Some(decoded[..total]);
  }

  // ── Lengths and alphabets ──

  lemma LettersAreLetters(bs: seq<Byte>)
    ensures AllLetters(Letters(bs)) && |Letters(bs)| == (4 * |bs| + 2) / 3
  {
    SextetsLength(bs);
    TextIsLetters(Sextets(bs));
  }

  /** ceil(4n/3) letters, and padding to the next multiple of four: all there is room for. */
  lemma EncodedLength(bs: seq<Byte>)
    ensures |UrlEncoded(bs)| == (4 * |bs| + 2) / 3
    ensures |Encode(bs)| == (|bs| + 2) / 3 * 4
  {
    SextetsLength(bs);
  }

  lemma BytesOfFits(s: string)
    ensures BytesOf(s).Some? ==> |BytesOf(s).value| == |s| * 3 / 4
    ensures BytesOf(s).Some? <==> AllLetters(s) && |s| % 4 != 1
  {
    if AllLetters(s) {
      BytesFromLength(Values(s));
    }
  }

  lemma DecodeFits(s: string)
    ensures Decode(s).Some? ==> |Decode(s).value| <= |s| / 4 * 3
  {
    BytesOfFits(s[..|s| - PadsAtEnd(s)]);
  }

  // ── Round trips ──

  /** Restored padding is taken off again: one or two characters are, more never decode. */
  lemma DecodePadded(letters: string, n: nat)
    requires (|letters| + n) % 4 == 0 && (letters != [] ==> letters[|letters| - 1] != PAD)
    ensures Decode(letters + Padding(n)) == if n <= 2 && (n > 0 ==> letters != []) then BytesOf(letters) else None
  {
    var s := letters + Padding(n);
    PadsOf(letters, n);
    assert n <= 2 ==> s[..|s| - n] == letters;
    if n > 2 || letters == [] {
      var kept := s[..|s| - PadsAtEnd(s)];
      assert kept != [] ==> kept[|kept| - 1] == PAD;
      BytesOfFits(kept);
    }
  }

  lemma PadsOf(letters: string, n: nat)
    requires letters != [] ==> letters[|letters| - 1] != PAD
    ensures PadsAtEnd(letters + Padding(n)) == if n <= 2 then n else 2
  {
  }

  lemma StdOfUrlOf(s: string)
    requires AllLetters(s)
    ensures StdOf(UrlOf(s)) == s
  {
  }

  lemma MissingCompletes(n: nat)
    ensures (n + MissingPadding(n)) % 4 == 0
    ensures n % 4 != 1 ==> MissingPadding(n) <= 2
    ensures n == 0 ==> MissingPadding(n) == 0
  {
    RoundUp(n);
    MissingIs(n);
  }

  /** Without padding of its own, a string decodes as its letters do. */
  lemma UrlDecodesLetters(letters: string)
    requires AllLetters(letters) && |letters| % 4 != 1
    ensures Decode(letters + Padding(MissingPadding(|letters|))) == BytesOf(letters)
  {
    MissingCompletes(|letters|);
    DecodePadded(letters, MissingPadding(|letters|));
  }

  /** decode(encode(x)) = x, for every byte string. */
  lemma DecodeInvertsEncode(bs: seq<Byte>)
    ensures UrlDecoded(UrlEncoded(bs)) == Some(bs)
  {
    LettersAreLetters(bs);
    StdOfUrlOf(Letters(bs));
    TextIsLetters(Sextets(bs));
    SextetsBack(bs);
    BytesFromLength(Sextets(bs));
    UrlDecodesLetters(Letters(bs));
  }

  // ── What decodes, and what it encodes back to ──

  predicate IsUrlLetter(c: char) {
    (IsLetter(c) && c != '+' && c != '/') || c == '-' || c == '_'
  }

  /** The strings that encoding can give. */
  predicate Canonical(s: string) {
    && (forall i | 0 <= i < |s| :: IsUrlLetter(s[i]))
    && |s| % 4 != 1
    && UnusedBits(Values(StdOf(s))) == 0
  }

  /** encode(decode(s)) = s exactly for the strings in canonical form, among all that decode. */
  lemma EncodeInvertsDecode(s: string)
    requires UrlDecoded(s).Some?
    ensures UrlEncoded(UrlDecoded(s).value) == s <==> Canonical(s)
  {
    var bs := UrlDecoded(s).value;
    LettersAreLetters(bs);
    if forall i | 0 <= i < |s| :: IsUrlLetter(s[i]) {
      CanonicalLetters(s);
    } else {
      var i :| 0 <= i < |s| && !IsUrlLetter(s[i]);
      assert i < |UrlEncoded(bs)| ==> IsUrlLetter(UrlEncoded(bs)[i]);
    }
  }

  lemma CanonicalLetters(s: string)
    requires UrlDecoded(s).Some? && forall i | 0 <= i < |s| :: IsUrlLetter(s[i])
    ensures AllLetters(StdOf(s))
    ensures UrlEncoded(UrlDecoded(s).value) == s <==> UnusedBits(Values(StdOf(s))) == 0 && |s| % 4 != 1
  {
    var std := StdOf(s);
    MissingCompletes(|s|);
    DecodePadded(std, MissingPadding(|s|));
    BytesOfFits(std);
    BytesBack(Values(std));
    SameInUrl(UrlDecoded(s).value, s);
  }

  /** Two texts are the same in one alphabet when they are in the other. */
  lemma SameInUrl(bs: seq<Byte>, s: string)
    requires forall i | 0 <= i < |s| :: IsUrlLetter(s[i])
    ensures AllLetters(StdOf(s))
    ensures UrlEncoded(bs) == s <==> Sextets(bs) == Values(StdOf(s))
  {
    var std := StdOf(s);
    TextIsLetters(Sextets(bs));
    ValuesAreLetters(std);
    StdOfUrlOf(Letters(bs));
    assert UrlOf(std) == s;
  }

  /** Every string is some text and the padding behind it. */
  lemma {:induction false} TextAndPadding(s: string) returns (t: string, k: nat)
    ensures s == t + Padding(k) && (t == [] || t[|t| - 1] != PAD)
  {
    if s != [] && s[|s| - 1] == PAD {
      t, k := TextAndPadding(s[..|s| - 1]);
      assert Padding(k + 1) == Padding(k) + [PAD];
      assert s == s[..|s| - 1] + [PAD] == t + (Padding(k) + [PAD]);
      k := k + 1;
    } else {
      t, k := s, 0;
      assert s == s + Padding(0);
    }
  }

  /** How many pads there are in all once the missing ones are restored: at most two, and
      none behind nothing, exactly when there were not too many. */
  lemma PadsInAll(n: nat, k: nat)
    ensures var all := k + MissingPadding(n + k);
            && (n + all) % 4 == 0
            && (n % 4 != 1 ==> (all <= 2 && (all > 0 ==> n > 0) <==> k <= MissingPadding(n)))
  {
    MissingIs(n);
    MissingIs(n + k);
    RoundUp(n + k);
    if k <= MissingPadding(n) {
      PadsWithin(n, k);
    }
  }

  lemma MissingIs(n: nat)
    ensures MissingPadding(n) == if n % 4 == 0 then 0 else 4 - n % 4
  {
  }

  lemma RoundUp(n: nat)
    ensures (n + MissingPadding(n)) % 4 == 0
  {
    MissingIs(n);
    assert n == 4 * (n / 4) + n % 4;
  }

  /** Pads that are missing anyway only take the place of others. */
  lemma PadsWithin(n: nat, k: nat)
    requires k <= MissingPadding(n)
    ensures k + MissingPadding(n + k) == MissingPadding(n)
  {
    MissingIs(n);
    MissingIs(n + k);
    assert n == 4 * (n / 4) + n % 4;
  }

  /** Exactly which strings decode: letters of either alphabet, not one more than a
      multiple of four, and no more padding behind them than completes the last group. */
  lemma DecodesIff(t: string, k: nat)
    requires t == [] || t[|t| - 1] != PAD
    ensures UrlDecoded(t + Padding(k)).Some? <==>
              AllLetters(StdOf(t)) && |t| % 4 != 1 && k <= MissingPadding(|t|)
  {
    var all := k + MissingPadding(|t| + k);
    PadsInAll(|t|, k);
    UrlDecodedPadded(t, k);
    LastIsNoPad(t);
    DecodesWith(StdOf(t), all, k <= MissingPadding(|t|));
  }

  lemma LastIsNoPad(t: string)
    requires t != [] ==> t[|t| - 1] != PAD
    ensures t != [] ==> StdOf(t)[|t| - 1] != PAD
  {
  }

  /** So every string in canonical form decodes, and to what is encoded back to it. */
  lemma CanonicalIsKept(s: string)
    requires Canonical(s)
    ensures UrlDecoded(s).Some? && UrlEncoded(UrlDecoded(s).value) == s
  {
    assert s + Padding(0) == s;
    assert forall i | 0 <= i < |s| :: IsUrlLetter(s[i]);
    DecodesIff(s, 0);
    EncodeInvertsDecode(s);
  }

  lemma UrlDecodedPadded(t: string, k: nat)
    ensures UrlDecoded(t + Padding(k)) == Decode(StdOf(t) + Padding(k + MissingPadding(|t| + k)))
  {
    PaddedText(t, k, MissingPadding(|t| + k));
  }

  lemma PaddedText(t: string, k: nat, m: nat)
    requires m == MissingPadding(|t| + k)
    ensures StdOf(t + Padding(k)) + Padding(MissingPadding(|t + Padding(k)|)) == StdOf(t) + Padding(k + m)
  {
    assert |t + Padding(k)| == |t| + k;
    StdOfPadded(t, k, m);
  }

  lemma DecodesWith(std: string, all: nat, enough: bool)
    requires (|std| + all) % 4 == 0 && (std != [] ==> std[|std| - 1] != PAD)
    requires |std| % 4 != 1 ==> (all <= 2 && (all > 0 ==> |std| > 0) <==> enough)
    ensures Decode(std + Padding(all)).Some? <==> AllLetters(std) && |std| % 4 != 1 && enough
  {
    DecodePadded(std, all);
    BytesOfFits(std);
  }

  lemma StdOfPadded(t: string, k: nat, m: nat)
    ensures StdOf(t + Padding(k)) + Padding(m) == StdOf(t) + Padding(k + m)
  {
  }

  // ── The alphabets, character by character ──

  lemma TablesAgree(v: Sextet)
    ensures ToUrl(TABLE[v]) == URL_TABLE[v]
    ensures ToStd(URL_TABLE[v]) == TABLE[v] == ToStd(TABLE[v])
  {
    LetterIsInTable(v);
  }

  /** Character number `i` of an encoding is the entry of the URL table at sextet `i`. */
  lemma UrlEncodedByTable(bs: seq<Byte>, i: nat)
    requires i < |UrlEncoded(bs)|
    ensures |Sextets(bs)| == |UrlEncoded(bs)|
    ensures UrlEncoded(bs)[i] == URL_TABLE[Sextets(bs)[i]]
  {
    LetterIsInTable(Sextets(bs)[i]);
    TablesAgree(Sextets(bs)[i]);
  }

  /** A string decodes to the bytes of the sextets at which its characters are in either
      table, whether its padding is there or not, unless the length is wrong. */
  lemma DecodedByTable(t: string, vs: seq<Sextet>, k: nat)
    requires |t| == |vs| && forall i | 0 <= i < |t| :: t[i] == URL_TABLE[vs[i]] || t[i] == TABLE[vs[i]]
    ensures UrlDecoded(t + Padding(k)) ==
            if |vs| % 4 != 1 && k <= (4 - |vs| % 4) % 4 then BytesFrom(vs) else None
  {
    StdByTable(t, vs);
    DecodesIff(t, k);
    MissingIs(|t|);
    if |vs| % 4 != 1 && k <= MissingPadding(|t|) {
      DecodedPadded(t, k);
    }
  }

  lemma DecodedPadded(t: string, k: nat)
    requires AllLetters(StdOf(t)) && |t| % 4 != 1 && k <= MissingPadding(|t|)
    ensures UrlDecoded(t + Padding(k)) == BytesFrom(Values(StdOf(t)))
  {
    var std := StdOf(t);
    UrlDecodedPadded(t, k);
    PadsWithin(|t|, k);
    assert UrlDecoded(t + Padding(k)) == Decode(std + Padding(MissingPadding(|std|)));
    UrlDecodesLetters(std);
  }

  lemma StdByTable(t: string, vs: seq<Sextet>)
    requires |t| == |vs| && forall i | 0 <= i < |t| :: t[i] == URL_TABLE[vs[i]] || t[i] == TABLE[vs[i]]
    ensures AllLetters(StdOf(t)) && Values(StdOf(t)) == vs
    ensures t != [] ==> t[|t| - 1] != PAD
  {
    forall i | 0 <= i < |t| ensures StdOf(t)[i] == TABLE[vs[i]] {
      TablesAgree(vs[i]);
    }
    ReadByTable(StdOf(t), vs);
    if t != [] {
      LetterIsNoPad(StdOf(t)[|t| - 1]);
    }
  }

  lemma LetterIsNoPad(c: char)
    requires IsLetter(c)
    ensures c != PAD
  {
  }

  /** Whoever is in neither table does not decode. */
  lemma NotInTables(c: char)
    ensures IsLetter(ToStd(c)) <==> exists v: nat :: v < 64 && (URL_TABLE[v] == c || TABLE[v] == c)
  {
    LettersAreTheTable(ToStd(c));
    if IsLetter(ToStd(c)) {
      var v: nat :| v < 64 && TABLE[v] == ToStd(c);
      TablesAgree(v);
      assert URL_TABLE[v] == c || TABLE[v] == c;
    }
    forall v: nat | v < 64 && (URL_TABLE[v] == c || TABLE[v] == c) ensures IsLetter(ToStd(c)) {
      TablesAgree(v);
      assert TABLE[v] == ToStd(c);
    }
  }
}
