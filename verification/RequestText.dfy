/**
 The text functions `readRequest` of Examples/Req.lean uses on a request head: Lean's
 `splitOn`, `toLower`, `trimAscii` and `toNat?`, on ASCII text.
 */
module RequestText {
  import opened Common

  const CRLF := "\r\n"
  const BLANK_LINE := "\r\n\r\n"

  predicate StartsAt(s: string, i: nat, sep: string) {
    i + |sep| <= |s| && s[i..i + |sep|] == sep
  }

  /** Where `sep` first occurs in `s`, or `|s|` when it does not. */
  function Find(s: string, sep: string): (k: nat)
    requires sep != ""
    ensures k <= |s| && (k < |s| ==> k + |sep| <= |s|)
  {
    if s == "" then 0
    else if StartsAt(s, 0, sep) then 0
    else Find(s[1..], sep) + 1
  }

  /** It is there, if anywhere, and nowhere before. */
  lemma {:induction false} FindIsFirst(s: string, sep: string)
    requires sep != ""
    ensures Find(s, sep) < |s| ==> StartsAt(s, Find(s, sep), sep)
    ensures forall i: nat | i < Find(s, sep) :: !StartsAt(s, i, sep)
  {
    if s != "" && !StartsAt(s, 0, sep) {
      FindIsFirst(s[1..], sep);
      StartsInTail(s, sep);
    }
  }

  lemma StartsInTail(s: string, sep: string)
    requires s != ""
    ensures forall i: nat | 0 < i :: StartsAt(s, i, sep) <==> StartsAt(s[1..], i - 1, sep)
  {
    forall i: nat | 0 < i ensures StartsAt(s, i, sep) <==> StartsAt(s[1..], i - 1, sep) {
      if i + |sep| <= |s| {
        assert s[1..][i - 1..] == s[i..];
        assert s[1..][i - 1..][..|sep|] == s[i..][..|sep|];
      }
    }
  }

  /** Text to the left of the first `sep`, and between and behind the others. */
  function SplitOn(s: string, sep: string): (r: seq<string>)
    requires sep != ""
    ensures r != []
    decreases |s|
  {
    var k := Find(s, sep);
    if k == |s| then [s] else [s[..k]] + SplitOn(s[k + |sep|..], sep)
  }

  /** The text from index `i` on, none when `i` is past the end. */
  function From(s: string, i: nat): string {
    if i <= |s| then s[i..] else ""
  }

  function GetD(xs: seq<string>, i: nat, default: string): string {
    if i < |xs| then xs[i] else default
  }

  predicate IsSpace(c: char) {
    c == ' ' || c == '\t' || c == '\r' || c == '\n'
  }

  function Trim(s: string): string {
    if s != "" && IsSpace(s[0]) then Trim(s[1..])
    else if s != "" && IsSpace(s[|s| - 1]) then Trim(s[..|s| - 1])
    else s
  }

  predicate IsDigit(c: char) {
    '0' <= c <= '9'
  }

  /** Digits, with single underscores between them. */
  predicate IsNat(s: string, afterDigit: bool) {
    if s == "" then afterDigit
    else if s[0] == '_' then afterDigit && IsNat(s[1..], false)
    else IsDigit(s[0]) && IsNat(s[1..], true)
  }

  function NatOf(s: string, acc: nat): nat {
    if s == "" then acc
    else if IsDigit(s[0]) then NatOf(s[1..], acc * 10 + (s[0] as int - '0' as int))
    else NatOf(s[1..], acc)
  }

  function ToNat(s: string): Option<nat> {
    if IsNat(s, false) then Some(NatOf(s, 0)) else None
  }

  // ── Writing numbers ──

  function Digit(n: nat): char
    requires n < 10
  {
    '0' + n as char
  }

  function Decimal(n: nat): (r: string)
    ensures r != "" && forall i | 0 <= i < |r| :: IsDigit(r[i])
  {
    if n < 10 then [Digit(n)] else Decimal(n / 10) + [Digit(n % 10)]
  }

  lemma {:induction false} DigitsAreNat(s: string, before: bool)
    requires forall i | 0 <= i < |s| :: IsDigit(s[i])
    requires s != "" || before
    ensures IsNat(s, before)
  {
    if s != "" {
      DigitsAreNat(s[1..], true);
    }
  }

  lemma {:induction false} NatOfSnoc(s: string, c: char, acc: nat)
    requires IsDigit(c)
    ensures NatOf(s + [c], acc) == NatOf(s, acc) * 10 + (c as int - '0' as int)
  {
    if s == "" {
      assert (s + [c])[1..] == "";
    } else {
      assert (s + [c])[1..] == s[1..] + [c];
      NatOfSnoc(s[1..], c, if IsDigit(s[0]) then acc * 10 + (s[0] as int - '0' as int) else acc);
    }
  }

  lemma {:induction false} ToNatInvertsDecimal(n: nat)
    ensures ToNat(Decimal(n)) == Some(n)
  {
    DigitsAreNat(Decimal(n), false);
    NatOfDecimal(n);
  }

  lemma {:induction false} NatOfDecimal(n: nat)
    ensures NatOf(Decimal(n), 0) == n
  {
    if n < 10 {
      assert Decimal(n)[1..] == "";
    } else {
      NatOfDecimal(n / 10);
      NatOfSnoc(Decimal(n / 10), Digit(n % 10), 0);
    }
  }

  lemma TrimmedField(v: string)
    requires v != "" && forall i | 0 <= i < |v| :: !IsSpace(v[i])
    ensures Trim(" " + v) == v
  {
    assert (" " + v)[1..] == v;
  }

  predicate Spaces(s: string) {
    forall i | 0 <= i < |s| :: s[i] == ' ' || s[i] == '\t'
  }

  /** Spaces on either side are trimmed off, and nothing else is. */
  lemma {:induction false} TrimIs(a: string, v: string, b: string)
    requires Spaces(a) && Spaces(b) && v != "" && !IsSpace(v[0]) && !IsSpace(v[|v| - 1])
    ensures Trim(a + v + b) == v
    decreases |a| + |b|
  {
    var s := a + v + b;
    if a != "" {
      assert s[1..] == a[1..] + v + b;
      TrimIs(a[1..], v, b);
    } else if b != "" {
      assert s[0] == v[0] && s[..|s| - 1] == a + v + b[..|b| - 1];
      TrimIs(a, v, b[..|b| - 1]);
    } else {
      assert s == v;
    }
  }

  lemma {:induction false} TrimKeeps(s: string, c: char)
    requires c in s && !IsSpace(c)
    ensures c in Trim(s)
    decreases |s|
  {
    if s != "" && IsSpace(s[0]) {
      TrimKeeps(s[1..], c);
    } else if s != "" && IsSpace(s[|s| - 1]) {
      assert s == s[..|s| - 1] + [s[|s| - 1]];
      TrimKeeps(s[..|s| - 1], c);
    }
  }

  /** A number has only digits and underscores in it. */
  lemma {:induction false} NatCharacters(s: string, before: bool, c: char)
    requires IsNat(s, before) && c in s
    ensures IsDigit(c) || c == '_'
  {
    if c != s[0] {
      NatCharacters(s[1..], s[0] != '_', c);
    }
  }

  predicate Zeros(z: string) {
    forall i | 0 <= i < |z| :: z[i] == '0'
  }

  lemma {:induction false} NatOfZeros(z: string, d: string)
    requires Zeros(z)
    ensures NatOf(z + d, 0) == NatOf(d, 0)
  {
    if z == "" {
      assert z + d == d;
    } else {
      assert (z + d)[1..] == z[1..] + d;
      NatOfZeros(z[1..], d);
    }
  }

  /** Leading zeros do not count. */
  lemma ZerosAreRead(z: string, n: nat)
    requires Zeros(z)
    ensures ToNat(z + Decimal(n)) == Some(n)
  {
    DigitsAreNat(z + Decimal(n), false);
    NatOfZeros(z, Decimal(n));
    NatOfDecimal(n);
  }

  lemma {:induction false} AfterDigits(x: string, t: string, before: bool, acc: nat)
    requires x != "" && forall i | 0 <= i < |x| :: IsDigit(x[i])
    ensures IsNat(x + t, before) == IsNat(t, true)
    ensures NatOf(x + t, acc) == NatOf(t, NatOf(x, acc))
  {
    assert (x + t)[1..] == x[1..] + t && (x + t)[0] == x[0];
    if |x| == 1 {
      assert x[1..] + t == t;
    } else {
      AfterDigits(x[1..], t, true, acc * 10 + (x[0] as int - '0' as int));
    }
  }

  /** An underscore between digits is passed over; anywhere else it is no number. */
  lemma Underscores(x: string, y: string)
    requires x != "" && forall i | 0 <= i < |x| :: '0' <= x[i] <= '9'
    requires y != "" && forall i | 0 <= i < |y| :: '0' <= y[i] <= '9'
    ensures ToNat(x + ("_" + y)) == ToNat(x + y) != None
    ensures ToNat("_" + y) == None && ToNat(x + "_") == None && ToNat(x + ("__" + y)) == None
  {
    AfterDigits(x, "_" + y, false, 0);
    AfterDigits(x, y, false, 0);
    AfterDigits(x, "_", false, 0);
    AfterDigits(x, "__" + y, false, 0);
    assert ("_" + y)[1..] == y && ("__" + y)[1..] == "_" + y;
    DigitsAreNat(y, false);
    DigitsAreNat(y, true);
  }

  // ── Finding and splitting ──

  lemma FindIs(s: string, sep: string, k: nat)
    requires sep != "" && StartsAt(s, k, sep)
    requires forall i: nat | i < k :: !StartsAt(s, i, sep)
    ensures Find(s, sep) == k
  {
    FindIsFirst(s, sep);
  }

  /** What is found in a prefix is found in the whole. */
  lemma FindInPrefix(s: string, more: string, sep: string)
    requires sep != "" && Find(s, sep) < |s|
    ensures Find(s + more, sep) == Find(s, sep)
  {
    var k := Find(s, sep);
    FindIsFirst(s, sep);
    assert (s + more)[k..k + |sep|] == s[k..k + |sep|];
    forall i: nat | i < k ensures !StartsAt(s + more, i, sep) {
      assert !StartsAt(s, i, sep) && i + |sep| <= |s|;
      assert (s + more)[i..i + |sep|] == s[i..i + |sep|];
    }
    FindIs(s + more, sep, k);
  }
}
