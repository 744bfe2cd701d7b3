/** What every component shares: bytes, options, and a few facts about sequences. */
module Common {
  type Byte = x: int | 0 <= x < 256

  datatype Option<T> = None | Some(value: T)

  function Min(a: nat, b: nat): nat { if a < b then a else b }

  function Max(a: nat, b: nat): nat { if a < b then b else a }

  const CR: Byte := 13
  const LF: Byte := 10

  // ── ASCII ──

  const UPPER := "ABCDEFGHIJKLMNOPQRSTUVWXYZ"
  const LOWER := "abcdefghijklmnopqrstuvwxyz"
  const DIGITS := "0123456789"

  lemma UpperLetter(v: nat)
    requires v < 26
    ensures 'A' + v as char == UPPER[v]
  {
    match v
    case 0 => case 1 => case 2 => case 3 => case 4 => case 5 => case 6 => case 7 => case 8 =>
    case 9 => case 10 => case 11 => case 12 => case 13 => case 14 => case 15 => case 16 => case 17 =>
    case 18 => case 19 => case 20 => case 21 => case 22 => case 23 => case 24 =>
    case _ =>
  }

  lemma LowerLetter(v: nat)
    requires v < 26
    ensures 'a' + v as char == LOWER[v]
  {
    match v
    case 0 => case 1 => case 2 => case 3 => case 4 => case 5 => case 6 => case 7 => case 8 =>
    case 9 => case 10 => case 11 => case 12 => case 13 => case 14 => case 15 => case 16 => case 17 =>
    case 18 => case 19 => case 20 => case 21 => case 22 => case 23 => case 24 =>
    case _ =>
  }

  lemma DigitLetter(v: nat)
    requires v < 10
    ensures '0' + v as char == DIGITS[v]
  {
    match v
    case 0 => case 1 => case 2 => case 3 => case 4 => case 5 => case 6 => case 7 => case 8 =>
    case _ =>
  }

  function Lower(c: char): char {
    if 'A' <= c <= 'Z' then c + ('a' - 'A') else c
  }

  function ToLower(s: string): (r: string)
    ensures |r| == |s| && forall i | 0 <= i < |s| :: r[i] == Lower(s[i])
  {
    seq(|s|, i requires 0 <= i < |s| => Lower(s[i]))
  }

  /** Capitals, and nothing else, change. */
  lemma LowerByTable(c: char)
    ensures (exists v: nat :: v < 26 && UPPER[v] == c && Lower(c) == LOWER[v])
         || (Lower(c) == c && forall v: nat | v < 26 :: UPPER[v] != c)
  {
    if 'A' <= c <= 'Z' {
      var v: nat := (c - 'A') as int;
      UpperLetter(v);
      LowerLetter(v);
      assert v < 26 && UPPER[v] == c && Lower(c) == LOWER[v];
    } else {
      forall v: nat | v < 26 ensures UPPER[v] != c {
        UpperLetter(v);
      }
    }
  }

  // ── Sequences of pieces ──

  /** All the pieces of `xs`, in order. */
  function Concat<T>(xs: seq<seq<T>>): seq<T> {
    if xs == [] then [] else xs[0] + Concat(xs[1..])
  }

  lemma {:induction false} ConcatSnoc<T>(xs: seq<seq<T>>, x: seq<T>)
    ensures Concat(xs + [x]) == Concat(xs) + x
  {
    if xs == [] {
      assert xs + [x] == [x];
    } else {
      ConcatSnoc(xs[1..], x);
      assert (xs + [x])[1..] == xs[1..] + [x];
    }
  }
}
