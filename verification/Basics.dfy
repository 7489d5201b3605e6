// Shared vocabulary: bytes, results, and searching in sequences.

module Basics {
  datatype Option<+T> = None | Some(value: T)
  datatype Result<+T, +E> = Ok(value: T) | Err(error: E)

  newtype byte = x: int | 0 <= x < 256

  const NEWLINE: byte := 10

  /** The bytes of a text whose characters are all ASCII. */
  function Ascii(text: string): (b: seq<byte>)
    requires forall c <- text :: c as int < 128
    ensures |b| == |text|
    ensures forall i :: 0 <= i < |b| ==> b[i] as int == text[i] as int
  {
    seq(|text|, i requires 0 <= i < |text| => (assert text[i] in text; text[i] as int as byte))
  }

  predicate IsDigit(b: byte) {
    48 <= b <= 57
  }

  /** `p` occurs in `s` at position `i`. */
  predicate MatchAt<T(==)>(s: seq<T>, p: seq<T>, i: int) {
    0 <= i && i + |p| <= |s| && s[i..i + |p|] == p
  }

  predicate StartsWith<T(==)>(s: seq<T>, p: seq<T>) {
    MatchAt(s, p, 0)
  }

  predicate Contains<T(==)>(s: seq<T>, p: seq<T>) {
    exists i | 0 <= i <= |s| :: MatchAt(s, p, i)
  }

  /** Position of the first occurrence of `p` in `s` at or after `from`. */
  function FindFrom<T(==)>(s: seq<T>, p: seq<T>, from: nat): (r: Option<nat>)
    requires from <= |s|
    ensures r.Some? ==> from <= r.value && MatchAt(s, p, r.value)
                        && forall i | from <= i < r.value :: !MatchAt(s, p, i)
    ensures r.None? ==> forall i | from <= i <= |s| :: !MatchAt(s, p, i)
    decreases |s| - from
  {
    if MatchAt(s, p, from) then Some(from)
    else if from == |s| then None
    else FindFrom(s, p, from + 1)
  }

  function Find<T(==)>(s: seq<T>, p: seq<T>): (r: Option<nat>)
    ensures r.Some? ==> MatchAt(s, p, r.value) && forall i | 0 <= i < r.value :: !MatchAt(s, p, i)
    ensures r.None? ==> forall i | 0 <= i <= |s| :: !MatchAt(s, p, i)
  {
    FindFrom(s, p, 0)
  }

  lemma MatchInSlice<T>(s: seq<T>, p: seq<T>, i: nat, j: nat, k: nat)
    requires i <= j <= |s| && k + |p| <= j - i
    ensures MatchAt(s[i..j], p, k) <==> MatchAt(s, p, i + k)
  {
    var inner, outer := s[i..j][k..k + |p|], s[i + k..i + k + |p|];
    assert forall x | 0 <= x < |p| :: inner[x] == outer[x];
    assert inner == outer;
  }

  lemma MatchInFront<T>(u: seq<T>, v: seq<T>, p: seq<T>, k: nat)
    requires k + |p| <= |u|
    ensures MatchAt(u + v, p, k) <==> MatchAt(u, p, k)
  {
    assert (u + v)[0..|u|] == u;
    MatchInSlice(u + v, p, 0, |u|, k);
  }

  lemma MatchInBack<T>(u: seq<T>, v: seq<T>, p: seq<T>, k: nat)
    ensures MatchAt(u + v, p, |u| + k) <==> MatchAt(v, p, k)
  {
    if k + |p| <= |v| {
      assert (u + v)[|u|..|u + v|] == v;
      MatchInSlice(u + v, p, |u|, |u + v|, k);
    }
  }

  /** The first occurrence is determined. */
  lemma FindIs<T>(s: seq<T>, p: seq<T>, at: nat)
    requires MatchAt(s, p, at) && forall k | 0 <= k < at :: !MatchAt(s, p, k)
    ensures Find(s, p) == Some(at)
  {
  }

  function Flatten<T>(parts: seq<seq<T>>): seq<T> {
    if parts == [] then [] else parts[0] + Flatten(parts[1..])
  }

  /** The white space characters of Unicode. */
  predicate IsSpace(c: char) {
    var n := c as int;
    9 <= n <= 13 || n in {32, 133, 160, 5760, 8232, 8233, 8239, 8287, 12288} || 8192 <= n <= 8202
  }

  function TrimSpace(s: string): string {
    if s == [] then s
    else if IsSpace(s[0]) then TrimSpace(s[1..])
    else if IsSpace(s[|s| - 1]) then TrimSpace(s[..|s| - 1])
    else s
  }

  /** Lower case of ASCII letters; other characters stay. */
  function LowerChar(c: char): char {
    if 'A' <= c <= 'Z' then c - 'A' + 'a' else c
  }

  // ----- The alphabet -----

  const LETTERS: string := "abcdefghijklmnopqrstuvwxyz"
  const CAPITALS: string := "ABCDEFGHIJKLMNOPQRSTUVWXYZ"
  const DIGITS: string := "0123456789"

  lemma LettersInOrder()
    ensures |LETTERS| == 26 == |CAPITALS| && |DIGITS| == 10
    ensures forall i | 0 <= i < 26 :: LETTERS[i] as int == 97 + i && CAPITALS[i] as int == 65 + i
    ensures forall i | 0 <= i < 10 :: DIGITS[i] as int == 48 + i
  {
  }

  lemma InLetters(c: char)
    ensures c in LETTERS <==> 97 <= c as int <= 122
    ensures c in CAPITALS <==> 65 <= c as int <= 90
    ensures c in DIGITS <==> 48 <= c as int <= 57
  {
    LettersInOrder();
    hide LETTERS, CAPITALS, DIGITS;
    if 97 <= c as int <= 122 {
      assert LETTERS[c as int - 97] == c;
    }
    if 65 <= c as int <= 90 {
      assert CAPITALS[c as int - 65] == c;
    }
    if 48 <= c as int <= 57 {
      assert DIGITS[c as int - 48] == c;
    }
  }

  // ----- Numbers and sets -----

  function Min(a: nat, b: nat): nat {
    if a < b then a else b
  }

  function Pow2(n: nat): (p: nat)
    ensures p > 0
  {
    if n == 0 then 1 else 2 * Pow2(n - 1)
  }

  function Pow10(n: nat): nat {
    if n == 0 then 1 else 10 * Pow10(n - 1)
  }

  lemma SubsetCount<T>(a: set<T>, b: set<T>)
    requires a <= b
    ensures |a| <= |b|
    ensures a < b ==> |a| < |b|
  {
    assert b == a + (b - a);
  }
}
