/**
 The string operations the reply selector relies on: `toLowerCase`,
 `includes` and `startsWith`, over `string` = `seq<char>`.
 */
module Strings {

  /** An ASCII capital letter. */
  predicate IsUpper(c: char) {
    'A' <= c <= 'Z'
  }

  /** Case fold of one character: 'A'..'Z' become 'a'..'z', every other
      character is kept. */
  function LowerChar(c: char): char {
    if IsUpper(c) then (c as int + 32) as char else c
  }

  /** `toLowerCase`, restricted to the ASCII letters. */
  function Lower(s: string): (r: string)
    ensures |r| == |s|
    ensures forall i :: 0 <= i < |s| ==> !IsUpper(r[i])
    ensures forall i :: 0 <= i < |s| && !IsUpper(s[i]) ==> r[i] == s[i]
    ensures forall i :: 0 <= i < |s| && IsUpper(s[i]) ==> r[i] as int == s[i] as int + 32
  {
    if s == [] then [] else [LowerChar(s[0])] + Lower(s[1..])
  }

  /** Folding twice is folding once. */
  lemma LowerIdempotent(s: string)
    ensures Lower(Lower(s)) == Lower(s)
  {
  }

  /** Text without ASCII capitals is left as it is. */
  lemma LowerKeepsLowercase(s: string)
    requires forall i :: 0 <= i < |s| ==> !IsUpper(s[i])
    ensures Lower(s) == s
  {
  }

  /** `needle` occurs in `hay` starting at offset `i`. */
  predicate OccursAt(needle: string, hay: string, i: nat) {
    i + |needle| <= |hay| && hay[i..i + |needle|] == needle
  }

  /** What `hay.includes(needle)` means: some offset carries the needle. */
  ghost predicate IsSubstring(needle: string, hay: string) {
    exists i: nat :: OccursAt(needle, hay, i)
  }

  /** Offset-by-offset search for `needle` at offsets `from` and later. */
  function IncludesFrom(hay: string, needle: string, from: nat): (b: bool)
    ensures b <==> exists i: nat :: from <= i && OccursAt(needle, hay, i)
    decreases |hay| - from
  {
    if from + |needle| > |hay| then false
    else if hay[from..from + |needle|] == needle then
      assert OccursAt(needle, hay, from);
      true
    else IncludesFrom(hay, needle, from + 1)
  }

  /** `hay.includes(needle)`. */
  function Includes(hay: string, needle: string): (b: bool)
    ensures b <==> IsSubstring(needle, hay)
  {
    IncludesFrom(hay, needle, 0)
  }

  /** The empty string is contained in every string, as in JavaScript. */
  lemma EmptyIsEverywhere(hay: string)
    ensures IsSubstring("", hay)
  {
    assert OccursAt("", hay, 0);
  }

  /** `s.startsWith(prefix)`. */
  predicate StartsWith(s: string, prefix: string) {
    |prefix| <= |s| && s[..|prefix|] == prefix
  }
}
