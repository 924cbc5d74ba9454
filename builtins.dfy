/** The few Python built-ins the ranking code leans on, with the semantics
    Python gives them: `str.lower`, the substring test `k in q`, `min` and
    `max` over a list, the slice `xs[:k]` (negative `k` included) and
    `dict.get(key, "")` on a JSON object whose values are strings. */
module Builtins {

  datatype Option<+T> = None | Some(value: T)

  /** A catalog record as loaded from JSON: field name to field text. */
  type Metadata = map<string, string>

  /** `metadata.get(key, "")`. */
  function Get(m: Metadata, key: string): (v: string)
    ensures key in m ==> v == m[key]
    ensures key !in m ==> v == ""
  {
    if key in m then m[key] else ""
  }

  // ---------------------------------------------------------------------
  // Strings
  // ---------------------------------------------------------------------

  /** Lower-casing of one character (ASCII letters only). */
  function LowerChar(c: char): char {
    if 'A' <= c <= 'Z' then (c as int + 32) as char else c
  }

  /** `s.lower()`, character by character. */
  function Lower(s: string): (r: string)
    ensures |r| == |s|
    ensures forall i :: 0 <= i < |s| ==> r[i] == LowerChar(s[i])
  {
    seq(|s|, i requires 0 <= i < |s| => LowerChar(s[i]))
  }

  lemma LowerIdempotent(s: string)
    ensures Lower(Lower(s)) == Lower(s)
  {
  }

  lemma LowerAppend(a: string, b: string)
    ensures Lower(a + b) == Lower(a) + Lower(b)
  {
    assert forall i :: 0 <= i < |a + b| ==> Lower(a + b)[i] == (Lower(a) + Lower(b))[i];
  }

  /** `k` occurs in `text` starting at position `i`. */
  ghost predicate OccursAt(text: string, k: string, i: int) {
    0 <= i && i + |k| <= |text| && text[i..i + |k|] == k
  }

  /** Python's `k in text` for two strings: a substring test. */
  function Contains(text: string, k: string): (b: bool)
    ensures b <==> exists i :: OccursAt(text, k, i)
    decreases |text|
  {
    if |k| > |text| then
      false
    else if text[..|k|] == k then
      assert OccursAt(text, k, 0);
      true
    else
      var b := Contains(text[1..], k);
      ShiftOccurrence(text, k);
      b
  }

  /** Occurrences in `text[1..]` are the occurrences in `text` past position 0. */
  lemma ShiftOccurrence(text: string, k: string)
    requires |text| > 0
    ensures (exists i :: OccursAt(text[1..], k, i)) <==> (exists i :: i > 0 && OccursAt(text, k, i))
  {
    if exists i :: OccursAt(text[1..], k, i) {
      var i :| OccursAt(text[1..], k, i);
      assert text[1..][i..i + |k|] == text[i + 1..i + 1 + |k|];
      assert OccursAt(text, k, i + 1);
    }
    if exists i :: i > 0 && OccursAt(text, k, i) {
      var i :| i > 0 && OccursAt(text, k, i);
      assert text[1..][i - 1..i - 1 + |k|] == text[i..i + |k|];
      assert OccursAt(text[1..], k, i - 1);
    }
  }

  // ---------------------------------------------------------------------
  // Lists of scores
  // ---------------------------------------------------------------------

  /** `min(s)` for a non-empty list (Python raises on an empty one). */
  function MinOf(s: seq<real>): (m: real)
    requires s != []
    ensures m in s
    ensures forall x :: x in s ==> m <= x
  {
    if |s| == 1 then s[0]
    else
      var t := MinOf(s[1..]);
      assert s == [s[0]] + s[1..];
      if s[0] <= t then s[0] else t
  }

  /** `max(s)` for a non-empty list. */
  function MaxOf(s: seq<real>): (m: real)
    requires s != []
    ensures m in s
    ensures forall x :: x in s ==> x <= m
  {
    if |s| == 1 then s[0]
    else
      var t := MaxOf(s[1..]);
      assert s == [s[0]] + s[1..];
      if s[0] >= t then s[0] else t
  }

  /** The length of `xs[:k]`: a non-negative `k` keeps at most `k` elements,
      a negative `k` drops the last `-k` elements. */
  function SliceLength(n: nat, k: int): (m: nat)
    ensures m <= n
    ensures 0 <= k ==> m == if k < n then k else n
    ensures k < 0 ==> m == if n + k < 0 then 0 else n + k
  {
    if 0 <= k then (if k < n then k else n)
    else if n + k < 0 then 0 else n + k
  }

  /** `xs[:k]`: a prefix, so it holds nothing `xs` does not. */
  function Take<T>(xs: seq<T>, k: int): (r: seq<T>)
    ensures |r| == SliceLength(|xs|, k)
    ensures r == xs[..|r|]
    ensures multiset(r) <= multiset(xs)
  {
    var r := xs[..SliceLength(|xs|, k)];
    assert xs == r + xs[|r|..];
    r
  }
}
