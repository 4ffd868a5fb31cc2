/** The string operations the bot applies to file names and mime types:
    ASCII lower-casing, suffix test and substring test. */
module Text {

  predicate IsUpper(c: char) {
    'A' <= c <= 'Z'
  }

  /** Lower-cases one character (ASCII letters only). */
  function LowerChar(c: char): (d: char)
    ensures !IsUpper(d)
    ensures !IsUpper(c) ==> d == c
    ensures IsUpper(c) ==> d as int == c as int + 32
  {
    if IsUpper(c) then (c as int + 32) as char else c
  }

  /** Lower-cases a string character by character. */
  function Lower(s: string): (r: string)
    ensures |r| == |s|
    ensures forall i :: 0 <= i < |s| ==> r[i] == LowerChar(s[i])
  {
    if s == [] then [] else [LowerChar(s[0])] + Lower(s[1..])
  }

  /** Lower-casing twice is the same as lower-casing once. */
  lemma LowerIdempotent(s: string)
    ensures Lower(Lower(s)) == Lower(s)
  {}

  /** `s` ends with `suffix`, like Python's `str.endswith`. */
  predicate EndsWith(s: string, suffix: string)
    ensures EndsWith(s, suffix) <==> exists p: string :: s == p + suffix
  {
    assert forall p: string :: s == p + suffix ==> s[|p|..] == suffix;
    assert |suffix| <= |s| ==> s == s[..|s| - |suffix|] + s[|s| - |suffix|..];
    |suffix| <= |s| && s[|s| - |suffix|..] == suffix
  }

  /** `sub` occurs in `s` starting at index `i`. */
  predicate OccursAt(s: string, sub: string, i: nat) {
    i + |sub| <= |s| && s[i..i + |sub|] == sub
  }

  /** Substring test, like Python's `sub in s`, by a left-to-right scan. */
  function Contains(s: string, sub: string): (b: bool)
    ensures b <==> exists i: nat :: OccursAt(s, sub, i)
    decreases |s|
  {
    if |s| < |sub| then
      assert forall i: nat :: !OccursAt(s, sub, i);
      false
    else if s[..|sub|] == sub then
      assert OccursAt(s, sub, 0);
      true
    else
      var rest := Contains(s[1..], sub);
      assert forall i: nat :: OccursAt(s[1..], sub, i) <==> OccursAt(s, sub, i + 1) by {
        forall i: nat ensures OccursAt(s[1..], sub, i) <==> OccursAt(s, sub, i + 1) {
          if i + |sub| <= |s[1..]| {
            assert s[1..][i..i + |sub|] == s[i + 1..i + 1 + |sub|];
          }
        }
      }
      assert forall i: nat :: OccursAt(s, sub, i) ==> i == 0 || OccursAt(s[1..], sub, i - 1);
      rest
  }
}
