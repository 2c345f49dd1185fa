/**
 * The few string operations the crawler relies on: Python's `startswith`,
 * `endswith`, the `in` substring test and `lower()`, each written as an
 * explicit scan and proved equal to its declarative meaning.
 */
module Strings {

  predicate IsPrefix(p: string, s: string) {
    |p| <= |s| && s[..|p|] == p
  }

  predicate IsSuffix(p: string, s: string) {
    |p| <= |s| && s[|s| - |p|..] == p
  }

  /** `sub in s`: some window of s spells sub. */
  ghost predicate OccursAt(sub: string, s: string, i: int) {
    0 <= i && i + |sub| <= |s| && s[i..i + |sub|] == sub
  }

  /** Python's `sub in s`, as a left-to-right scan of s. */
  function Contains(s: string, sub: string): (r: bool)
    ensures r <==> exists i :: OccursAt(sub, s, i)
    decreases |s|
  {
    if |sub| > |s| then
      false
    else if s[..|sub|] == sub then
      assert OccursAt(sub, s, 0);
      true
    else
      var rest := Contains(s[1..], sub);
      assert forall i :: 0 <= i < |s| - 1 ==> (OccursAt(sub, s[1..], i) <==> OccursAt(sub, s, i + 1)) by {
        forall i | 0 <= i < |s| - 1 ensures OccursAt(sub, s[1..], i) <==> OccursAt(sub, s, i + 1) {
          if i + |sub| <= |s| - 1 {
            assert s[1..][i..i + |sub|] == s[i + 1..i + 1 + |sub|];
          }
        }
      }
      assert rest ==> exists i :: OccursAt(sub, s, i) by {
        if rest {
          var i :| OccursAt(sub, s[1..], i);
          assert OccursAt(sub, s, i + 1);
        }
      }
      assert (exists i :: OccursAt(sub, s, i)) ==> rest by {
        if exists i :: OccursAt(sub, s, i) {
          var i :| OccursAt(sub, s, i);
          assert i != 0;
          assert OccursAt(sub, s[1..], i - 1);
        }
      }
      rest
  }

  /** Python's `str.lower()` restricted to ASCII: A-Z become a-z, every other character is kept. */
  function LowerChar(c: char): char {
    if 'A' <= c <= 'Z' then (c as int - 'A' as int + 'a' as int) as char else c
  }

  function Lower(s: string): (r: string)
    ensures |r| == |s|
    ensures forall i :: 0 <= i < |s| ==> !('A' <= r[i] <= 'Z')
    ensures forall i :: 0 <= i < |s| ==> r[i] == s[i] || ('A' <= s[i] <= 'Z' && r[i] as int == s[i] as int + 32)
  {
    seq(|s|, i requires 0 <= i < |s| => LowerChar(s[i]))
  }

  lemma LowerIdempotent(s: string)
    ensures Lower(Lower(s)) == Lower(s)
  {
  }
}
