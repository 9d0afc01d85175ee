/**
 * The string operations the scripts apply to bus names and carrier tags.
 */
module Text {

  /** The part of `s` after the last `sep`; all of `s` when `sep` does not occur (Python's `s.split(sep)[-1]`). */
  function LastToken(s: string, sep: char): string
  {
    if s == [] || s[|s| - 1] == sep then []
    else LastToken(s[..|s| - 1], sep) + [s[|s| - 1]]
  }

  /**
   * `LastToken(s, sep)` is the longest suffix of `s` free of `sep`: a suffix,
   * without `sep`, and either all of `s` or preceded by a `sep`.
   */
  lemma {:induction false} LastTokenIsLastField(s: string, sep: char)
    ensures |LastToken(s, sep)| <= |s| && LastToken(s, sep) == s[|s| - |LastToken(s, sep)|..]
    ensures forall i :: 0 <= i < |LastToken(s, sep)| ==> LastToken(s, sep)[i] != sep
    ensures |LastToken(s, sep)| < |s| ==> s[|s| - |LastToken(s, sep)| - 1] == sep
  {
    if s != [] && s[|s| - 1] != sep {
      var init, last := s[..|s| - 1], s[|s| - 1];
      LastTokenIsLastField(init, sep);
      var t := LastToken(init, sep);
      assert LastToken(s, sep) == t + [last];
      assert s[|s| - |t| - 1..] == init[|init| - |t|..] + [last];
      if |t| + 1 < |s| {
        assert s[|s| - |t| - 2] == init[|init| - |t| - 1];
      }
    }
  }

  /**
   * The token after the last `sep`: a string ending in `sep` followed by a
   * `sep`-free `t` gives `t`, and a `sep`-free string is its own token.
   */
  lemma {:induction false} LastTokenAfterLastSeparator(p: string, t: string, sep: char)
    requires sep !in t
    ensures LastToken(p + [sep] + t, sep) == t
    ensures LastToken(t, sep) == t
  {
    if t != [] {
      var init := t[..|t| - 1];
      assert sep !in init by {
        assert forall x :: x in init ==> x in t;
      }
      LastTokenAfterLastSeparator(p, init, sep);
      var s := p + [sep] + t;
      assert s[..|s| - 1] == p + [sep] + init;
      assert t[..|t| - 1] == init && t == init + [t[|t| - 1]];
    }
  }

  /** ASCII lower-casing of one character. */
  function LowerChar(c: char): char
  {
    if 'A' <= c <= 'Z' then (c as int - 'A' as int + 'a' as int) as char else c
  }

  /**
   * Python's `str.lower()`, restricted to ASCII letters: every upper-case
   * letter becomes its lower-case letter, and every other character is kept.
   */
  function Lower(s: string): (r: string)
    ensures |r| == |s|
    ensures forall i :: 0 <= i < |r| ==> !('A' <= r[i] <= 'Z')
    ensures forall i :: 0 <= i < |s| && !('A' <= s[i] <= 'Z') ==> r[i] == s[i]
    ensures forall i :: 0 <= i < |s| && 'A' <= s[i] <= 'Z' ==> r[i] == (s[i] as int - 'A' as int + 'a' as int) as char
  {
    seq(|s|, i requires 0 <= i < |s| => LowerChar(s[i]))
  }

  /** `t` occurs in `s` starting at position `i`. */
  predicate OccursAt(s: string, t: string, i: nat)
  {
    i + |t| <= |s| && s[i..i + |t|] == t
  }

  /** Whether `t` occurs in `s` (Python's `t in s` on strings). */
  function HasInfix(s: string, t: string): (b: bool)
    ensures b <==> exists i: nat :: OccursAt(s, t, i)
    decreases |s|
  {
    if |s| < |t| then false
    else if s[..|t|] == t then assert OccursAt(s, t, 0); true
    else
      var b := HasInfix(s[1..], t);
      assert forall i: nat :: OccursAt(s[1..], t, i) <==> OccursAt(s, t, i + 1) by {
        forall i: nat ensures OccursAt(s[1..], t, i) <==> OccursAt(s, t, i + 1) {
          if i + |t| <= |s[1..]| {
            assert s[1..][i..i + |t|] == s[i + 1..i + 1 + |t|];
          }
        }
      }
      assert !OccursAt(s, t, 0);
      assert (exists i: nat :: OccursAt(s, t, i)) ==> exists i: nat :: OccursAt(s[1..], t, i) by {
        if exists i: nat :: OccursAt(s, t, i) {
          var i: nat :| OccursAt(s, t, i);
          assert i > 0 && OccursAt(s[1..], t, i - 1);
        }
      }
      b
  }
}
