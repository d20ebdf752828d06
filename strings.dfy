/** The one string operation both the e-mail and the password rules need:
    the text before the first occurrence of a separator. */
module Strings {

  /** `s.split(c)[0]`: the text before the first c, or all of s when there is none. */
  function PrefixBefore(s: string, c: char): (r: string)
    ensures r <= s
    ensures forall j :: 0 <= j < |r| ==> r[j] != c
    ensures |r| < |s| ==> s[|r|] == c
  {
    if s == [] || s[0] == c then [] else [s[0]] + PrefixBefore(s[1..], c)
  }

  /** The three properties above pin the prefix down. */
  lemma {:induction false} PrefixBeforeUnique(s: string, c: char, r: string)
    requires r <= s
    requires forall j :: 0 <= j < |r| ==> r[j] != c
    requires |r| < |s| ==> s[|r|] == c
    ensures r == PrefixBefore(s, c)
  {
    if r != [] {
      assert r[1..] <= s[1..];
      PrefixBeforeUnique(s[1..], c, r[1..]);
    }
  }
}
