/** The two string operations applied to e-mail addresses: the manager's
    normalisation (core/models.py, Django's normalize_email) and the
    signup serializer's `email.split('@')[0]` (users/serializers.py). */
module Emails {
  import opened Strings

  function LowerChar(c: char): char {
    if 'A' <= c <= 'Z' then (c as int + 32) as char else c
  }

  /** ASCII lowercasing, character by character. */
  function Lower(s: string): (r: string)
    ensures |r| == |s|
    ensures forall i :: 0 <= i < |s| ==> r[i] == LowerChar(s[i])
  {
    if s == [] then [] else [LowerChar(s[0])] + Lower(s[1..])
  }

  /** Lowercasing twice is lowercasing once. */
  lemma LowerIdempotent(s: string)
    ensures Lower(Lower(s)) == Lower(s)
  {
    var once := Lower(s);
    assert forall i :: 0 <= i < |s| ==> LowerChar(once[i]) == once[i];
  }

  /** Position of the last '@' (the separator rsplit('@', 1) uses), if there is one. */
  function LastAt(e: string): (r: int)
    ensures -1 <= r < |e|
    ensures r >= 0 ==> e[r] == '@'
    ensures forall j :: r < j < |e| ==> e[j] != '@'
  {
    if e == [] then -1
    else if e[|e| - 1] == '@' then |e| - 1
    else LastAt(e[..|e| - 1])
  }

  /** normalize_email: the domain part, after the last '@', is lowercased; the
      part before it and the '@' itself are kept as they are. An address
      without '@' comes back unchanged. */
  function NormalizeEmail(e: string): (r: string)
    ensures |r| == |e|
    ensures LastAt(e) < 0 ==> r == e
    ensures LastAt(e) >= 0 ==>
              r[..LastAt(e) + 1] == e[..LastAt(e) + 1] && r[LastAt(e) + 1..] == Lower(e[LastAt(e) + 1..])
  {
    var k := LastAt(e);
    if k < 0 then e else e[..k] + "@" + Lower(e[k + 1..])
  }

  lemma {:induction false} LastAtOfNormalized(e: string)
    ensures LastAt(NormalizeEmail(e)) == LastAt(e)
  {
  }

  /** Normalising an already normalised address changes nothing. */
  lemma {:induction false} NormalizeIdempotent(e: string)
    ensures NormalizeEmail(NormalizeEmail(e)) == NormalizeEmail(e)
  {
    var r, k := NormalizeEmail(e), LastAt(e);
    LastAtOfNormalized(e);
    if k >= 0 {
      LowerIdempotent(e[k + 1..]);
      assert r == r[..k + 1] + r[k + 1..];
    }
  }

  /** Two addresses that differ only in the case of their domain normalise to
      the same string: the uniqueness constraint sees them as one address. */
  lemma {:induction false} DomainCaseIgnored(a: string, b: string)
    requires LastAt(a) >= 0 && LastAt(a) == LastAt(b)
    requires a[..LastAt(a)] == b[..LastAt(b)]
    requires Lower(a[LastAt(a) + 1..]) == Lower(b[LastAt(b) + 1..])
    ensures NormalizeEmail(a) == NormalizeEmail(b)
  {
  }

  /** The last '@' is the one after which no '@' follows. */
  lemma LastAtIs(e: string, k: int)
    requires 0 <= k < |e| && e[k] == '@'
    requires forall j :: k < j < |e| ==> e[j] != '@'
    ensures LastAt(e) == k
  {
  }

  lemma NormalizeAt(e: string, k: int)
    requires 0 <= k < |e| && e[k] == '@'
    requires forall j :: k < j < |e| ==> e[j] != '@'
    ensures NormalizeEmail(e) == e[..k] + "@" + Lower(e[k + 1..])
  {
    LastAtIs(e, k);
  }

  /** The part before the '@' keeps its case, so these two addresses stay
      distinct accounts. */
  lemma LocalCaseKept(upper: string, lower: string)
    requires upper == "A@x.com" && lower == "a@x.com"
    ensures NormalizeEmail(upper) == upper
    ensures NormalizeEmail(lower) == lower
    ensures NormalizeEmail(upper) != NormalizeEmail(lower)
  {
    NormalizeAt(upper, 1);
    NormalizeAt(lower, 1);
    assert Lower(upper[2..]) == upper[2..];
    assert Lower(lower[2..]) == lower[2..];
    assert upper == upper[..1] + "@" + upper[2..];
    assert lower == lower[..1] + "@" + lower[2..];
  }

  /** core/tests/test_user_model.py: the uppercase letters of the domain are lowered. */
  lemma NormalizeExample(e: string)
    requires e == "Test1@ExAmple.com"
    ensures NormalizeEmail(e) == "Test1@example.com"
  {
    NormalizeAt(e, 5);
    LowerExample(e[6..]);
    assert e[..5] == "Test1";
  }

  lemma LowerExample(d: string)
    requires d == "ExAmple.com"
    ensures Lower(d) == "example.com"
  {
    var l := Lower(d);
    assert l[0] == 'e' && l[2] == 'a';
  }

  /** `email.split('@')[0]`: the text before the first '@', or all of it when
      there is none. */
  function LocalPart(e: string): string {
    PrefixBefore(e, '@')
  }

  /** Normalisation leaves the local part (before the first '@') alone, so the
      display name derived at signup is the same before and after it. */
  lemma {:induction false} LocalPartSurvivesNormalize(e: string)
    ensures LocalPart(NormalizeEmail(e)) == LocalPart(e)
  {
    var r, l, k := NormalizeEmail(e), LocalPart(e), LastAt(e);
    if k >= 0 {
      assert |l| <= k;
      assert r[..k + 1] == e[..k + 1];
      assert l <= r by {
        forall j | 0 <= j < |l| ensures l[j] == r[j] {
          assert r[..k + 1][j] == e[..k + 1][j];
        }
      }
      assert r[|l|] == e[|l|] by {
        assert r[..k + 1][|l|] == e[..k + 1][|l|];
      }
      PrefixBeforeUnique(r, '@', l);
    }
  }

  /** users/tests/test_user_api.py: the default name of test2@example.com. */
  lemma LocalPartExample()
    ensures LocalPart("test2@example.com") == "test2"
  {
    PrefixBeforeUnique("test2@example.com", '@', "test2");
  }
}
