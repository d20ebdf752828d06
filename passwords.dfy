/** The password policy of users/validators.py and the abstract password hash
    that the user model stores (Django's set_password / check_password). */
module Passwords {
  import opened Errors
  import opened Strings

  predicate IsAsciiLower(c: char) { 'a' <= c <= 'z' }
  predicate IsAsciiUpper(c: char) { 'A' <= c <= 'Z' }
  predicate IsAsciiDigit(c: char) { '0' <= c <= '9' }

  /** The regex class `[\W_]`: anything that is not a letter or a digit
      (the underscore is a word character, and the class adds it back). */
  predicate IsSpecial(c: char) {
    !(IsAsciiLower(c) || IsAsciiUpper(c) || IsAsciiDigit(c))
  }

  predicate HasLower(s: string) { exists i :: 0 <= i < |s| && IsAsciiLower(s[i]) }
  predicate HasUpper(s: string) { exists i :: 0 <= i < |s| && IsAsciiUpper(s[i]) }
  predicate HasSpecial(s: string) { exists i :: 0 <= i < |s| && IsSpecial(s[i]) }

  /** Everything before the first newline: the stretch a `.` can cover from the start. */
  function FirstLine(p: string): string {
    PrefixBefore(p, '\n')
  }

  /** The policy, computed on the first line of the password. */
  predicate MeetsPolicy(p: string) {
    var line := FirstLine(p);
    && 8 <= |line|
    && |p| <= |line| + 1
    && HasLower(line)
    && HasUpper(line)
    && (HasSpecial(line) || |line| < |p|)
  }

  // ---------------------------------------------------------------------
  // Reference semantics of `re.match(r'^(?=.*[a-z])(?=.*[A-Z])(?=.*[\W_]).{8,}$', p)`
  // under Python's rules: `.` matches any character except a newline, and `$`
  // matches at the end of the string or just before a newline that ends it.

  datatype CharClass = LowerClass | UpperClass | SpecialClass

  predicate InClass(c: char, cls: CharClass) {
    match cls
    case LowerClass => IsAsciiLower(c)
    case UpperClass => IsAsciiUpper(c)
    case SpecialClass => IsSpecial(c)
  }

  predicate NoNewlineBefore(p: string, k: int)
    requires 0 <= k <= |p|
  {
    forall j :: 0 <= j < k ==> p[j] != '\n'
  }

  /** `(?=.*X)` at position 0: `.*` runs over k non-newline characters and X matches p[k]. */
  ghost predicate LookaheadFinds(p: string, cls: CharClass) {
    exists k :: 0 <= k < |p| && NoNewlineBefore(p, k) && InClass(p[k], cls)
  }

  /** `.{8,}$` at position 0. */
  ghost predicate DotRunReachesEnd(p: string) {
    exists n :: 8 <= n <= |p| && NoNewlineBefore(p, n) && (n == |p| || (n == |p| - 1 && p[n] == '\n'))
  }

  ghost predicate PatternMatches(p: string) {
    && LookaheadFinds(p, LowerClass)
    && LookaheadFinds(p, UpperClass)
    && LookaheadFinds(p, SpecialClass)
    && DotRunReachesEnd(p)
  }

  // ---------------------------------------------------------------------

  /** validate_password: the argument itself when it matches the pattern,
      PasswordNotValid otherwise. */
  function ValidatePassword(p: string): (r: Result<string>)
    ensures r.Ok? <==> PatternMatches(p)
    ensures r.Ok? ==> r.value == p
    ensures r.Err? ==> r.error == PasswordNotValid
  {
    PolicyIsPattern(p);
    if MeetsPolicy(p) then Ok(p) else Err(PasswordNotValid)
  }

  lemma NoNewlineBeforeIsFirstLine(p: string, k: int)
    requires 0 <= k <= |p|
    ensures NoNewlineBefore(p, k) <==> k <= |FirstLine(p)|
  {
    var line := FirstLine(p);
    if k > |line| {
      assert p[|line|] == '\n';
    } else {
      forall j | 0 <= j < k ensures p[j] != '\n' {
        assert p[j] == line[j];
      }
    }
  }

  lemma LookaheadOnFirstLine(p: string, cls: CharClass)
    ensures LookaheadFinds(p, cls) <==>
            (exists i :: 0 <= i < |FirstLine(p)| && InClass(FirstLine(p)[i], cls))
            || (cls == SpecialClass && |FirstLine(p)| < |p|)
  {
    var line := FirstLine(p);
    if LookaheadFinds(p, cls) {
      var k :| 0 <= k < |p| && NoNewlineBefore(p, k) && InClass(p[k], cls);
      NoNewlineBeforeIsFirstLine(p, k);
      if k < |line| {
        assert line[k] == p[k];
      } else {
        assert p[k] == '\n';
      }
    }
    if exists i :: 0 <= i < |line| && InClass(line[i], cls) {
      var i :| 0 <= i < |line| && InClass(line[i], cls);
      NoNewlineBeforeIsFirstLine(p, i);
      assert p[i] == line[i];
    }
    if cls == SpecialClass && |line| < |p| {
      NoNewlineBeforeIsFirstLine(p, |line|);
      assert InClass(p[|line|], cls);
    }
  }

  lemma DotRunOnFirstLine(p: string)
    ensures DotRunReachesEnd(p) <==> 8 <= |FirstLine(p)| && |p| <= |FirstLine(p)| + 1
  {
    var line := FirstLine(p);
    if DotRunReachesEnd(p) {
      var n :| 8 <= n <= |p| && NoNewlineBefore(p, n) && (n == |p| || (n == |p| - 1 && p[n] == '\n'));
      NoNewlineBeforeIsFirstLine(p, n);
      if n < |line| {
        assert line[n] == p[n];
      }
    }
    if 8 <= |line| && |p| <= |line| + 1 {
      NoNewlineBeforeIsFirstLine(p, |line|);
    }
  }

  /** The computed policy is exactly the regular expression's meaning. */
  lemma PolicyIsPattern(p: string)
    ensures MeetsPolicy(p) <==> PatternMatches(p)
  {
    LookaheadOnFirstLine(p, LowerClass);
    LookaheadOnFirstLine(p, UpperClass);
    LookaheadOnFirstLine(p, SpecialClass);
    DotRunOnFirstLine(p);
  }

  lemma FirstLineWithoutNewline(p: string)
    requires forall j :: 0 <= j < |p| ==> p[j] != '\n'
    ensures FirstLine(p) == p
  {
  }

  /** For a password without a newline the policy reads as stated in the
      exception message: at least 8 characters, a lowercase letter, an
      uppercase letter and a special character. */
  lemma PolicyWithoutNewline(p: string)
    requires forall j :: 0 <= j < |p| ==> p[j] != '\n'
    ensures ValidatePassword(p).Ok? <==> 8 <= |p| && HasLower(p) && HasUpper(p) && HasSpecial(p)
  {
    FirstLineWithoutNewline(p);
  }

  /** users/tests/test_user_api.py: a password without a special character is refused. */
  lemma RejectsWithoutSpecial()
    ensures ValidatePassword("Test1234").Err?
  {
    var p := "Test1234";
    PolicyWithoutNewline(p);
    assert !IsSpecial(p[0]) && !IsSpecial(p[1]) && !IsSpecial(p[2]) && !IsSpecial(p[3]);
    assert !IsSpecial(p[4]) && !IsSpecial(p[5]) && !IsSpecial(p[6]) && !IsSpecial(p[7]);
  }

  /** `$` also matches before a final newline, and that newline itself
      satisfies the `[\W_]` lookahead: the refused password above is accepted
      once a newline is appended. */
  lemma TrailingNewlineCountsAsSpecial()
    ensures ValidatePassword("Test1234\n").Ok?
  {
    var p := "Test1234";
    var q := "Test1234\n";
    assert q == p + "\n";
    assert FirstLine(q) == p by {
      assert FirstLine(q[8..]) == [];
    }
    assert IsAsciiLower(p[1]) && IsAsciiUpper(p[0]);
  }

  /** users/tests/test_user_api.py: the password used for every successful signup. */
  lemma AcceptsTestPassword()
    ensures ValidatePassword("Test1234!").Ok?
  {
    var a := "Test1234!";
    PolicyWithoutNewline(a);
    assert IsAsciiLower(a[1]) && IsAsciiUpper(a[0]) && IsSpecial(a[8]);
  }

  /** The underscore is enough as the special character. */
  lemma UnderscoreIsSpecial()
    ensures ValidatePassword("Test_pwd").Ok?
  {
    var b := "Test_pwd";
    PolicyWithoutNewline(b);
    assert IsAsciiLower(b[1]) && IsAsciiUpper(b[0]) && IsSpecial(b[4]);
  }

  // ---------------------------------------------------------------------
  // Password storage. A stored password is a digest of the raw password;
  // set_password(None) stores an unusable marker that no password verifies.

  datatype PasswordHash = Unusable | Digest(secret: string)

  /** check_password(raw) against a stored hash. */
  predicate CheckPassword(h: PasswordHash, raw: string) {
    h.Digest? && h.secret == raw
  }

  /** set_password(raw): the stored hash verifies exactly the raw password. */
  function MakePassword(raw: Option<string>): (h: PasswordHash)
    ensures raw.Some? ==> forall q :: CheckPassword(h, q) <==> q == raw.value
    ensures raw.None? ==> forall q :: !CheckPassword(h, q)
  {
    match raw
    case Some(p) => Digest(p)
    case None => Unusable
  }
}
