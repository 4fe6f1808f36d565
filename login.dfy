/** The login screen: the e-mail shape check that drives the helper text, and the
    empty-field guard in front of the sign-in call. The sign-in itself is a
    backend call; its answer is a parameter. */
module Login {
  import opened Strings
  import opened Optional

  /** The pattern `^\S+@\S+\.\S+$` splits `s` at an '@' at index `i` and a '.' at
      index `j`, with a non-empty run of non-white-space characters before, between
      and after them. */
  predicate PatternSplit(s: string, i: int, j: int)
    requires 0 < i && i + 1 < j < |s| - 1
  {
    s[i] == '@' && s[j] == '.' &&
    NoWhitespace(s[..i]) && NoWhitespace(s[i + 1..j]) && NoWhitespace(s[j + 1..])
  }

  /** Whether the whole of `s` matches `^\S+@\S+\.\S+$`: some split works. */
  predicate MatchesEmailPattern(s: string) {
    exists i, j | 0 < i && i + 1 < j < |s| - 1 :: PatternSplit(s, i, j)
  }

  /** An '@' at `i` and a later '.' at `j`, with characters before, between and after. */
  predicate AtDotAt(s: string, i: int, j: int) {
    0 < i && i + 1 < j < |s| - 1 && s[i] == '@' && s[j] == '.'
  }

  /** The pattern is matched exactly by white-space-free strings with an '@' that
      is not first, followed, after at least one character, by a '.' that is not last. */
  lemma MatchesEmailPatternIff(s: string)
    ensures MatchesEmailPattern(s) <==> NoWhitespace(s) && exists i, j :: AtDotAt(s, i, j)
  {
    if MatchesEmailPattern(s) {
      var i, j :| 0 < i && i + 1 < j < |s| - 1 && PatternSplit(s, i, j);
      assert AtDotAt(s, i, j);
      forall k | 0 <= k < |s| ensures !IsWhitespace(s[k]) {
        if k < i {
          assert s[k] == s[..i][k];
        } else if i < k < j {
          assert s[k] == s[i + 1..j][k - i - 1];
        } else if j < k {
          assert s[k] == s[j + 1..][k - j - 1];
        }
      }
    }
    if NoWhitespace(s) && exists i, j :: AtDotAt(s, i, j) {
      var i, j :| AtDotAt(s, i, j);
      assert PatternSplit(s, i, j);
    }
  }

  /** White space anywhere rules a match out. */
  lemma WhitespaceNeverMatches(s: string, k: int)
    requires 0 <= k < |s| && IsWhitespace(s[k])
    ensures !MatchesEmailPattern(s)
  {
    MatchesEmailPatternIff(s);
  }

  /** `emailError`: the helper text is shown for a non-empty e-mail that does not
      match the pattern; an empty field never shows it. */
  function EmailError(email: string): (r: bool)
    ensures email == "" ==> !r
    ensures email != "" ==> (r <==> !MatchesEmailPattern(email))
  {
    email != "" && !MatchesEmailPattern(email)
  }

  /** A typical address passes and one with a space in it does not. */
  lemma EmailErrorExamples()
    ensures !EmailError("a@b.co")
    ensures EmailError("a b@c.d")
  {
    assert AtDotAt("a@b.co", 1, 3);
    MatchesEmailPatternIff("a@b.co");
    WhitespaceNeverMatches("a b@c.d", 1);
  }

  /** What pressing the button leads to. */
  datatype LoginOutcome =
    | ValidationAlert             // "Email and password are required", no request sent
    | LoginErrorAlert(message: string)
    | Dashboard                   // navigation replaced by the dashboard

  /** `handleLogin`, with the sign-in call's error (if any) as `signInError`: empty
      fields stop before the call; otherwise the call's error is shown, or the app
      moves on to the dashboard. The e-mail shape is not checked here. */
  function HandleLogin(email: string, password: string, signInError: Option<string>): (r: LoginOutcome)
    ensures r == ValidationAlert <==> email == "" || password == ""
    ensures r.LoginErrorAlert? <==> email != "" && password != "" && signInError.Some?
    ensures r.LoginErrorAlert? ==> r.message == signInError.value
    ensures r == Dashboard <==> email != "" && password != "" && signInError.None?
  {
    if email == "" || password == "" then ValidationAlert
    else if signInError.Some? then LoginErrorAlert(signInError.value)
    else Dashboard
  }

  /** Whether the sign-in request is sent at all. */
  predicate AttemptsSignIn(email: string, password: string) {
    email != "" && password != ""
  }

  /** An empty field never reaches the backend, whatever it would have answered. */
  lemma EmptyFieldNeverSignsIn(email: string, password: string, signInError: Option<string>)
    requires email == "" || password == ""
    ensures !AttemptsSignIn(email, password)
    ensures HandleLogin(email, password, signInError) == ValidationAlert
  {
  }

  /** The guard ignores `emailError`: an address the helper text flags is still sent. */
  lemma FlaggedEmailStillSent()
    ensures EmailError("not an email") && AttemptsSignIn("not an email", "secret")
    ensures HandleLogin("not an email", "secret", None) == Dashboard
  {
    WhitespaceNeverMatches("not an email", 3);
  }
}
