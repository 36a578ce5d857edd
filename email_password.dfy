/** The first onboarding step (`src/components/onboarding/EmailPassword.jsx`):
    `handleNext` checks the entered email, password, confirmation and
    disclaimer in a fixed order, shows the first failure as the only error, and
    otherwise passes the email and password on and advances. */
module EmailPassword {
  import opened Wrappers
  import opened JsValue
  import JsText

  /** A character of the class `[^\s@]`. */
  predicate EmailChar(c: char)
  {
    !JsText.IsSpace(c) && c != '@'
  }

  predicate AllEmailChars(s: string)
  {
    forall k :: 0 <= k < |s| ==> EmailChar(s[k])
  }

  /** What `/^[^\s@]+@[^\s@]+\.[^\s@]+$/.test(s)` accepts: three non-empty runs
      of `[^\s@]` separated by an '@' and then a '.'. */
  ghost predicate MatchesPattern(s: string)
  {
    exists i: int, j: int :: 0 < i && i + 1 < j && j + 1 < |s| && s[i] == '@' && s[j] == '.'
      && AllEmailChars(s[..i]) && AllEmailChars(s[i + 1..j]) && AllEmailChars(s[j + 1..])
  }

  /** The index of the first `c` in `s`, or |s| when there is none. */
  function IndexOf(s: string, c: char): (i: nat)
    ensures i <= |s|
    ensures i < |s| ==> s[i] == c
    ensures forall k :: 0 <= k < i ==> s[k] != c
  {
    if s == [] then 0
    else if s[0] == c then 0
    else 1 + IndexOf(s[1..], c)
  }

  /** The text has a '.' that is neither its first nor its last character. */
  predicate HasInnerDot(rest: string)
  {
    exists j :: 0 < j < |rest| - 1 && rest[j] == '.'
  }

  /** The email check: a non-empty local part before the first '@', and a rest
      after it without white space or another '@' that contains an inner '.'. */
  function ValidEmail(s: string): bool
  {
    var i := IndexOf(s, '@');
    0 < i < |s| && AllEmailChars(s[..i]) && AllEmailChars(s[i + 1..]) && HasInnerDot(s[i + 1..])
  }

  /** The check is exactly the pattern: both describe local@rest with a
      non-empty local part and a rest of `[^\s@]` holding an inner '.'. */
  lemma ValidEmailIsPattern(s: string)
    ensures ValidEmail(s) <==> MatchesPattern(s)
  {
    if ValidEmail(s) {
      ValidEmailMatches(s);
    }
    if MatchesPattern(s) {
      var i: int, j: int :| 0 < i && i + 1 < j && j + 1 < |s| && s[i] == '@' && s[j] == '.'
        && AllEmailChars(s[..i]) && AllEmailChars(s[i + 1..j]) && AllEmailChars(s[j + 1..]);
      PatternIsValid(s, i, j);
    }
  }

  lemma ValidEmailMatches(s: string)
    requires ValidEmail(s)
    ensures MatchesPattern(s)
  {
    var i := IndexOf(s, '@');
    var rest := s[i + 1..];
    var d :| 0 < d < |rest| - 1 && rest[d] == '.';
    var j := i + 1 + d;
    SliceOfEmailChars(rest, 0, d);
    SliceOfEmailChars(rest, d + 1, |rest|);
    assert s[i + 1..j] == rest[0..d];
    assert s[j + 1..] == rest[d + 1..|rest|];
    assert s[j] == '.';
  }

  lemma PatternIsValid(s: string, i: int, j: int)
    requires 0 < i && i + 1 < j && j + 1 < |s| && s[i] == '@' && s[j] == '.'
    requires AllEmailChars(s[..i]) && AllEmailChars(s[i + 1..j]) && AllEmailChars(s[j + 1..])
    ensures ValidEmail(s)
  {
    assert forall k :: 0 <= k < i ==> s[k] == s[..i][k];
    assert IndexOf(s, '@') == i;
    var rest := s[i + 1..];
    assert rest == s[i + 1..j] + ['.'] + s[j + 1..];
    assert EmailChar('.');
    JoinEmailChars(s[i + 1..j], ['.'], s[j + 1..]);
    assert rest[j - i - 1] == '.';
  }

  lemma SliceOfEmailChars(s: string, a: nat, b: nat)
    requires a <= b <= |s| && AllEmailChars(s)
    ensures AllEmailChars(s[a..b])
  {
    assert forall k :: 0 <= k < b - a ==> s[a..b][k] == s[a + k];
  }

  lemma JoinEmailChars(x: string, y: string, z: string)
    requires AllEmailChars(x) && AllEmailChars(y) && AllEmailChars(z)
    ensures AllEmailChars(x + y + z)
  {
    var w := x + y + z;
    forall k | 0 <= k < |w| ensures EmailChar(w[k]) {
      if k < |x| {
        assert w[k] == x[k];
      } else if k < |x| + |y| {
        assert w[k] == y[k - |x|];
      } else {
        assert w[k] == z[k - |x| - |y|];
      }
    }
  }

  const FillAll := "Please fill in all fields"
  const BadEmail := "Please enter a valid email address"
  const TooShort := "Password must be at least 8 characters"
  const Mismatch := "Passwords do not match"
  const NoDisclaimer := "Please agree to the disclaimer"

  /** The result of `handleNext`: the error shown, and the data given to
      `updateData` when the step advances (`onNext` runs exactly then). */
  datatype Outcome = Outcome(error: string, update: Option<Record>)

  /** `handleNext()`. The error is cleared first, so the one shown afterwards is
      determined by the inputs alone. */
  function HandleNext(email: string, password: string, confirmPassword: string, agreedToDisclaimer: bool): Outcome
  {
    if email == "" || password == "" || confirmPassword == "" then Outcome(FillAll, None)
    else if !ValidEmail(email) then Outcome(BadEmail, None)
    else if |password| < 8 then Outcome(TooShort, None)
    else if password != confirmPassword then Outcome(Mismatch, None)
    else if !agreedToDisclaimer then Outcome(NoDisclaimer, None)
    else Outcome("", Some(map["email" := Str(email), "password" := Str(password)]))
  }

  /** The checks in order: each error is shown exactly when its check is the
      first to fail, the step advances exactly when all five pass, and what it
      passes on is the email and the password and nothing else. */
  lemma HandleNextSpec(email: string, password: string, confirmPassword: string, agreed: bool)
    ensures var o := HandleNext(email, password, confirmPassword, agreed);
      var filled := email != "" && password != "" && confirmPassword != "";
      && (o.update.Some? <==> o.error == "")
      && (o.error == FillAll <==> !filled)
      && (o.error == BadEmail <==> filled && !MatchesPattern(email))
      && (o.error == TooShort <==> filled && MatchesPattern(email) && |password| < 8)
      && (o.error == Mismatch <==> filled && MatchesPattern(email) && |password| >= 8 && password != confirmPassword)
      && (o.error == NoDisclaimer <==> filled && MatchesPattern(email) && |password| >= 8 && password == confirmPassword && !agreed)
      && (o.update.Some? <==> filled && MatchesPattern(email) && |password| >= 8 && password == confirmPassword && agreed)
      && (o.update.Some? ==> o.update.value.Keys == {"email", "password"}
                               && o.update.value["email"] == Str(email) && o.update.value["password"] == Str(password))
  {
    ValidEmailIsPattern(email);
  }

  /** The length bound is inclusive: eight characters pass it, seven do not. */
  lemma PasswordLengthBoundary(email: string, p8: string, p7: string, agreed: bool)
    requires |p8| == 8 && |p7| == 7 && email != "" && ValidEmail(email)
    ensures HandleNext(email, p8, p8, agreed).error != TooShort
    ensures HandleNext(email, p7, p7, agreed).error == TooShort
  {
  }
}
