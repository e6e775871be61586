/**
 * The login / sign-up screen (src/app/login/page.tsx): two text fields, an
 * error map shown under them, and a switch between the login and the sign-up
 * endpoint. Submitting validates both fields and sends the request only when
 * no field has an error.
 */
module LoginForm {
  import opened Wrappers
  import Home

  // ---- whitespace, `trim` and the email pattern ----

  /** ECMAScript's WhiteSpace and LineTerminator code points: the characters
      `String.prototype.trim` removes and the regular-expression class `\s` matches. */
  predicate IsSpace(c: char) {
    c in SpaceChars || '\U{2000}' <= c <= '\U{200A}'
  }

  /** The whitespace characters outside the range U+2000 .. U+200A. */
  const SpaceChars: set<char> := {
    '\t', '\n', '\U{B}', '\U{C}', '\r', ' ', '\U{A0}', '\U{1680}',
    '\U{2028}', '\U{2029}', '\U{202F}', '\U{205F}', '\U{3000}', '\U{FEFF}'
  }

  /** Every character of `s` is whitespace (also true of ""). */
  predicate AllSpace(s: string) {
    forall i :: 0 <= i < |s| ==> IsSpace(s[i])
  }

  /** Every character of `w` is matched by `\S`. */
  predicate NonSpace(w: string) {
    forall i :: 0 <= i < |w| ==> !IsSpace(w[i])
  }

  /** Drops the leading whitespace. */
  function TrimStart(s: string): (r: string)
    ensures |r| <= |s| && r == s[|s| - |r|..]
    ensures r == [] || !IsSpace(r[0])
    ensures forall i :: 0 <= i < |s| - |r| ==> IsSpace(s[i])
  {
    if s != [] && IsSpace(s[0]) then TrimStart(s[1..]) else s
  }

  /** Drops the trailing whitespace. */
  function TrimEnd(s: string): (r: string)
    ensures |r| <= |s| && r == s[..|r|]
    ensures r == [] || !IsSpace(r[|r| - 1])
    ensures forall i :: |r| <= i < |s| ==> IsSpace(s[i])
  {
    if s != [] && IsSpace(s[|s| - 1]) then TrimEnd(s[..|s| - 1]) else s
  }

  /** `String.prototype.trim`. */
  function Trim(s: string): string {
    TrimEnd(TrimStart(s))
  }

  /** `!value.trim()`: the trimmed text is the empty, falsy, string. */
  predicate IsBlank(s: string) {
    Trim(s) == ""
  }

  /** `w` splits as x + "@" + y + "." + z with x, y, z non-empty runs of `\S`,
      the `@` at position `p` and the `.` at position `q`. */
  ghost predicate ShapeAt(w: string, p: int, q: int) {
    && 0 < p && p + 1 < q && q + 1 < |w|
    && w[p] == '@' && w[q] == '.'
    && NonSpace(w[..p]) && NonSpace(w[p + 1..q]) && NonSpace(w[q + 1..])
  }

  /** `w` belongs to the language of `\S+@\S+\.\S+`. */
  ghost predicate EmailShape(w: string) {
    exists p, q :: ShapeAt(w, p, q)
  }

  /** `/\S+@\S+\.\S+/.test(s)`: the pattern is not anchored, so it succeeds
      when some substring of `s` belongs to its language. */
  ghost predicate RegexMatches(s: string) {
    exists a, e :: 0 <= a <= e <= |s| && EmailShape(s[a..e])
  }

  /** The same test as a search for an `@` with a non-blank character before it
      and a later `.` with a non-blank character after it, separated by at
      least one character and no whitespace. */
  predicate EmailPatternTest(s: string) {
    exists p, q | 0 < p < |s| && p + 1 < q < |s| - 1 :: MatchAt(s, p, q)
  }

  /** An `@` at `p` and a `.` at `q` that the pattern can match around. */
  predicate MatchAt(s: string, p: int, q: int)
    requires 0 < p < |s| && p + 1 < q < |s| - 1
  {
    && s[p] == '@' && s[q] == '.'
    && !IsSpace(s[p - 1]) && NonSpace(s[p + 1..q]) && !IsSpace(s[q + 1])
  }

  // ---- the error map ----

  /** The two keys a `FormErrors` object can have. */
  datatype Field = EmailKey | PasswordKey

  /** `FormErrors`: an optional message per field. */
  datatype FormErrors = FormErrors(email: Option<string>, password: Option<string>) {
    /** `Object.keys(errors)`: a key exists once a message was assigned to it. */
    function Keys(): set<Field> {
      (if email.Some? then {EmailKey} else {}) + (if password.Some? then {PasswordKey} else {})
    }
  }

  const NoErrors: FormErrors := FormErrors(None, None)
  const EmailRequired: string := "Email is required"
  const InvalidEmail: string := "Invalid email format"
  const PasswordRequired: string := "Password is required"

  /** The error map `handleSubmit` computes for the two fields. */
  function Validate(email: string, password: string): FormErrors {
    FormErrors(
      if IsBlank(email) then Some(EmailRequired)
      else if !EmailPatternTest(email) then Some(InvalidEmail)
      else None,
      if IsBlank(password) then Some(PasswordRequired) else None)
  }

  datatype Endpoint = LoginEndpoint | SignupEndpoint

  /** `isSignup ? API_EDPOINTS.signup : API_EDPOINTS.login`. */
  function EndpointFor(isSignup: bool): (e: Endpoint)
    ensures e == SignupEndpoint <==> isSignup
  {
    if isSignup then SignupEndpoint else LoginEndpoint
  }

  /** The POST the form sends: where, and the two field values of its JSON body. */
  datatype AuthRequest = AuthRequest(endpoint: Endpoint, email: string, password: string)

  /** `token && token !== 'null'`: the login screen sends a signed-in user home. */
  predicate RedirectsHome(token: Option<string>) {
    token.Some? && token.value != "" && token.value != "null"
  }

  class LoginScreen {
    var email: string
    var password: string
    var errors: FormErrors
    var isSignup: bool

    /** The `useState` initial values. */
    constructor ()
      ensures email == "" && password == "" && errors == NoErrors && !isSignup
    {
      email := "";
      password := "";
      errors := NoErrors;
      isSignup := false;
    }

    /** `handleEmailChange`: takes the typed value and clears every error. */
    method HandleEmailChange(value: string)
      modifies this`email, this`errors
      ensures email == value && errors == NoErrors && errors.Keys() == {}
    {
      email := value;
      errors := NoErrors;
    }

    /** `handlePasswordChange`: takes the typed value and clears every error. */
    method HandlePasswordChange(value: string)
      modifies this`password, this`errors
      ensures password == value && errors == NoErrors && errors.Keys() == {}
    {
      password := value;
      errors := NoErrors;
    }

    /** `toggleView`: switches between the login and the sign-up form. */
    method ToggleView()
      modifies this`isSignup
      ensures isSignup == !old(isSignup)
    {
      isSignup := !isSignup;
    }

    /** `handleSubmit` up to the request: builds `newErrors` field by field,
        stores it, and sends the request only when it has no key. */
    method HandleSubmit() returns (request: Option<AuthRequest>)
      modifies this`errors
      ensures errors == Validate(email, password)
      ensures request.Some? <==> errors.Keys() == {}
      ensures request.Some? ==> request.value == AuthRequest(EndpointFor(isSignup), email, password)
    {
      var newErrors := NoErrors;
      if IsBlank(email) {
        newErrors := newErrors.(email := Some(EmailRequired));
      } else if !EmailPatternTest(email) {
        newErrors := newErrors.(email := Some(InvalidEmail));
      }
      if IsBlank(password) {
        newErrors := newErrors.(password := Some(PasswordRequired));
      }
      errors := newErrors;
      request := None;
      if newErrors.Keys() == {} {
        request := Some(AuthRequest(EndpointFor(isSignup), email, password));
      }
    }
  }

  // ---- properties ----

  /** The trimmed text is empty exactly when every character is whitespace. */
  lemma BlankIffAllSpace(s: string)
    ensures IsBlank(s) <==> AllSpace(s)
  {
    var t := TrimStart(s);
    if IsBlank(s) {
      assert |t| == 0;
    } else {
      assert t != [] && !IsSpace(t[0]);
      assert !IsSpace(s[|s| - |t|]);
    }
  }

  /** A match found by the search is a substring in the pattern's language. */
  lemma PatternTestFindsRegexMatch(s: string)
    requires EmailPatternTest(s)
    ensures RegexMatches(s)
  {
    var p, q :| 0 < p < |s| && p + 1 < q < |s| - 1 && MatchAt(s, p, q);
    var w := s[p - 1..q + 2];
    assert w[1] == '@' && w[q - p + 1] == '.';
    assert w[..1] == [s[p - 1]];
    var mid, run := w[2..q - p + 1], s[p + 1..q];
    assert mid == run by {
      forall k | 0 <= k < |mid| ensures mid[k] == run[k] {
        assert w[2 + k] == s[p + 1 + k];
      }
    }
    assert w[q - p + 2..] == [s[q + 1]];
    assert ShapeAt(w, 1, q - p + 1);
  }

  /** A substring in the pattern's language is found by the search. */
  lemma RegexMatchFoundByPatternTest(s: string)
    requires RegexMatches(s)
    ensures EmailPatternTest(s)
  {
    var a, e :| 0 <= a <= e <= |s| && EmailShape(s[a..e]);
    var w := s[a..e];
    var p, q :| ShapeAt(w, p, q);
    assert w[..p][p - 1] == s[a + p - 1];
    assert w[q + 1..][0] == s[a + q + 1];
    var run, mid := s[a + p + 1..a + q], w[p + 1..q];
    assert run == mid by {
      forall k | 0 <= k < |run| ensures run[k] == mid[k] {
        assert w[p + 1 + k] == s[a + p + 1 + k];
      }
    }
    assert s[a + p] == '@' && s[a + q] == '.';
    assert MatchAt(s, a + p, a + q);
  }

  /** The search for `@` and `.` decides exactly the regular expression. */
  lemma EmailPatternTestIsRegex(s: string)
    ensures EmailPatternTest(s) <==> RegexMatches(s)
  {
    if EmailPatternTest(s) {
      PatternTestFindsRegexMatch(s);
    }
    if RegexMatches(s) {
      RegexMatchFoundByPatternTest(s);
    }
  }

  /** The pattern is not anchored: text around a match, whitespace included,
      does not make the email invalid. */
  lemma RegexIgnoresSurroundingText(pre: string, s: string, post: string)
    requires RegexMatches(s)
    ensures RegexMatches(pre + s + post)
  {
    var a, e :| 0 <= a <= e <= |s| && EmailShape(s[a..e]);
    var whole := pre + s + post;
    assert whole[|pre| + a..|pre| + e] == s[a..e];
  }

  /** A text that contains the pattern is not blank: its `@` is not whitespace. */
  lemma PatternIsNotBlank(s: string)
    requires EmailPatternTest(s)
    ensures !AllSpace(s)
  {
    var p, q :| 0 < p < |s| && p + 1 < q < |s| - 1 && MatchAt(s, p, q);
    assert s[p] == '@';
    assert !IsSpace('@');
  }

  /** The email error: required when blank, and then the format is not checked;
      otherwise invalid exactly when the pattern does not occur. */
  lemma EmailErrorCases(email: string, password: string)
    ensures Validate(email, password).email == Some(EmailRequired) <==> AllSpace(email)
    ensures Validate(email, password).email == Some(InvalidEmail) <==> !AllSpace(email) && !RegexMatches(email)
    ensures Validate(email, password).email == None <==> RegexMatches(email)
  {
    BlankIffAllSpace(email);
    EmailPatternTestIsRegex(email);
    if EmailPatternTest(email) {
      PatternIsNotBlank(email);
    }
  }

  /** The password error: required exactly when blank; no other rule. */
  lemma PasswordErrorCases(email: string, password: string)
    ensures Validate(email, password).password == Some(PasswordRequired) <==> AllSpace(password)
    ensures Validate(email, password).password == None <==> !AllSpace(password)
  {
    BlankIffAllSpace(password);
  }

  /** The request is attempted exactly when the email contains the pattern and
      the password has a non-blank character. */
  lemma SubmitGate(email: string, password: string)
    ensures Validate(email, password).Keys() == {} <==> RegexMatches(email) && !AllSpace(password)
  {
    EmailErrorCases(email, password);
    PasswordErrorCases(email, password);
    var v := Validate(email, password);
    if v.email.Some? {
      assert EmailKey in v.Keys();
    }
    if v.password.Some? {
      assert PasswordKey in v.Keys();
    }
  }

  /** The two checks are independent: blank fields get both messages at once. */
  lemma BothErrorsAtOnce(email: string, password: string)
    requires AllSpace(email) && AllSpace(password)
    ensures Validate(email, password) == FormErrors(Some(EmailRequired), Some(PasswordRequired))
    ensures Validate(email, password).Keys() == {EmailKey, PasswordKey}
  {
    EmailErrorCases(email, password);
    PasswordErrorCases(email, password);
  }

  /** The login screen's redirect is the exact negation of the home screen's. */
  lemma RedirectGuardsComplement(token: Option<string>)
    ensures RedirectsHome(token) <==> !Home.RedirectsToLogin(token)
  {
  }
}
