/** The sign-in / register form of the web client
    (todopalm-web/src/components/Auth/AuthBackground.tsx): its validators, the
    mode switch and the submit button. */
module AuthBackground {
  import opened Strings
  import opened Common

  /** A character the class `[^\s@]` accepts. */
  predicate PatternChar(c: char)
  {
    !IsWhitespace(c) && c != '@'
  }

  /** A non-empty run of `[^\s@]`: the `[^\s@]+` of the pattern. */
  predicate PatternRun(s: string)
  {
    |s| > 0 && forall i :: 0 <= i < |s| ==> PatternChar(s[i])
  }

  /** `/^[^\s@]+@[^\s@]+\.[^\s@]+$/.test(s)`: some '@' and some later '.' cut the
      string into three runs of the class. */
  ghost predicate MatchesEmailPattern(s: string)
  {
    exists at, dot :: 0 < at && at + 1 < dot && dot + 1 < |s| && s[at] == '@' && s[dot] == '.' &&
      PatternRun(s[..at]) && PatternRun(s[at + 1..dot]) && PatternRun(s[dot + 1..])
  }

  /** The domain has a '.' that is neither its first nor its last character. */
  predicate HasInnerDot(domain: string)
  {
    exists k :: 0 < k < |domain| - 1 && domain[k] == '.'
  }

  /** isValidEmail, stated as what the pattern means: no white space, exactly one
      '@' with something before it, and a domain with an inner '.'. */
  predicate IsValidEmail(s: string)
  {
    NoWhitespace(s) && Contains(s, '@') &&
    var at := IndexOf(s, '@');
    at > 0 && !Contains(s[at + 1..], '@') && HasInnerDot(s[at + 1..])
  }

  /** A slice is a run of the class exactly when it is non-empty and each of its characters is in the class. */
  lemma RunSlice(s: string, lo: int, hi: int)
    requires 0 <= lo <= hi <= |s|
    ensures PatternRun(s[lo..hi]) <==> lo < hi && forall i :: lo <= i < hi ==> PatternChar(s[i])
  {
    assert forall i :: lo <= i < hi ==> s[lo..hi][i - lo] == s[i];
  }

  /** A valid address matches the pattern, cut at its '@' and at an inner '.' of its domain. */
  lemma ValidEmailMatches(s: string)
    requires IsValidEmail(s)
    ensures MatchesEmailPattern(s)
  {
    var at := IndexOf(s, '@');
    var domain := s[at + 1..];
    var k :| 0 < k < |domain| - 1 && domain[k] == '.';
    var dot := at + 1 + k;
    assert forall i :: at < i < |s| ==> s[i] == domain[i - at - 1];
    assert forall i :: 0 <= i < |domain| ==> domain[i] != '@';
    assert forall i :: 0 <= i < |s| && i != at ==> PatternChar(s[i]);
    RunSlice(s, 0, at);
    RunSlice(s, at + 1, dot);
    RunSlice(s, dot + 1, |s|);
    assert s[dot + 1..|s|] == s[dot + 1..];
  }

  /** A string the pattern matches is valid: the cut '@' is its only one. */
  lemma MatchingEmailIsValid(s: string, at: int, dot: int)
    requires 0 < at && at + 1 < dot && dot + 1 < |s| && s[at] == '@' && s[dot] == '.'
    requires PatternRun(s[..at]) && PatternRun(s[at + 1..dot]) && PatternRun(s[dot + 1..])
    ensures IsValidEmail(s)
  {
    RunSlice(s, 0, at);
    RunSlice(s, at + 1, dot);
    RunSlice(s, dot + 1, |s|);
    assert s[..at] == s[0..at] && s[dot + 1..] == s[dot + 1..|s|];
    assert forall i :: 0 <= i < |s| && i != at && i != dot ==> PatternChar(s[i]);
    assert NoWhitespace(s);
    assert Contains(s, '@');
    assert IndexOf(s, '@') == at;
    var domain := s[at + 1..];
    assert forall i :: 0 <= i < |domain| ==> domain[i] == s[at + 1 + i];
    assert !Contains(domain, '@');
    assert domain[dot - at - 1] == '.';
  }

  /** The description agrees with the regular expression on every string. */
  lemma IsValidEmailMatchesPattern(s: string)
    ensures IsValidEmail(s) <==> MatchesEmailPattern(s)
  {
    if IsValidEmail(s) {
      ValidEmailMatches(s);
    }
    if MatchesEmailPattern(s) {
      var at, dot :| 0 < at && at + 1 < dot && dot + 1 < |s| && s[at] == '@' && s[dot] == '.' &&
        PatternRun(s[..at]) && PatternRun(s[at + 1..dot]) && PatternRun(s[dot + 1..]);
      MatchingEmailIsValid(s, at, dot);
    }
  }

  /** JavaScript's `s.length`: the number of UTF-16 code units, two for every
      character outside the Basic Multilingual Plane. */
  function Utf16Length(s: string): (n: nat)
    ensures |s| <= n <= 2 * |s|
    ensures n == |s| <==> forall i :: 0 <= i < |s| ==> s[i] as int < 0x1_0000
  {
    if s == [] then 0
    else (if s[0] as int >= 0x1_0000 then 2 else 1) + Utf16Length(s[1..])
  }

  /** isValidPassword: at least six UTF-16 code units. */
  predicate IsValidPassword(password: string)
  {
    Utf16Length(password) >= 6
  }

  /** Six characters always suffice, three never do, and in between the
      characters' planes decide: four letters and one emoji ("abcd" followed by
      U+1F600) make six code units and pass. */
  lemma PasswordLengthBounds(password: string)
    ensures |password| >= 6 ==> IsValidPassword(password)
    ensures |password| <= 2 ==> !IsValidPassword(password)
    ensures (forall i :: 0 <= i < |password| ==> password[i] as int < 0x1_0000) ==>
      (IsValidPassword(password) <==> |password| >= 6)
    ensures IsValidPassword("abcd\U{1F600}")
  {
    var p := "abcd\U{1F600}";
    assert |p| == 5 && p[4] as int >= 0x1_0000;
    assert Utf16Length(p[4..]) == 2;
    assert p[3..][1..] == p[4..];
    assert p[2..][1..] == p[3..];
    assert p[1..][1..] == p[2..];
  }

  /** The four text fields of the form. */
  datatype Form = Form(name: string, email: string, password: string, confirmedPassword: string)

  /** isValidLogin */
  predicate IsValidLogin(f: Form)
  {
    IsValidEmail(f.email) && IsValidPassword(f.password)
  }

  /** isValidSignup: exactly the login conditions, a confirmed password and a
      name; so a valid sign-up is always a valid login, and a valid login fails
      to be a valid sign-up only for a missing name or an unconfirmed password. */
  predicate IsValidSignup(f: Form): (ok: bool)
    ensures ok <==> IsValidLogin(f) && f.password == f.confirmedPassword && f.name != ""
  {
    IsValidEmail(f.email) && IsValidPassword(f.password) && f.password == f.confirmedPassword && |f.name| > 0
  }

  /** The form every switch of mode leaves behind. */
  const EMPTY_FORM := Form("", "", "", "")

  /** A cleared form passes neither check: its e-mail is empty. */
  lemma EmptyFormIsInvalid()
    ensures !IsValidLogin(EMPTY_FORM) && !IsValidSignup(EMPTY_FORM)
  {
    assert !Contains("", '@');
  }

  /** What `signIn("credentials", ...)` is given: the three fields and the page
      to land on. */
  datatype SignInRequest = SignInRequest(email: string, password: string, name: string, callbackUrl: string)

  /** The page both sign-in buttons land on. */
  const CALLBACK_URL := "/categories"

  /** The form component. `showLogin` false shows the register mode. */
  class AuthModal {
    var form: Form
    var showPassword: bool
    var showLogin: bool

    /** The button that submits the current mode is enabled. */
    predicate SubmitEnabled()
      reads this
    {
      if showLogin then IsValidLogin(form) else IsValidSignup(form)
    }

    /** The modal opens in register mode with an empty form. */
    constructor ()
      ensures form == EMPTY_FORM && !showPassword && !showLogin
      ensures !SubmitEnabled()
    {
      form := EMPTY_FORM;
      showPassword := false;
      showLogin := false;
      EmptyFormIsInvalid();
    }

    /** Typing in one of the fields. */
    method Edit(f: Form)
      modifies this
      ensures form == f && showLogin == old(showLogin) && showPassword == old(showPassword)
    {
      form := f;
    }

    /** The link under the buttons switches to the other mode and clears the four
        fields, so the submit button of the new mode starts disabled. */
    method SwitchMode()
      modifies this
      ensures showLogin == !old(showLogin) && form == EMPTY_FORM && showPassword == old(showPassword)
      ensures !SubmitEnabled()
    {
      form := form.(confirmedPassword := "");
      form := form.(name := "");
      form := form.(email := "");
      form := form.(password := "");
      showLogin := !showLogin;
      EmptyFormIsInvalid();
    }

    /** A click on the submit button: a disabled button sends nothing; an enabled
        one signs in with the credentials provider, sending the e-mail, password
        and name as typed (the name too in login mode) and landing on the
        categories page. The form itself is not changed. */
    method Submit() returns (sent: Option<SignInRequest>)
      ensures sent.Some? <==> SubmitEnabled()
      ensures sent.Some? ==>
        sent.value.email == form.email && sent.value.password == form.password &&
        sent.value.name == form.name && sent.value.callbackUrl == CALLBACK_URL
      ensures sent.Some? ==> IsValidEmail(sent.value.email) && Utf16Length(sent.value.password) >= 6
    {
      var enabled := if showLogin then IsValidLogin(form) else IsValidSignup(form);
      if enabled {
        sent := Some(SignInRequest(form.email, form.password, form.name, CALLBACK_URL));
      } else {
        sent := None;
      }
    }
  }
}
