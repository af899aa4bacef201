/**
 * The sign-in / sign-up screen of app/auth.tsx: the validation ladder run
 * by handleAuth before any call to the auth service, the transitions of
 * the screen's `error` and `loading` state around that call, the
 * navigation after a successful sign-in, and toggleMode's reset.
 *
 * The auth service (signUp / signIn) is not modelled: its outcome for the
 * one call handleAuth makes is an input, `Reply`.
 */
module AuthScreen {

  import opened Wrappers
  import RouteGuard

  const FillAllFields: string := "Please fill in all fields."
  const InvalidEmail: string := "Please enter a valid email address."
  const ShortPassword: string := "Password must be at least 6 characters."
  const AuthFailed: string := "Authentication failed. Please try again."

  const MinPasswordLength: nat := 6

  // ---------------------------------------------------------------------
  // The email test /\S+@\S+\.\S+/ (unanchored)
  // ---------------------------------------------------------------------

  /** The characters JavaScript's `\s` matches (WhiteSpace and LineTerminator). */
  predicate IsSpace(c: char)
  {
    || c == '\t' || c == '\n' || c == '\U{000B}' || c == '\U{000C}' || c == '\r' || c == ' '
    || c == '\U{00A0}' || c == '\U{1680}' || ('\U{2000}' <= c <= '\U{200A}')
    || c == '\U{2028}' || c == '\U{2029}' || c == '\U{202F}' || c == '\U{205F}'
    || c == '\U{3000}' || c == '\U{FEFF}'
  }

  /**
   * `\S+\.\S+` can match starting at `i` with its dot at `e`: the run
   * `s[i..e]` is non-empty and free of spaces, and a non-space follows the dot.
   */
  ghost predicate DomainAt(s: string, i: int, e: int)
  {
    && 0 <= i < e
    && e + 1 < |s|
    && s[e] == '.'
    && (forall k :: i <= k < e ==> !IsSpace(s[k]))
    && !IsSpace(s[e + 1])
  }

  /** The pattern matches with its `@` at `a` and its dot at `d`. */
  ghost predicate MatchesAt(s: string, a: int, d: int)
  {
    && 0 < a < |s|
    && s[a] == '@'
    && !IsSpace(s[a - 1])
    && DomainAt(s, a + 1, d)
  }

  /** `/\S+@\S+\.\S+/.test(s)`: the pattern matches somewhere in `s`. */
  ghost predicate EmailPattern(s: string)
  {
    exists a, d :: MatchesAt(s, a, d)
  }

  /** Scans for the dot of `\S+\.\S+` from `d`, the run `s[i..d]` being space-free. */
  function DomainFrom(s: string, i: nat, d: nat): (b: bool)
    requires i <= d <= |s|
    requires forall k :: i <= k < d ==> !IsSpace(s[k])
    ensures b <==> exists e :: d <= e && DomainAt(s, i, e)
    decreases |s| - d
  {
    if d + 1 >= |s| then false
    else if IsSpace(s[d]) then
      assert forall e :: d <= e && DomainAt(s, i, e) ==> e == d;
      false
    else if s[d] == '.' && i < d && !IsSpace(s[d + 1]) then
      assert DomainAt(s, i, d);
      true
    else
      assert !DomainAt(s, i, d);
      DomainFrom(s, i, d + 1)
  }

  /** Scans for the `@` of the pattern from position `a`. */
  function MatchFrom(s: string, a: nat): (b: bool)
    ensures b <==> exists a', d :: a <= a' && MatchesAt(s, a', d)
    decreases |s| - a
  {
    if a >= |s| then false
    else if 0 < a && s[a] == '@' && !IsSpace(s[a - 1]) && DomainFrom(s, a + 1, a + 1) then
      assert exists d :: MatchesAt(s, a, d) by {
        var d :| a + 1 <= d && DomainAt(s, a + 1, d);
        assert MatchesAt(s, a, d);
      }
      true
    else
      assert forall d :: !MatchesAt(s, a, d);
      MatchFrom(s, a + 1)
  }

  /** The email test handleAuth runs. */
  function IsValidEmail(email: string): (b: bool)
    ensures b <==> EmailPattern(email)
  {
    MatchFrom(email, 0)
  }

  /** The pattern needs a dot: an email without one fails the test. */
  lemma NoDotIsInvalid(s: string)
    requires '.' !in s
    ensures !EmailPattern(s)
  {
  }

  /**
   * `\S+` before the `@` needs a non-space right before it: an email whose
   * every `@` opens the text or follows a whitespace character fails.
   */
  lemma SpaceBeforeAtIsInvalid(s: string)
    requires forall k :: 0 <= k < |s| && s[k] == '@' ==> k == 0 || IsSpace(s[k - 1])
    ensures !EmailPattern(s)
  {
  }

  /** The test is not anchored: text around a matching email still matches. */
  lemma PatternIsUnanchored(p: string, m: string, q: string)
    requires EmailPattern(m)
    ensures EmailPattern(p + m + q)
  {
    var a, d :| MatchesAt(m, a, d);
    var s := p + m + q;
    assert forall k :: 0 <= k < |m| ==> s[|p| + k] == m[k];
    assert MatchesAt(s, |p| + a, |p| + d);
  }

  // ---------------------------------------------------------------------
  // The validation ladder
  // ---------------------------------------------------------------------

  /**
   * The message of the first check of handleAuth that fails, or None when
   * all three pass and the auth service is called.
   */
  function Validate(email: string, password: string): (r: Option<string>)
    ensures r == Some(FillAllFields) <==> email == "" || password == ""
    ensures r == Some(InvalidEmail) <==> email != "" && password != "" && !EmailPattern(email)
    ensures r == Some(ShortPassword) <==>
              email != "" && password != "" && EmailPattern(email) && |password| < MinPasswordLength
    ensures r == None <==>
              email != "" && password != "" && EmailPattern(email) && |password| >= MinPasswordLength
  {
    if email == "" || password == "" then Some(FillAllFields)
    else if !IsValidEmail(email) then Some(InvalidEmail)
    else if |password| < MinPasswordLength then Some(ShortPassword)
    else None
  }

  /** For any email that passes, six characters is the shortest password that passes. */
  lemma PasswordLengthBoundary(email: string, p5: string, p6: string)
    requires email != "" && EmailPattern(email) && |p5| == 5 && |p6| == 6
    ensures Validate(email, p5) == Some(ShortPassword)
    ensures Validate(email, p6) == None
  {
  }

  // ---------------------------------------------------------------------
  // Screen state and its transitions
  // ---------------------------------------------------------------------

  /** The screen's state fields (focus and layout state left out). */
  datatype Screen = Screen(
    isSignUp: bool,
    email: string,
    password: string,
    showPassword: bool,
    error: Option<string>,
    loading: bool)

  /** What the awaited signUp / signIn call did: resolve with a value, or throw. */
  datatype Reply = Replied(message: Option<string>) | Threw

  /** JavaScript truthiness of the resolved value: null, undefined and "" are falsy. */
  predicate Truthy(m: Option<string>)
  {
    m.Some? && m.value != ""
  }

  /**
   * One run of handleAuth: the screen afterwards, the screen at the moment
   * the auth service was called (None when no call was made), and the
   * route the screen was replaced with (None when there was no navigation).
   */
  datatype Submission = Submission(after: Screen, called: Option<Screen>, route: Option<string>)

  function Submit(s: Screen, reply: Reply): (r: Submission)
    // the call happens exactly when every check passes, with the error cleared and loading on
    ensures r.called.Some? <==> Validate(s.email, s.password) == None
    ensures r.called.Some? ==> r.called.value == s.(error := None, loading := true)
    // a failed check sets its message and changes nothing else
    ensures r.called.None? ==> r.after == s.(error := Validate(s.email, s.password)) && r.route == None
    // after a call, loading always ends false
    ensures r.called.Some? ==> !r.after.loading
    ensures r.called.Some? && reply.Threw? ==> r.after.error == Some(AuthFailed)
    ensures r.called.Some? && reply.Replied? && Truthy(reply.message) ==> r.after.error == reply.message
    ensures r.called.Some? && reply.Replied? && !Truthy(reply.message) ==> r.after.error == None
    // only a successful sign-in navigates, and it goes home
    ensures r.route.Some? <==> r.called.Some? && !s.isSignUp && reply.Replied? && !Truthy(reply.message)
    ensures r.route.Some? ==> r.route.value == RouteGuard.HomeRoute
    // the form fields are never touched
    ensures && r.after.isSignUp == s.isSignUp && r.after.email == s.email
            && r.after.password == s.password && r.after.showPassword == s.showPassword
  {
    var verdict := Validate(s.email, s.password);
    if verdict.Some? then Submission(s.(error := verdict), None, None)
    else
      var calling := s.(error := None, loading := true);
      match reply
      case Threw => Submission(calling.(error := Some(AuthFailed), loading := false), Some(calling), None)
      case Replied(m) =>
        if Truthy(m) then Submission(calling.(error := m, loading := false), Some(calling), None)
        else Submission(calling.(loading := false), Some(calling), if s.isSignUp then None else Some(RouteGuard.HomeRoute))
  }

  /** toggleMode: the other mode, with an empty form, no error, the password hidden. */
  function Toggled(s: Screen): (r: Screen)
    ensures r.isSignUp != s.isSignUp
    ensures r.email == "" && r.password == "" && r.error == None && !r.showPassword
    ensures r.loading == s.loading
  {
    s.(isSignUp := !s.isSignUp, email := "", password := "", error := None, showPassword := false)
  }

  /** Toggling twice is back in the first mode, still with a cleared form. */
  lemma ToggleTwice(s: Screen)
    ensures Toggled(Toggled(s)) == Toggled(s).(isSignUp := s.isSignUp)
  {
  }

  /** Submitting straight after a toggle is stopped by the first check. */
  lemma SubmitAfterToggle(s: Screen, reply: Reply)
    ensures Submit(Toggled(s), reply) == Submission(Toggled(s).(error := Some(FillAllFields)), None, None)
  {
  }

  function AsSeq<T>(o: Option<T>): seq<T>
  {
    if o.Some? then [o.value] else []
  }

  /** The screen component, its state fields updated one setter at a time. */
  class AuthForm {
    var isSignUp: bool
    var email: string
    var password: string
    var showPassword: bool
    var error: Option<string>
    var loading: bool
    /** The screen state at each call made to the auth service, oldest first. */
    ghost var calls: seq<Screen>
    /** Every route passed to `router.replace`, oldest first. */
    var routes: seq<string>

    function Snapshot(): Screen
      reads this
    {
      Screen(isSignUp, email, password, showPassword, error, loading)
    }

    /** The initial `useState` values. */
    constructor ()
      ensures Snapshot() == Screen(false, "", "", false, None, false)
      ensures calls == [] && routes == []
    {
      isSignUp, email, password, showPassword, error, loading := false, "", "", false, None, false;
      calls, routes := [], [];
    }

    method ToggleMode()
      modifies this
      ensures Snapshot() == Toggled(old(Snapshot()))
      ensures calls == old(calls) && routes == old(routes)
    {
      isSignUp := !isSignUp;
      email := "";
      password := "";
      error := None;
      showPassword := false;
    }

    method HandleAuth(reply: Reply)
      modifies this
      ensures Snapshot() == Submit(old(Snapshot()), reply).after
      ensures calls == old(calls) + AsSeq(Submit(old(Snapshot()), reply).called)
      ensures routes == old(routes) + AsSeq(Submit(old(Snapshot()), reply).route)
    {
      if email == "" || password == "" {
        error := Some(FillAllFields);
        return;
      }
      if !IsValidEmail(email) {
        error := Some(InvalidEmail);
        return;
      }
      if |password| < MinPasswordLength {
        error := Some(ShortPassword);
        return;
      }
      error := None;
      loading := true;
      calls := calls + [Snapshot()];
      match reply {
        case Threw =>
          error := Some(AuthFailed);
        case Replied(m) =>
          if Truthy(m) {
            error := m;
            loading := false;
            return;
          }
          if !isSignUp {
            routes := routes + [RouteGuard.HomeRoute];
          }
      }
      loading := false;
    }
  }
}
