/** The login and registration pre-checks of `composables/useAuth.js`.  The
    backend calls (`login`, `register`, the availability lookup) are outside
    the model: their outcomes are parameters, and each flow reports whether it
    would have made the call.  Navigation after success is not modelled. */
module Auth {
  import opened Wrappers
  import opened JsValues

  datatype Credentials = Credentials(email: JsString, password: JsString)

  datatype Registration = Registration(
    email: JsString, password: JsString, passwordConfirm: JsString, username: JsString)

  /** What a backend call does when it is made: return, or throw an error
      with a message. */
  datatype Outcome = Succeeded | Failed(message: string)

  /** The result of the username lookup: the request threw, or it returned
      this many matching users. */
  datatype Lookup = LookupFailed | Found(count: nat)

  /** The end state of a flow: its boolean result, the `error` ref, the
      `isLoading` ref, and whether the backend operation was invoked. */
  datatype FlowResult = FlowResult(success: bool, error: Option<string>, isLoading: bool, backendCalled: bool)

  const MissingCredentials: string := "Email and password are required"
  const MissingRegistrationFields: string := "Email, password, and username are required"
  const PasswordMismatch: string := "Passwords do not match"
  const PasswordTooShort: string := "Password must be at least 8 characters long"
  const UsernameTaken: string := "Username is already taken"

  const MinPasswordLength: nat := 8

  /** The `catch`/`finally` ending of both flows for a thrown message. */
  function Fail(message: string, called: bool): FlowResult {
    FlowResult(false, Some(message), false, called)
  }

  /** `loginUser`. */
  function LoginUser(c: Credentials, login: Outcome): (r: FlowResult)
    ensures !r.isLoading
    ensures r.success <==> r.error.None?
    ensures r.backendCalled <==> Truthy(c.email) && Truthy(c.password)
    ensures !r.backendCalled ==> r.error == Some(MissingCredentials)
    ensures r.success <==> r.backendCalled && login.Succeeded?
    ensures r.backendCalled && login.Failed? ==> r.error == Some(login.message)
  {
    if !Truthy(c.email) || !Truthy(c.password) then Fail(MissingCredentials, false)
    else match login
      case Succeeded => FlowResult(true, None, false, true)
      case Failed(m) => Fail(m, true)
  }

  /** `checkUsernameAvailability`: available only when the lookup succeeded
      and found nobody; a failed lookup counts as taken. */
  function CheckUsernameAvailability(l: Lookup): (r: bool)
    ensures r <==> l == Found(0)
  {
    match l
    case LookupFailed => false
    case Found(n) => n == 0
  }

  /** The pre-checks of `registerUser`, in order, each with whether it
      passes and the message it throws otherwise. */
  function RegistrationChecks(u: Registration, availability: Lookup): (r: seq<(bool, string)>)
    ensures |r| == 4
  {
    [ (Truthy(u.email) && Truthy(u.password) && Truthy(u.username), MissingRegistrationFields),
      (u.password == u.passwordConfirm, PasswordMismatch),
      (u.password.Str? && |u.password.s| >= MinPasswordLength, PasswordTooShort),
      (CheckUsernameAvailability(availability), UsernameTaken) ]
  }

  /** The message of the first failing check, if any check fails. */
  function FirstFailure(checks: seq<(bool, string)>): (r: Option<string>)
    ensures r.None? <==> forall i :: 0 <= i < |checks| ==> checks[i].0
    ensures r.Some? ==> exists i :: 0 <= i < |checks| && !checks[i].0 && checks[i].1 == r.value
                                    && forall k :: 0 <= k < i ==> checks[k].0
  {
    if checks == [] then None
    else if !checks[0].0 then Some(checks[0].1)
    else
      var r := FirstFailure(checks[1..]);
      assert forall i :: 1 <= i < |checks| ==> checks[i] == checks[1..][i - 1];
      assert r.Some? ==> exists i :: 0 <= i < |checks| && !checks[i].0 && checks[i].1 == r.value
                                     && forall k :: 0 <= k < i ==> checks[k].0 by {
        if r.Some? {
          var i :| 0 <= i < |checks[1..]| && !checks[1..][i].0 && checks[1..][i].1 == r.value
                   && forall k :: 0 <= k < i ==> checks[1..][k].0;
          assert !checks[i + 1].0 && checks[i + 1].1 == r.value;
        }
      }
      r
  }

  /** `registerUser`. */
  function RegisterUser(u: Registration, availability: Lookup, register: Outcome): (r: FlowResult)
    ensures !r.isLoading
    ensures r.success <==> r.error.None?
    ensures r.success ==> r.backendCalled
  {
    if !Truthy(u.email) || !Truthy(u.password) || !Truthy(u.username) then Fail(MissingRegistrationFields, false)
    else if u.password != u.passwordConfirm then Fail(PasswordMismatch, false)
    else if |u.password.s| < MinPasswordLength then Fail(PasswordTooShort, false)
    else if !CheckUsernameAvailability(availability) then Fail(UsernameTaken, false)
    else match register
      case Succeeded => FlowResult(true, None, false, true)
      case Failed(m) => Fail(m, true)
  }

  /** The chain of `if (...) throw` statements reports the first failing
      check of the ordered list, and `register` is called exactly when every
      check passes. */
  lemma RegisterReportsFirstFailure(u: Registration, availability: Lookup, register: Outcome)
    ensures var checks := RegistrationChecks(u, availability);
            var r := RegisterUser(u, availability, register);
            && (r.backendCalled <==> FirstFailure(checks).None?)
            && (FirstFailure(checks).Some? ==> r.error == FirstFailure(checks) && !r.success)
            && (FirstFailure(checks).None? ==>
                  (r.success <==> register.Succeeded?)
                  && (register.Failed? ==> r.error == Some(register.message)))
  {
    var checks := RegistrationChecks(u, availability);
    var f := FirstFailure(checks);
    if !checks[0].0 {
      assert f == Some(checks[0].1);
    } else if !checks[1].0 {
      assert f == Some(checks[1].1);
    } else if !checks[2].0 {
      assert f == Some(checks[2].1);
    } else if !checks[3].0 {
      assert f == Some(checks[3].1);
    } else {
      assert f.None?;
    }
  }

  /** The length boundary: a confirmed seven-character password stops at the
      length check, an eight-character one gets through to `register` when
      the username is free. */
  lemma PasswordLengthBoundary(p8: string, p7: string, name: string, lookup: Lookup, register: Outcome)
    requires |p8| == 8 && |p7| == 7 && name != []
    ensures RegisterUser(Registration(Str("a@b.c"), Str(p7), Str(p7), Str(name)), lookup, register).error
            == Some(PasswordTooShort)
    ensures RegisterUser(Registration(Str("a@b.c"), Str(p8), Str(p8), Str(name)), Found(0), register).backendCalled
  {
  }

  /** A lookup that fails is reported exactly like a taken username. */
  lemma FailedLookupMeansTaken(u: Registration, register: Outcome)
    requires Truthy(u.email) && Truthy(u.password) && Truthy(u.username)
    requires u.password == u.passwordConfirm && |u.password.s| >= MinPasswordLength
    ensures RegisterUser(u, LookupFailed, register) == RegisterUser(u, Found(1), register)
    ensures RegisterUser(u, LookupFailed, register).error == Some(UsernameTaken)
  {
  }

  // ---------------------------------------------------------------------
  // Username format

  predicate IsUsernameChar(c: char) {
    ('a' <= c <= 'z') || ('A' <= c <= 'Z') || ('0' <= c <= '9') || c == '_'
  }

  /** `validateUsername`: the pattern `^[a-zA-Z0-9_]{3,20}$`. */
  method ValidateUsername(username: string) returns (ok: bool)
    ensures ok <==> 3 <= |username| <= 20 && forall i :: 0 <= i < |username| ==> IsUsernameChar(username[i])
  {
    if |username| < 3 || |username| > 20 {
      return false;
    }
    var i := 0;
    while i < |username|
      invariant 0 <= i <= |username|
      invariant forall k :: 0 <= k < i ==> IsUsernameChar(username[k])
    {
      if !IsUsernameChar(username[i]) {
        return false;
      }
      i := i + 1;
    }
    return true;
  }
}
