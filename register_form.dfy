/** The registration form of client/src/components/Auth/Register.jsx: the
    password rule, the ordered guards of `handleSubmit`, and what the form
    does with the server's answer. The form's React state is the fields of
    class RegisterForm; `localStorage` is `storedToken` and `storedUserId`;
    `navigate` is `navigatedTo`. */
module RegisterPage {
  import opened Base
  import opened Text
  import opened UserModel
  import opened AccountRoutes

  const MinPasswordLength := 8
  /** The characters of the class `[!@#$%^&*(),.?":{}|<>]`. */
  const SpecialChars := "!@#$%^&*(),.?\":{}|<>"

  const UsernameRequired := "Username is required"
  const EmailRequired := "Email is required"
  const WeakPassword := "Password must be at least 8 characters long and include a number and special character"
  const PasswordsDiffer := "Passwords do not match"
  const RegistrationFailed := "Registration failed"

  /** `\d`: an ASCII digit. */
  predicate IsDigit(c: char)
  {
    '0' <= c <= '9'
  }

  predicate HasDigit(p: string)
  {
    exists i :: 0 <= i < |p| && IsDigit(p[i])
  }

  predicate HasSpecialChar(p: string)
  {
    exists i :: 0 <= i < |p| && p[i] in SpecialChars
  }

  /** `validatePassword`. No special character is a digit, so an accepted
      password has its digit and its special character at two different
      places. */
  predicate ValidatePassword(p: string)
    ensures ValidatePassword(p) ==>
              exists i, j :: 0 <= i < |p| && 0 <= j < |p| && i != j && IsDigit(p[i]) && p[j] in SpecialChars
  {
    |p| >= MinPasswordLength && HasDigit(p) && HasSpecialChar(p)
  }

  /** Appending characters never makes a valid password invalid. */
  lemma ValidPasswordExtends(p: string, q: string)
    requires ValidatePassword(p)
    ensures ValidatePassword(p + q)
  {
    var i :| 0 <= i < |p| && IsDigit(p[i]);
    assert (p + q)[i] == p[i];
    var j :| 0 <= j < |p| && p[j] in SpecialChars;
    assert (p + q)[j] == p[j];
  }

  /** Passwords on each side of the rule. */
  lemma PasswordExamples()
    ensures ValidatePassword("secret1!")
    ensures !ValidatePassword("secre1!")
    ensures !ValidatePassword("secret12")
    ensures !ValidatePassword("secret!!")
  {
    assert IsDigit("secret1!"[6]) && "secret1!"[7] in SpecialChars;
    var s := "secret12";
    assert forall i :: 0 <= i < |s| ==> s[i] !in SpecialChars;
    var t := "secret!!";
    assert forall i :: 0 <= i < |t| ==> !IsDigit(t[i]);
  }

  /** The message of the first failing guard of `handleSubmit`, in the
      order username, email, password rule, confirmation; None when all
      pass. Whitespace-only username and email count as missing. */
  function FormError(username: string, email: string, password: string, confirm: string): (e: Option<string>)
    ensures e == Some(UsernameRequired) <==> forall i :: 0 <= i < |username| ==> IsJsWhitespace(username[i])
    ensures e == Some(EmailRequired) <==>
              (exists i :: 0 <= i < |username| && !IsJsWhitespace(username[i]))
              && forall i :: 0 <= i < |email| ==> IsJsWhitespace(email[i])
    ensures e == Some(WeakPassword) <==> Trim(username) != "" && Trim(email) != "" && !ValidatePassword(password)
    ensures e == Some(PasswordsDiffer) <==>
              Trim(username) != "" && Trim(email) != "" && ValidatePassword(password) && password != confirm
    ensures e == None <==>
              Trim(username) != "" && Trim(email) != "" && ValidatePassword(password) && password == confirm
  {
    TrimEmptyIff(username);
    TrimEmptyIff(email);
    if Trim(username) == "" then Some(UsernameRequired)
    else if Trim(email) == "" then Some(EmailRequired)
    else if !ValidatePassword(password) then Some(WeakPassword)
    else if password != confirm then Some(PasswordsDiffer)
    else None
  }

  /** Whatever the form lets through also passes the server's schema
      validation once the username is stored. */
  lemma AcceptedFormPassesSchema(username: string, email: string, password: string, confirm: string)
    requires FormError(username, email, password, confirm) == None
    ensures SchemaValid(Some(username), email, password)
  {
    assert Trim("") == "";
  }

  /** The body of the register request: the fields as typed, untrimmed. */
  datatype RegisterRequest = RegisterRequest(username: string, email: string, password: string)

  class RegisterForm {
    var username: string
    var email: string
    var password: string
    var confirmPassword: string
    var error: string
    var storedToken: Option<string>
    var storedUserId: Option<string>
    var navigatedTo: Option<string>

    constructor ()
      ensures username == "" && email == "" && password == "" && confirmPassword == "" && error == ""
      ensures storedToken == None && storedUserId == None && navigatedTo == None
    {
      username := "";
      email := "";
      password := "";
      confirmPassword := "";
      error := "";
      storedToken := None;
      storedUserId := None;
      navigatedTo := None;
    }

    /** `handleSubmit` up to the request: the error is cleared, then set to
        the first failing guard's message, and only when no guard fails is a
        request produced. */
    method HandleSubmit() returns (request: Option<RegisterRequest>)
      modifies this`error
      ensures var e := FormError(username, email, password, confirmPassword);
              && error == (if e.Some? then e.value else "")
              && (request.Some? <==> e == None)
              && (request.Some? ==> request.value == RegisterRequest(username, email, password))
    {
      ghost var e := FormError(username, email, password, confirmPassword);
      error := "";
      if Trim(username) == "" {
        assert e == Some(UsernameRequired);
        error := UsernameRequired;
        return None;
      }
      if Trim(email) == "" {
        assert e == Some(EmailRequired);
        error := EmailRequired;
        return None;
      }
      if !ValidatePassword(password) {
        assert e == Some(WeakPassword);
        error := WeakPassword;
        return None;
      }
      if password != confirmPassword {
        assert e == Some(PasswordsDiffer);
        error := PasswordsDiffer;
        return None;
      }
      assert e == None;
      request := Some(RegisterRequest(username, email, password));
    }

    /** The rest of `handleSubmit`, given the server's answer (None: no
        answer at all). Success stores the token and the user id and goes to
        `/projects`; a failure shows the server's message, or a generic one
        when there is none. */
    method HandleAnswer(answer: Option<Response<Session>>)
      modifies this`error, this`storedToken, this`storedUserId, this`navigatedTo
      ensures answer.Some? && answer.value.Ok? ==>
                && storedToken == Some(answer.value.body.token)
                && storedUserId == Some(answer.value.body.userId)
                && navigatedTo == Some("/projects") && error == old(error)
      ensures !(answer.Some? && answer.value.Ok?) ==>
                && storedToken == old(storedToken) && storedUserId == old(storedUserId)
                && navigatedTo == old(navigatedTo)
                && error == (if answer.Some? && Truthy(answer.value.failure.message)
                             then answer.value.failure.message else RegistrationFailed)
                && error != ""
    {
      if answer.Some? && answer.value.Ok? {
        storedToken := Some(answer.value.body.token);
        storedUserId := Some(answer.value.body.userId);
        navigatedTo := Some("/projects");
      } else if answer.Some? && Truthy(answer.value.failure.message) {
        error := answer.value.failure.message;
      } else {
        error := RegistrationFailed;
      }
    }
  }
}
