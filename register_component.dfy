/** The sign-up form (`RegisterComponent`): two form controls with Angular's
    built-in validators, and the submit handler with its reply callbacks
    over `loading`, `errorMessage` and `successMessage`. */
module RegisterComponent {
  import opened Common
  import Http
  import AuthService

  const UsernameMinLength := 3
  const UsernameMaxLength := 20
  const PasswordMinLength := 6
  const PasswordMaxLength := 40
  const RegistrationFailed := "Registration failed. Please try again."

  /** The body of `POST /auth/register`. */
  datatype User = User(username: string, password: string)

  /** A control value counts as empty for the validators when it is `null`
      (after `reset()`) or the empty string. */
  predicate IsEmptyInput(value: Option<string>) {
    value.None? || value.value == ""
  }

  /** `Validators.required`. */
  predicate Required(value: Option<string>) {
    !IsEmptyInput(value)
  }

  /** `Validators.minLength(n)`: an empty value passes; it is `required`'s
      job to refuse it. */
  predicate MinLength(value: Option<string>, n: nat) {
    IsEmptyInput(value) || |value.value| >= n
  }

  /** `Validators.maxLength(n)`: an empty value passes. */
  predicate MaxLength(value: Option<string>, n: nat) {
    IsEmptyInput(value) || |value.value| <= n
  }

  predicate UsernameValid(value: Option<string>) {
    Required(value) && MinLength(value, UsernameMinLength) && MaxLength(value, UsernameMaxLength)
  }

  predicate PasswordValid(value: Option<string>) {
    Required(value) && MinLength(value, PasswordMinLength) && MaxLength(value, PasswordMaxLength)
  }

  /** The group is valid when every control is: `!registerForm.invalid`. */
  predicate FormValid(username: Option<string>, password: Option<string>) {
    UsernameValid(username) && PasswordValid(password)
  }

  /** The three validators of each control together amount to one length
      window per field, and both fields must be present. */
  lemma FormValidIff(username: Option<string>, password: Option<string>)
    ensures FormValid(username, password) <==>
      && username.Some? && UsernameMinLength <= |username.value| <= UsernameMaxLength
      && password.Some? && PasswordMinLength <= |password.value| <= PasswordMaxLength
  {
  }

  /** A reset form, and a freshly built one, cannot be submitted. */
  lemma BlankFormInvalid()
    ensures !FormValid(None, None)
    ensures !FormValid(Some(""), Some(""))
  {
  }

  /** What the error callback shows: the thrown string, otherwise a generic
      text. */
  function ErrorText(error: Thrown): (r: string)
    ensures error.ThrownString? ==> r == error.text
    ensures error.ThrownOther? ==> r == RegistrationFailed
  {
    if error.ThrownString? then error.text else RegistrationFailed
  }

  /** Every error `AuthService.register` can throw is a string, so the
      component shows the mapped server message and never its own
      fallback text in place of it. */
  lemma AuthErrorShownVerbatim(e: Http.HttpError)
    ensures ErrorText(ThrownString(AuthService.HandleError(e))) == AuthService.HandleError(e)
  {
  }

  class RegisterComponent {
    /** The two controls of `registerForm`. */
    var username: Option<string>
    var password: Option<string>
    var errorMessage: string
    var successMessage: string
    var loading: bool

    /** The form is built with both controls empty. */
    constructor ()
      ensures username == Some("") && password == Some("")
      ensures errorMessage == "" && successMessage == "" && !loading
    {
      username := Some("");
      password := Some("");
      errorMessage := "";
      successMessage := "";
      loading := false;
    }

    /** `registerForm.invalid`. */
    function Invalid(): (r: bool)
      reads this
      ensures !r <==>
        && username.Some? && UsernameMinLength <= |username.value| <= UsernameMaxLength
        && password.Some? && PasswordMinLength <= |password.value| <= PasswordMaxLength
    {
      FormValidIff(username, password);
      !FormValid(username, password)
    }

    /** `ngOnInit`: whether the component navigates away to the task list,
        which it does for a logged-in user. */
    method NgOnInit(auth: AuthService.AuthService) returns (toTasks: bool)
      ensures toTasks <==> AuthService.LoggedIn(auth.store)
    {
      toTasks := auth.IsLoggedIn();
    }

    /** `onSubmit`: an invalid form is left alone and nothing is sent;
        otherwise `loading` is set, both messages are cleared and the form
        value is sent. */
    method OnSubmit() returns (request: Option<User>)
      modifies this
      ensures old(Invalid()) ==> request == None && unchanged(this)
      ensures !old(Invalid()) ==>
        && request == Some(User(old(username).value, old(password).value))
        && loading && errorMessage == "" && successMessage == ""
        && username == old(username) && password == old(password)
    {
      if Invalid() {
        return None;
      }
      loading := true;
      errorMessage := "";
      successMessage := "";
      request := Some(User(username.value, password.value));
    }

    /** The success callback: show the server's text, reset both controls
        to `null` and stop loading. The error message is not touched. */
    method OnRegisterOk(message: string)
      modifies this
      ensures successMessage == message
      ensures username == None && password == None && !loading
      ensures errorMessage == old(errorMessage)
    {
      successMessage := message;
      username := None;
      password := None;
      loading := false;
    }

    /** The error callback: show the error when it is a string, the generic
        text otherwise, and stop loading; the form keeps its values. */
    method OnRegisterErr(error: Thrown)
      modifies this
      ensures errorMessage == ErrorText(error) && !loading
      ensures successMessage == old(successMessage)
      ensures username == old(username) && password == old(password)
    {
      errorMessage := if error.ThrownString? then error.text else RegistrationFailed;
      loading := false;
    }
  }

  /** A sign-up: an empty form is refused, a filled one is sent, a server
      error is shown as mapped by the auth client, and a retry succeeds and
      empties the form, which can then not be submitted again. */
  method RegisterScenario(e: Http.HttpError, auth: AuthService.AuthService, reply: string)
  {
    var c := new RegisterComponent();
    var request := c.OnSubmit();
    assert request == None && !c.loading;
    c.username, c.password := Some("alice"), Some("secret1");
    request := c.OnSubmit();
    assert request == Some(User("alice", "secret1")) && c.loading;
    var thrown := auth.OnAuthError(e);
    c.OnRegisterErr(thrown);
    assert c.errorMessage == AuthService.HandleError(e) && !c.loading;
    request := c.OnSubmit();
    assert c.errorMessage == "" && c.loading;
    c.OnRegisterOk(reply);
    assert c.successMessage == reply && c.username == None;
    request := c.OnSubmit();
    assert request == None;
  }
}
