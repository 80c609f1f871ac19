/** The auth client and its token store (`AuthService`). The browser's
    `localStorage['token']` slot is the class field `store`. */
module AuthService {
  import opened Common
  import opened Http

  /** The body of a successful `POST /auth/login`: `{token, type}`. */
  datatype LoginReply = LoginReply(token: string, tokenType: string)

  /** What `login` emits: `{token}`, the composed credential. */
  datatype AuthResponse = AuthResponse(token: string)

  const ClientErrorFallback := "An error occurred"
  const LoginErrorFallback := "Invalid username or password"

  /** The credential stored and sent on every request: the token type, one
      space, then the token. */
  function Credential(reply: LoginReply): (c: string)
    ensures |c| == |reply.tokenType| + 1 + |reply.token|
    ensures c[..|reply.tokenType|] == reply.tokenType
    ensures c[|reply.tokenType|] == ' '
    ensures c[|reply.tokenType| + 1..] == reply.token
  {
    reply.tokenType + " " + reply.token
  }

  /** `!!localStorage.getItem('token')`: a stored value counts only when it
      is non-empty. */
  predicate LoggedIn(stored: Option<string>) {
    Truthy(stored)
  }

  /** The error `register` and `login` throw: a client-side event's message
      (or a generic text when it has none), a text body verbatim, and for
      anything else the bad-credentials text. */
  function HandleError(e: HttpError): (r: string)
  {
    match e.error
    case ErrorEventBody(m) => if m != "" then m else ClientErrorFallback
    case TextBody(t) => t
    case _ => LoginErrorFallback
  }

  /** The three branches of the mapping, stated against the error. */
  lemma HandleErrorCases(e: HttpError)
    ensures e.error.ErrorEventBody? ==>
      HandleError(e) == (if e.error.eventMessage == "" then ClientErrorFallback else e.error.eventMessage)
    ensures e.error.TextBody? ==> HandleError(e) == e.error.text
    ensures e.error.ObjectBody? || e.error.NoBody? ==> HandleError(e) == LoginErrorFallback
  {
  }

  /** The mapped message is empty only for an empty text body. */
  lemma HandleErrorEmpty(e: HttpError)
    ensures HandleError(e) == "" <==> e.error == TextBody("")
  {
  }

  /** The composed credential always reads as logged in. */
  lemma CredentialLogsIn(reply: LoginReply)
    ensures LoggedIn(Some(Credential(reply)))
  {
  }

  /** The login of the scenario `{type: "Bearer", token: "abc123"}`. */
  lemma BearerScenario()
    ensures Credential(LoginReply("abc123", "Bearer")) == "Bearer abc123"
  {
  }

  class AuthService {
    /** `localStorage['token']`. */
    var store: Option<string>

    /** A service over whatever the browser profile has persisted. */
    constructor (persisted: Option<string>)
      ensures store == persisted
    {
      store := persisted;
    }

    /** The `map` step of `login`: store the composed credential,
        overwriting any earlier one, and emit it. */
    method OnLoginOk(reply: LoginReply) returns (r: AuthResponse)
      modifies this
      ensures store == Some(Credential(reply))
      ensures r.token == Credential(reply) && GetToken() == Some(r.token)
      ensures IsLoggedIn()
    {
      var token := reply.tokenType + " " + reply.token;
      store := Some(token);
      r := AuthResponse(token);
    }

    /** The `catchError` step of `login` and `register`: the store is not
        touched and the mapped message is thrown. */
    method OnAuthError(e: HttpError) returns (thrown: Thrown)
      ensures thrown == ThrownString(HandleError(e))
    {
      thrown := ThrownString(HandleError(e));
    }

    /** `logout`: removes the stored credential. */
    method Logout()
      modifies this
      ensures store == None
      ensures !IsLoggedIn() && GetToken() == None
    {
      store := None;
    }

    /** `isLoggedIn`: a non-empty credential is stored. */
    function IsLoggedIn(): (r: bool)
      reads this
      ensures r <==> store.Some? && |store.value| > 0
      ensures r ==> GetToken().Some?
    {
      LoggedIn(store)
    }

    /** `getToken`: the stored value, verbatim. */
    function GetToken(): (r: Option<string>)
      reads this
      ensures r == store
    {
      store
    }
  }

  /** A session: log in, log in again, fail a login, log out. */
  method SessionScenario(e: HttpError)
  {
    var auth := new AuthService(None);
    assert !auth.IsLoggedIn();
    BearerScenario();
    var r := auth.OnLoginOk(LoginReply("abc123", "Bearer"));
    assert auth.GetToken() == Some("Bearer abc123") && auth.IsLoggedIn();
    r := auth.OnLoginOk(LoginReply("xyz", "Bearer"));
    assert Credential(LoginReply("xyz", "Bearer")) == "Bearer xyz";
    assert auth.GetToken() == Some("Bearer xyz");
    var thrown := auth.OnAuthError(e);
    assert auth.GetToken() == Some("Bearer xyz");
    auth.Logout();
    assert !auth.IsLoggedIn() && auth.GetToken() == None;
  }
}
