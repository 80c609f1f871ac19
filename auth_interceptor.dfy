/** The request augmenter (`authInterceptor`): attaches the stored
    credential to every outgoing request. */
module AuthInterceptor {
  import opened Common
  import Http
  import AuthService

  /** Angular's `HttpHeaders` keep a list of values per header, under the
      lower-cased header name; the map's keys are those lower-cased names. */
  type Headers = map<string, seq<string>>

  /** The request fields the interceptor can see; `body` stands for every
      field other than the headers. */
  datatype Request = Request(verb: string, url: string, body: Option<string>, headers: Headers)

  /** `HttpHeaders` files the header named "Authorization" under its
      lower-cased name. */
  const AuthorizationKey := "authorization"

  /** `headers.set(name, value)` for the header filed under `key`: every
      value of that header is replaced with the single given one; other
      headers are untouched. */
  function SetHeader(h: Headers, key: string, value: string): (r: Headers)
    ensures key in r && r[key] == [value]
    ensures forall k :: k != key ==> (k in r <==> k in h)
    ensures forall k :: k != key && k in h ==> r[k] == h[k]
  {
    h[key := [value]]
  }

  /** Setting a header twice to the same value is setting it once. */
  lemma SetHeaderTwice(h: Headers, key: string, value: string)
    ensures SetHeader(SetHeader(h, key, value), key, value) == SetHeader(h, key, value)
  {
    assert SetHeader(SetHeader(h, key, value), key, value) == h[key := [value]][key := [value]];
  }

  /** The request passed on to the next handler, given `getToken()`:
      a clone with the Authorization header set when the token is truthy,
      the very same request otherwise. */
  function Forward(request: Request, token: Option<string>): (r: Request)
  {
    if Http.Truthy(token) then
      request.(headers := SetHeader(request.headers, AuthorizationKey, token.value))
    else request
  }

  /** With a non-empty token the Authorization header is exactly the token,
      and nothing else about the request changes. */
  lemma ForwardAttaches(request: Request, token: string)
    requires token != ""
    ensures var r := Forward(request, Some(token));
      && AuthorizationKey in r.headers && r.headers[AuthorizationKey] == [token]
      && r.verb == request.verb && r.url == request.url && r.body == request.body
      && (forall k :: k != AuthorizationKey ==> (k in r.headers <==> k in request.headers))
      && (forall k :: k != AuthorizationKey && k in request.headers ==> r.headers[k] == request.headers[k])
  {
  }

  /** Without a token, or with an empty one, the request goes out unchanged. */
  lemma ForwardWithoutToken(request: Request, token: Option<string>)
    requires token.None? || token.value == ""
    ensures Forward(request, token) == request
  {
  }

  /** Forwarding an already augmented request changes nothing: `set`
      replaces the header instead of adding a second value. */
  lemma ForwardIdempotent(request: Request, token: Option<string>)
    ensures Forward(Forward(request, token), token) == Forward(request, token)
  {
    if AuthService.LoggedIn(token) {
      SetHeaderTwice(request.headers, AuthorizationKey, token.value);
    }
  }

  /** After a successful login every request carries the composed
      credential `type + " " + token`. */
  lemma LoginCredentialAttached(request: Request, reply: AuthService.LoginReply)
    ensures var r := Forward(request, Some(AuthService.Credential(reply)));
      r.headers[AuthorizationKey] == [reply.tokenType + " " + reply.token]
  {
  }
}
