/** The client's HTTP layer (frontend/src/services/api.ts): the request interceptor
    that attaches the stored token as a bearer credential (section 2.1 of RFC 6750),
    the form-encoded login request (section 4.3.2 of RFC 6749), the JSON
    registration request and logout. The transport itself is not modelled: a
    request is the value handed to it. */
module Api {
  import opened Common
  import opened Text
  import Browser

  const TokenKey: string := "token"
  const AuthorizationHeader: string := "Authorization"
  const BearerPrefix: string := "Bearer "
  const BaseUrl: string := "http://localhost:8000/api"
  const JsonType: string := "application/json"
  const FormType: string := "application/x-www-form-urlencoded"
  const LoginPath: string := "/auth/login"
  const RegisterPath: string := "/auth/register"
  const LoginPage: string := "/login"

  /** The stored token, as `localStorage.getItem("token")`. */
  function StoredToken(storage: map<string, string>): Option<string>
  {
    Browser.GetItem(storage, TokenKey)
  }

  /** A token counts only when it is stored and non-empty. */
  predicate HasToken(storage: map<string, string>)
  {
    Present(StoredToken(storage))
  }

  /** The credential `Bearer <token>`. */
  function BearerValue(token: string): (h: string)
    ensures StartsWith(h, BearerPrefix)
    ensures h[|BearerPrefix|..] == token
  {
    BearerPrefix + token
  }

  /** A token without spaces is recovered by splitting the credential at its space:
      the scheme, then the token. */
  lemma BearerParses(token: string)
    requires ' ' !in token
    ensures Split(BearerValue(token), ' ') == ["Bearer", token]
  {
    assert Join(["Bearer", token], ' ') == BearerValue(token) by {
      assert Join(["Bearer", token][1..], ' ') == token;
    }
    SplitJoin(["Bearer", token], ' ');
  }

  /** The headers after the interceptor has run over `headers`. */
  function Intercepted(headers: map<string, string>, storage: map<string, string>): (h: map<string, string>)
    ensures HasToken(storage) ==>
      AuthorizationHeader in h && h[AuthorizationHeader] == BearerValue(storage[TokenKey])
    ensures !HasToken(storage) ==> h == headers
    ensures h.Keys == headers.Keys || h.Keys == headers.Keys + {AuthorizationHeader}
    ensures forall k :: k in headers && k != AuthorizationHeader ==> k in h && h[k] == headers[k]
  {
    if HasToken(storage) then headers[AuthorizationHeader := BearerValue(storage[TokenKey])]
    else headers
  }

  /** A request configuration; the interceptor changes its headers in place. */
  class RequestConfig {
    var headers: map<string, string>

    constructor (initial: map<string, string>)
      ensures headers == initial
    {
      headers := initial;
    }
  }

  /** The request interceptor. It reads the stored token and never writes storage:
      only the configuration is in its frame. */
  method Intercept(config: RequestConfig, window: Browser.Window)
    modifies config
    ensures config.headers == Intercepted(old(config.headers), window.storage)
  {
    var token := Browser.GetItem(window.storage, TokenKey);
    if token.Some? && token.value != "" {
      config.headers := config.headers[AuthorizationHeader := BearerValue(token.value)];
    }
  }

  /** Starting from headers without credentials, the Authorization header is there
      exactly when a token is stored, and its scheme is `Bearer`. */
  lemma InterceptedAuthorization(headers: map<string, string>, storage: map<string, string>)
    requires AuthorizationHeader !in headers
    ensures AuthorizationHeader in Intercepted(headers, storage) <==> HasToken(storage)
    ensures HasToken(storage) ==>
      Split(Intercepted(headers, storage)[AuthorizationHeader], ' ')[0] == "Bearer"
  {
    if HasToken(storage) {
      var token := storage[TokenKey];
      var parts := Split(BearerValue(token), ' ');
      assert BearerValue(token) == "Bearer" + [' '] + token;
      SplitAround("Bearer", token, ' ');
      NoSeparator("Bearer", ' ');
    }
  }

  /** A request as handed to the transport. */
  datatype Body =
    | Form(pairs: seq<(string, string)>)   // `URLSearchParams`
    | Json(fields: seq<(string, string)>)  // an object literal, in key order
  datatype Request = Request(path: string, contentType: string, body: Body)

  /** The value of the first pair with the key, as `URLSearchParams.get`. */
  function FormValue(pairs: seq<(string, string)>, key: string): (v: Option<string>)
    ensures v.None? <==> forall i :: 0 <= i < |pairs| ==> pairs[i].0 != key
    ensures v.Some? ==> (key, v.value) in pairs
  {
    if |pairs| == 0 then None
    else if pairs[0].0 == key then Some(pairs[0].1)
    else FormValue(pairs[1..], key)
  }

  /** `loginUser`: a form with the username, then the password, posted as
      `application/x-www-form-urlencoded` to the login path. */
  method LoginUser(username: string, password: string) returns (request: Request)
    ensures request.path == LoginPath && request.contentType == FormType
    ensures request.body.Form?
    ensures FormValue(request.body.pairs, "username") == Some(username)
    ensures FormValue(request.body.pairs, "password") == Some(password)
    ensures |request.body.pairs| == 2 && request.body.pairs[0].0 == "username"
  {
    var form: seq<(string, string)> := [];
    form := form + [("username", username)];
    form := form + [("password", password)];
    request := Request(LoginPath, FormType, Form(form));
  }

  /** `registerUser`: the user data, unchanged, as JSON to the registration path. */
  method RegisterUser(username: string, email: string, password: string) returns (request: Request)
    ensures request.path == RegisterPath && request.contentType == JsonType
    ensures request.body == Json([("username", username), ("email", email), ("password", password)])
  {
    request := Request(RegisterPath, JsonType, Json([("username", username), ("email", email), ("password", password)]));
  }

  /** One `key=value` field. */
  function EncodePair(pair: (string, string)): string
  {
    pair.0 + "=" + pair.1
  }

  /** The form body as sent: the fields joined by '&'. Percent-encoding is not
      modelled, so keys and values are taken without '&' and keys without '='. */
  function Encode(pairs: seq<(string, string)>): (body: string)
    ensures |pairs| == 0 <==> body == ""
  {
    if |pairs| == 0 then ""
    else
      var fields := seq(|pairs|, i requires 0 <= i < |pairs| => EncodePair(pairs[i]));
      assert |fields[0]| > 0;
      Join(fields, '&')
  }

  /** A field split at its first '='; a field without one has an empty value. */
  function DecodePair(field: string): (string, string)
  {
    var parts := Split(field, '=');
    if |parts| == 1 then (field, "") else (parts[0], Join(parts[1..], '='))
  }

  /** The server's reading of a form body. */
  function Decode(body: string): seq<(string, string)>
  {
    if body == "" then []
    else
      var fields := Split(body, '&');
      seq(|fields|, i requires 0 <= i < |fields| => DecodePair(fields[i]))
  }

  /** Decoding a field gives back its key and value. */
  lemma DecodeEncodePair(pair: (string, string))
    requires '=' !in pair.0
    ensures DecodePair(EncodePair(pair)) == pair
  {
    assert EncodePair(pair) == pair.0 + ['='] + pair.1;
    SplitAround(pair.0, pair.1, '=');
    NoSeparator(pair.0, '=');
    var parts := Split(EncodePair(pair), '=');
    assert parts[1..] == Split(pair.1, '=');
    JoinSplit(pair.1, '=');
  }

  /** The server reads back exactly the fields the client sent. */
  lemma DecodeEncode(pairs: seq<(string, string)>)
    requires forall i :: 0 <= i < |pairs| ==> '&' !in pairs[i].0 && '&' !in pairs[i].1
    requires forall i :: 0 <= i < |pairs| ==> '=' !in pairs[i].0
    ensures Decode(Encode(pairs)) == pairs
  {
    if |pairs| > 0 {
      var fields := seq(|pairs|, i requires 0 <= i < |pairs| => EncodePair(pairs[i]));
      forall i | 0 <= i < |fields|
        ensures '&' !in fields[i]
      {
        assert fields[i] == pairs[i].0 + "=" + pairs[i].1;
      }
      SplitJoin(fields, '&');
      forall i | 0 <= i < |pairs|
        ensures DecodePair(fields[i]) == pairs[i]
      {
        DecodeEncodePair(pairs[i]);
      }
    }
  }

  /** The login form reaches the server with both credentials when they contain
      no form delimiter. */
  lemma LoginFormReadable(username: string, password: string)
    requires '&' !in username && '&' !in password
    ensures var pairs := Decode(Encode([("username", username), ("password", password)]));
      FormValue(pairs, "username") == Some(username) && FormValue(pairs, "password") == Some(password)
  {
    DecodeEncode([("username", username), ("password", password)]);
  }

  /** `logoutUser`: the token is removed, then the login page is loaded. */
  method LogoutUser(window: Browser.Window)
    modifies window
    ensures window.storage == old(window.storage) - {TokenKey}
    ensures window.navigations == old(window.navigations) + [Browser.Load(LoginPage)]
    ensures window.alerts == old(window.alerts) && window.tabs == old(window.tabs)
    ensures !HasToken(window.storage)
  {
    window.RemoveItem(TokenKey);
    window.Navigate(Browser.Load(LoginPage));
  }

  /** Once the token is gone the interceptor attaches nothing. */
  lemma LoggedOutSendsNoCredential(headers: map<string, string>, storage: map<string, string>)
    ensures !HasToken(storage - {TokenKey})
    ensures Intercepted(headers, storage - {TokenKey}) == headers
  {
  }
}
