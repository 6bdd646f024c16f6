/** The route guard (frontend/src/components/AuthGuard.tsx): protected pages
    render only while a token is stored. */
module AuthGuard {
  import Api

  const LoginPage: string := "/login"

  /** What the guard renders: a redirect, or the protected element. */
  datatype Outcome<T> =
    | Redirect(to: string, replace: bool)
    | Render(children: T)

  /** The guard reads storage and nothing else; it does not check the token. */
  function Guard<T>(storage: map<string, string>, children: T): (o: Outcome<T>)
    ensures o.Redirect? <==> !Api.HasToken(storage)
    ensures o.Redirect? ==> o.to == LoginPage && o.replace
    ensures o.Render? ==> o.children == children
  {
    if !Api.HasToken(storage) then Redirect(LoginPage, true) else Render(children)
  }

  /** Any two stores that agree on whether a token is present are treated alike,
      whatever the tokens are. */
  lemma GuardDependsOnPresenceOnly<T>(s1: map<string, string>, s2: map<string, string>, children: T)
    requires Api.HasToken(s1) == Api.HasToken(s2)
    ensures Guard(s1, children) == Guard(s2, children)
  {
  }

  /** An empty stored token is no token: the guard redirects. */
  lemma EmptyTokenRedirects<T>(storage: map<string, string>, children: T)
    ensures Guard(storage[Api.TokenKey := ""], children) == Redirect(LoginPage, true)
  {
    assert !Api.HasToken(storage[Api.TokenKey := ""]);
  }
}
