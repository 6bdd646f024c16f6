/** The login page (frontend/src/pages/Login.tsx): on submit it clears the error,
    calls `loginUser`, stores the token and goes to the library; on failure it
    shows an error and stays. */
module Login {
  import opened Common
  import Api
  import Browser
  import AuthGuard

  const LibraryPath: string := "/library"
  const InvalidCredentialsMessage: string := "Invalid username or password"
  const UnexpectedMessage: string := "An unexpected error occurred"

  /** How `loginUser` can fail: any error axios raises, with the `detail` of the
      response body when there is one (`None` for an error status without a
      detail, and also for a request that got no response at all, such as an
      unreachable server or a timeout), or any other exception. */
  datatype Failure =
    | AxiosFailure(detail: Option<string>)
    | OtherFailure

  /** The message shown for a failed attempt. */
  function ErrorMessage(failure: Failure): (m: string)
    ensures m != ""
    ensures failure.AxiosFailure? && Present(failure.detail) ==> m == failure.detail.value
    ensures failure.AxiosFailure? && !Present(failure.detail) ==> m == InvalidCredentialsMessage
    ensures failure.OtherFailure? ==> m == UnexpectedMessage
  {
    match failure
    case AxiosFailure(detail) => OrElse(detail, InvalidCredentialsMessage)
    case OtherFailure => UnexpectedMessage
  }

  class Page {
    var error: string

    constructor ()
      ensures error == ""
    {
      error := "";
    }

    /** The part of `handleLogin` before the request: the error is cleared. */
    method StartLogin()
      modifies this
      ensures error == ""
    {
      error := "";
    }

    /** The part of `handleLogin` after `loginUser` settles with the access token
        or a failure. */
    method SettleLogin(outcome: Result<string, Failure>, window: Browser.Window)
      modifies this, window
      ensures outcome.Ok? ==> error == old(error)
      ensures outcome.Ok? ==> window.storage == old(window.storage)[Api.TokenKey := outcome.value]
      ensures outcome.Ok? ==> window.navigations == old(window.navigations) + [Browser.Route(LibraryPath)]
      ensures outcome.Err? ==> error == ErrorMessage(outcome.error)
      ensures outcome.Err? ==> window.storage == old(window.storage) && window.navigations == old(window.navigations)
      ensures window.alerts == old(window.alerts) && window.tabs == old(window.tabs)
    {
      match outcome {
        case Ok(token) =>
          window.SetItem(Api.TokenKey, token);
          window.Navigate(Browser.Route(LibraryPath));
        case Err(failure) =>
          error := ErrorMessage(failure);
      }
    }

    /** `handleLogin` run to completion. */
    method HandleLogin(outcome: Result<string, Failure>, window: Browser.Window)
      modifies this, window
      ensures outcome.Ok? ==> error == ""
      ensures outcome.Ok? ==> window.storage == old(window.storage)[Api.TokenKey := outcome.value]
      ensures outcome.Ok? ==> window.navigations == old(window.navigations) + [Browser.Route(LibraryPath)]
      ensures outcome.Err? ==> error == ErrorMessage(outcome.error) && error != ""
      ensures outcome.Err? ==> window.storage == old(window.storage) && window.navigations == old(window.navigations)
      ensures window.alerts == old(window.alerts) && window.tabs == old(window.tabs)
    {
      StartLogin();
      SettleLogin(outcome, window);
    }
  }

  /** After a login that returned a non-empty token, the protected pages render and
      every request carries that token as its bearer credential. */
  lemma LoginOpensProtectedPages<T>(storage: map<string, string>, token: string, children: T,
                                    headers: map<string, string>)
    requires token != ""
    ensures AuthGuard.Guard(storage[Api.TokenKey := token], children) == AuthGuard.Render(children)
    ensures var h := Api.Intercepted(headers, storage[Api.TokenKey := token]);
      Api.AuthorizationHeader in h && h[Api.AuthorizationHeader] == Api.BearerPrefix + token
  {
    assert Api.HasToken(storage[Api.TokenKey := token]);
  }
}
