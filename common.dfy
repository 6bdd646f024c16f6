/** Value types shared by the client and the server models. */
module Common {

  datatype Option<+T> = None | Some(value: T)

  datatype Result<+T, +E> = Ok(value: T) | Err(error: E)

  /** A FastAPI `HTTPException`: status code, detail text and, for 401 responses,
      the `WWW-Authenticate` challenge header. */
  datatype HttpError = HttpError(status: nat, detail: string, authenticate: Option<string>)

  function Fail(status: nat, detail: string): (e: HttpError)
    ensures e.status == status && e.detail == detail && e.authenticate.None?
  {
    HttpError(status, detail, None)
  }

  /** The truthiness of an optional string: `!!s` on a `string | null | undefined`
      in TypeScript and `if s:` on an `Optional[str]` in Python. Absent and empty
      are both false. */
  predicate Present(s: Option<string>)
  {
    s.Some? && s.value != ""
  }

  /** `s || fallback`: the string when it is present, the fallback otherwise. */
  function OrElse(s: Option<string>, fallback: string): (r: string)
    ensures r == fallback || (s.Some? && r == s.value)
    ensures r == "" ==> fallback == ""
    ensures Present(s) ==> r == s.value
  {
    if Present(s) then s.value else fallback
  }
}
