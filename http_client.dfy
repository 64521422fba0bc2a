/**
 * The interceptors of the shared HTTP client (src/api/http/client.ts).  The request rule
 * attaches the stored token as a bearer credential (RFC 6750 section 2.1); the error rule
 * treats a 401 as session invalidation.  The Axios instance itself (base URL, default
 * headers, 20-second timeout) is configuration and is not modelled.
 */
module HttpClient {
  import opened Wrappers
  import opened Js
  import opened Browser

  /** The localStorage key of the bearer token; the auth store uses the same key. */
  const TokenKey := "auth_token"
  const LoginPath := "/login"

  /** The headers of an outgoing request, which the request interceptor edits in place. */
  class RequestConfig {
    var headers: map<string, string>

    constructor (headers: map<string, string>)
      ensures this.headers == headers
    {
      this.headers := headers;
    }
  }

  /** A stored token counts only when it is a non-empty string (`if (token)`). */
  predicate HasToken(stored: Option<string>) {
    stored.Some? && stored.value != ""
  }

  /** Request interceptor: with a stored token, `Authorization` becomes "Bearer <token>"; otherwise nothing changes. */
  method OnRequest(config: RequestConfig, storage: LocalStorage)
    modifies config
    ensures HasToken(storage.GetItem(TokenKey)) ==>
              config.headers == old(config.headers)["Authorization" := "Bearer " + storage.GetItem(TokenKey).value]
    ensures !HasToken(storage.GetItem(TokenKey)) ==> config.headers == old(config.headers)
  {
    var token := storage.GetItem(TokenKey);
    if HasToken(token) {
      config.headers := config.headers["Authorization" := "Bearer " + token.value];
    }
  }

  /** `err?.response?.status === 401` */
  predicate IsUnauthorized(err: Value) {
    Member(Member(err, "response"), "status") == Num(401)
  }

  /**
   * Error interceptor: a 401 removes the stored token and, unless the page already is the
   * login page, navigates there.  Every error is rejected again, unchanged.
   */
  method OnResponseError(err: Value, storage: LocalStorage, location: Location) returns (rejection: Value)
    modifies storage, location
    ensures rejection == err
    ensures IsUnauthorized(err) ==> storage.slots == old(storage.slots) - {TokenKey}
    ensures IsUnauthorized(err) && old(location.pathname) != LoginPath ==>
              location.href == LoginPath && location.pathname == old(location.pathname)
    ensures IsUnauthorized(err) && old(location.pathname) == LoginPath ==> unchanged(location)
    ensures !IsUnauthorized(err) ==> unchanged(storage) && unchanged(location)
  {
    if IsUnauthorized(err) {
      storage.RemoveItem(TokenKey);
      if location.pathname != LoginPath {
        location.href := LoginPath;
      }
    }
    rejection := err;
  }
}
