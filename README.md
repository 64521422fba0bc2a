# Talk-review client: session, notifications and HTTP plumbing in Dafny

This project models the client-side core of a single-page app used to submit talk
proposals and have them reviewed. The model covers:

- the **auth session store**: its token, user, verification flags and a one-shot bootstrap guard;
- the **notification feed store**: a deduplicated, newest-first feed capped at 100 items, an unread
  counter, and a per-user private real-time channel;
- the **HTTP interceptors**: they add the bearer token to requests, and on a 401 they drop the token
  and send the browser to `/login`;
- **error normalisation**, which turns any rejected call into `{status, message, errors}`;
- the **response shaping** of the notification endpoints;
- the **Content-Disposition filename parser**, including percent-decoding;
- the **real-time client configuration**;
- the **route guard**;
- the **proposal status badge**.

The modules follow the source files:

| module | file | source |
|---|---|---|
| `Wrappers`, `Js`, `Text` | `wrappers.dfy`, `js.dfy`, `text.dfy` | helpers. `Js.Value` is a loosely typed JavaScript value with `?.`, `??`, `\|\|`, truthiness and `String()`. `Text` has `trim`, ASCII lower-casing and integer printing |
| `Browser` | `browser.dfy` | `localStorage` and `window.location`, as classes |
| `HttpClient` | `http_client.dfy` | `src/api/http/client.ts` |
| `ApiErrors` | `api_error.dfy` | `src/api/http/error.ts` |
| `Auth` | `auth_store.dfy` | `src/stores/auth.store.ts` |
| `NotificationsApi` | `notifications_api.dfy` | `src/api/notifications/notifications.api.ts` |
| `Notifications` | `notifications_store.dfy` | `src/stores/notifications.store.ts` |
| `Uri`, `ContentDisposition` | `uri.dfy`, `content_disposition.dfy` | `decodeURIComponent`, and the parser in `src/api/proposals/proposals.api.ts` |
| `Echo` | `echo.dfy` | `src/echo.ts` |
| `Router` | `router.dfy` | `src/router/index.ts` |
| `StatusBadge` | `status_badge.dfy` | `src/utils/statusBadge.ts` |

The two stores are classes whose methods update fields under `modifies` frames. The interceptors
mutate a `RequestConfig`, a `LocalStorage` and a `Location` object. Every remote call is an outcome
parameter: `Success(value)` or `Failure(rejection)`. The ids, the timestamps and the environment are
parameters too.

- **Call log.** The auth store keeps a ghost log of the remote calls it makes.
- **Bootstrap invariant.** `Valid()` says that the log holds at most one "who am I" call, and none
  before bootstrapping. Every method of the store preserves it.
- **Getters.** `isLoggedIn` and `needsEmailVerification` are the predicates `IsLoggedIn` (the
  interceptor's own token rule, `HttpClient.HasToken`) and `NeedsEmailVerification`. The contracts
  of `SetAuth`, `ClearAuth` and `Logout` state both getters, and `Bootstrap` and `Logout` branch on
  `IsLoggedIn`.
- **Storage sync.** `Synced()` says that the in-memory token is the persisted one.
- **Channel log.** The notification store keeps a ghost log of channel leave and subscribe requests.

Details of the code that are easy to misread, and how the model follows them:

- **Unread count.** A pushed item counts as unread when `!item.read_at` holds
  (`src/stores/notifications.store.ts:125`). That includes an empty-string timestamp, not only null.
- **401 redirect.** After a 401 the interceptor navigates only when the current path is not already
  `/login` (`src/api/http/client.ts:24`).
- **User without bootstrap.** Before bootstrap, the store can hold a persisted token and no user.
- **Connection fallback.** `connectIfConfigured` also falls back to `window.Echo`.
  `initEcho` always sets that global to the same instance as the module variable, so both are
  modelled as the registry's instance.
- **Missing key.** `initEcho` without a key returns null but keeps the instance built earlier.
  `getEcho` goes on returning that instance.

## Model

| member | source | states |
|---|---|---|
| ApiErrors.BaseMessage | src/api/http/error.ts:13-18 | the base message is the first non-nullish of `data.message`, string `data`, the error's `message` and "Request failed"; it is never null/undefined and an empty string is kept |
| ApiErrors.FieldErrors | src/api/http/error.ts:20-21 | `errors` is present exactly when `data.errors` is an array or object, and is then that value unchanged |
| ApiErrors.FirstFieldMessage | src/api/http/error.ts:24-26 | the first message is element 0 of the first key's entry (an array's first key is "0"); no key, or an empty first key, gives null |
| ApiErrors.NormalizeApiError | src/api/http/error.ts:9-36 | status is the response status (undefined without a response); errors as above; message is `base + ": " + first` when the first field message is truthy, else the base message |
| ApiErrors.ValidationFailureExample | src/api/http/error.ts:23-31 | a 422 with `{message, errors: {f: [m, ...more]}}` (any further messages) normalises to status 422, message "<server message>: m" and the errors object |
| ApiErrors.EmptyServerMessageKept | src/api/http/error.ts:14-18 | an empty server message wins over the error's own message (`??`, not `\|\|`) |
| ApiErrors.NoResponseExample | src/api/http/error.ts:11-18 | without a response the status is undefined and the message is the error's own |
| NotificationsApi.Body | src/api/notifications/notifications.api.ts:10 | the body is `res.data` unless that is nullish, else the response itself |
| NotificationsApi.UnwrapBody | src/api/notifications/notifications.api.ts:9-19 | an object body with a `data` key yields that inner value (with or without `items`), anything else the body |
| NotificationsApi.CountOrZero | src/api/notifications/notifications.api.ts:27-31 | a count is kept only when it is a number, else 0 |
| NotificationsApi.List | src/api/notifications/notifications.api.ts:22-33 | `items` is the body's array or empty, `unread` the body's number or 0 |
| NotificationsApi.ReadAll | src/api/notifications/notifications.api.ts:35-39 | `ok` is true when the body's `ok` is nullish, else its truthiness |
| NotificationsApi.UnreadCount | src/api/notifications/notifications.api.ts:42-47 | the body's `unread` when it is a number, else 0 |
| NotificationsApi.EnvelopeShapesAgree | src/api/notifications/notifications.api.ts:9-19 | the wrapped `{data: {...}}` and bare `{...}` bodies unwrap to the same payload |
| NotificationsApi.OneLayerPeeled | src/api/notifications/notifications.api.ts:12-15 | only one `data` layer is removed |
| ContentDisposition.ExtendedAt | src/api/proposals/proposals.api.ts:19 | `filename*=UTF-8''` (any ASCII case) followed by a non-empty run up to `;` matches, capturing that run |
| ContentDisposition.QuotedAt | src/api/proposals/proposals.api.ts:19 | `filename="` followed by a non-empty quote-free run and a closing quote matches, capturing the run |
| ContentDisposition.BareAt | src/api/proposals/proposals.api.ts:19 | `filename=` followed by a non-empty run up to `;` matches, capturing the run |
| ContentDisposition.MatchAt | src/api/proposals/proposals.api.ts:19 | at one position the extended form wins over the quoted form, which wins over the bare form; a capture is never empty |
| ContentDisposition.Search | src/api/proposals/proposals.api.ts:19 | a reported match starts at or after the start position and really matches there |
| ContentDisposition.SearchIsLeftmost | src/api/proposals/proposals.api.ts:19 | no position before the reported match matches, and none at all when none is reported |
| ContentDisposition.ParseFilename | src/api/proposals/proposals.api.ts:15-28 | a missing or empty header yields null; a returned filename is never empty |
| ContentDisposition.NoParameterNoFilename | src/api/proposals/proposals.api.ts:19-21 | a header without "filename" in any case yields null |
| ContentDisposition.ParseFilenameDecodes | src/api/proposals/proposals.api.ts:20-27 | for a non-empty header: no match, or a blank trimmed capture, gives null; otherwise the decoded trimmed capture, or the trimmed capture itself when decoding fails |
| ContentDisposition.QuotedParameter | src/api/proposals/proposals.api.ts:19-24 | `filename="<name>"...` yields the trimmed, decoded name |
| ContentDisposition.BareParameter | src/api/proposals/proposals.api.ts:19-24 | `filename=<value>;...` yields the decoded trimmed value, stopping at the first `;` |
| ContentDisposition.ExtendedParameter | src/api/proposals/proposals.api.ts:19-24 | `filename*=UTF-8''<value>` yields the decoded trimmed value |
| ContentDisposition.ExtendedExample | src/api/proposals/proposals.api.ts:19-24 | `filename*=UTF-8''a%20b` yields "a b" |
| ContentDisposition.MalformedEscapeKeptRaw | src/api/proposals/proposals.api.ts:23-27 | a lone `%` makes decoding fail and the raw value is returned instead |
| Uri.DecodeEscape | src/api/proposals/proposals.api.ts:24 | one escaped UTF-8 sequence consumes 3, 6, 9 or 12 characters within the input |
| Uri.Decode | src/api/proposals/proposals.api.ts:24 | `decodeURIComponent`, None where it throws; the result is never longer than the input and only empty for empty input |
| Uri.DecodeWithoutEscapes | src/api/proposals/proposals.api.ts:24 | text without `%` decodes to itself |
| Uri.LonePercentFails | src/api/proposals/proposals.api.ts:23-27 | a `%` anywhere in the text that is not followed by two hex digits makes decoding fail |
| Uri.DecodeEscapeOfChar | src/api/proposals/proposals.api.ts:24 | the escaped UTF-8 bytes of any character decode back to that character |
| Uri.DecodeEncodeAll | src/api/proposals/proposals.api.ts:24 | decoding the full percent-encoding of any text gives the text back |
| Uri.PercentTwentyIsSpace | src/api/proposals/proposals.api.ts:24 | `a%20b` decodes to "a b" |
| Uri.EuroSign | src/api/proposals/proposals.api.ts:24 | the three-byte escape `%E2%82%AC` decodes to one character, U+20AC |
| HttpClient.OnRequest | src/api/http/client.ts:11-15 | with a non-empty stored token the headers gain `Authorization: Bearer <token>`, otherwise they are unchanged |
| HttpClient.OnResponseError | src/api/http/client.ts:17-28 | a 401 removes the `auth_token` slot and sets `href` to `/login` unless already there; other errors change nothing; the error is always rejected again unchanged |
| Auth.RegisterPayloadOf | src/stores/auth.store.ts:87 | the register payload is the form with provider "local" |
| Auth.AuthStore.constructor | src/stores/auth.store.ts:17-25 | the token is read from storage, everything else starts logged out and unbootstrapped |
| Auth.AuthStore.SetAuth | src/stores/auth.store.ts:33-39 | token, user and both flags come from the response and storage holds its token; logged in exactly when that token is non-empty, needing verification exactly as the response's flags say |
| Auth.AuthStore.ClearAuth | src/stores/auth.store.ts:41-47 | token and user null, verification required and not done, storage slot removed; logged out and needing verification |
| Auth.AuthStore.Bootstrap | src/stores/auth.store.ts:49-67 | a second call changes nothing; no token means no remote call; success sets the user and flags and keeps the token; failure clears the session; at most one "who am I" call ever |
| Auth.AuthStore.LoadCurrentUser | src/stores/auth.store.ts:55-66 | the awaited "who am I": success adopts the user and flags, failure is clearAuth, `loading` is false afterwards |
| Auth.AuthStore.Reject | src/stores/auth.store.ts:75-77 | the shared failure path: the client's error interceptor runs first (a 401 removes the stored token and sets `href` to `/login`, leaving the location untouched when it already is `/login`; any other error changes neither), then `lastError` holds the rethrown normalised error; no session field changes |
| Auth.AuthStore.Authenticate | src/stores/auth.store.ts:72-78 | the awaited part of login and register: success is the setAuth state; failure goes through the interceptor and rethrows the normalised error with token, user and flags untouched; storage stays in step with the token except after a 401 |
| Auth.AuthStore.Login | src/stores/auth.store.ts:69-81 | sends provider "local"; success is the setAuth state; failure records and rethrows the normalised error with token, user and flags untouched, and a 401 also removes the stored token and leaves for `/login`; `loading` ends false |
| Auth.AuthStore.Register | src/stores/auth.store.ts:83-95 | as login, with the register payload, including the 401 path |
| Auth.AuthStore.ResendVerification | src/stores/auth.store.ts:97-105 | `lastError` is cleared, and on failure set to the rethrown normalised error; session fields unchanged; a 401 removes the stored token and leaves for `/login`, so an in-memory token is then out of step with storage until the page reloads |
| Auth.AuthStore.Logout | src/stores/auth.store.ts:107-114 | the remote call is made only with a token; the session always ends cleared (logged out, needing verification) and the storage slot removed; a remote failure still propagates |
| Notifications.Merge | src/stores/notifications.store.ts:120-124 | an item with an empty or present id leaves the feed as it is; otherwise it goes in front, the feed is cut to 100 and the rest shifts back by one |
| Notifications.MergeKeepsDistinct | src/stores/notifications.store.ts:122-124 | pairwise distinct ids stay distinct |
| Notifications.MergeIdempotent | src/stores/notifications.store.ts:121-124 | pushing the same item twice equals pushing it once |
| Notifications.MergeEvictsOldest | src/stores/notifications.store.ts:124 | on a full feed a new item evicts the last (oldest) entry |
| Notifications.StampRead | src/stores/notifications.store.ts:107-110 | same length; every item ends with a read time; read items are kept as they are; unread ones get the given time and nothing else changes |
| Notifications.StampReadKeepsIds | src/stores/notifications.store.ts:107-110 | ids and their order are kept, so distinct ids stay distinct |
| Notifications.FailureMessage | src/stores/notifications.store.ts:44 | the error text is the server message, else the error's message, else the fallback, whichever is truthy first; always truthy |
| Notifications.ChannelName | src/stores/notifications.store.ts:66 | the channel is "App.Models.User." followed by the id |
| Notifications.ChannelNameInjective | src/stores/notifications.store.ts:66-67 | different users get different channels, so a user switch always resubscribes |
| Notifications.LeaveOld | src/stores/notifications.store.ts:70-76 | a truthy old channel is left as "private-" + old, otherwise nothing is left |
| Notifications.IncomingItem | src/stores/notifications.store.ts:83-92 | the pushed item has the payload's id (or the generated one) and type (or "notification") as strings, the receive time, no read time, and the payload (or `{}`) as data |
| Notifications.FirstPushIntoEmptyFeed | src/stores/notifications.store.ts:82-92 | a push `{id, type, data}` into an empty feed becomes its only, unread item |
| Notifications.DuplicatePushNotCounted | src/stores/notifications.store.ts:120-126 | after a push, the same item is no longer accepted: a second push leaves the feed as it is and does not raise the count |
| Notifications.NotificationsStore.constructor | src/stores/notifications.store.ts:16-22 | empty feed, zero count, not loading, no error, no channel |
| Notifications.NotificationsStore.RefreshUnread | src/stores/notifications.store.ts:26-33 | success sets the count to the server's number or 0; failure keeps it; on a failure the client's error interceptor runs first (a 401 removes the stored token and sets `href` to `/login` unless already there; any other error changes neither) |
| Notifications.NotificationsStore.FetchLatest | src/stores/notifications.store.ts:35-50 | success replaces feed and count; failure empties the feed, keeps the count and sets the error; not loading afterwards; on a failure the client's error interceptor runs first (a 401 removes the stored token and sets `href` to `/login` unless already there; any other error changes neither) |
| Notifications.NotificationsStore.ConnectIfConfigured | src/stores/notifications.store.ts:55-97 | no user id, no connection, or the same channel: nothing changes (a second call is a no-op); otherwise the old channel is left first and the user's channel subscribed |
| Notifications.NotificationsStore.ReceiveNotification | src/stores/notifications.store.ts:82-96 | the handler pushes the built item: feed and count as pushIncoming gives them |
| Notifications.NotificationsStore.ReadAllRemote | src/stores/notifications.store.ts:99-118 | success zeroes the count and stamps the feed; failure sets the error and keeps feed and count; on a failure the client's error interceptor runs first (a 401 removes the stored token and sets `href` to `/login` unless already there; any other error changes neither) |
| Notifications.NotificationsStore.PushIncoming | src/stores/notifications.store.ts:120-126 | the feed becomes the merge; the count rises by one exactly when the item is accepted and unread; the feed stays within 100 and keeps distinct ids |
| Echo.ToBool | src/echo.ts:8-13 | booleans as they are, numbers by being non-zero, strings by lower-cased membership in "1", "true", "yes", "on", anything else the fallback |
| Echo.ToBoolStringIgnoresCase | src/echo.ts:11 | a string's verdict ignores letter case and the fallback |
| Echo.ToBoolAcceptsAnyCase | src/echo.ts:11 | "TRUE" and "On" are true |
| Echo.ToBoolRejects | src/echo.ts:9-12 | "0", "off" and " yes" (not trimmed) are false; 0 is false, -1 true; null gives the fallback |
| Echo.KeyOf | src/echo.ts:16-26 | a missing or blank key gives none; otherwise the trimmed key |
| Echo.HostOf | src/echo.ts:17 | a missing or blank host gives "localhost", otherwise the trimmed host; never empty or padded |
| Echo.PortOf | src/echo.ts:18 | the configured port, else 6001 |
| Echo.StripTrailingSlash | src/echo.ts:21 | exactly one trailing slash is removed when there is one |
| Echo.ApiBaseOf | src/echo.ts:21 | no base gives "", otherwise the base without its trailing slash |
| Echo.AuthEndpoint | src/echo.ts:46 | both branches amount to base + "/broadcasting/auth" |
| Echo.EndpointJoinsWithOneSlash | src/echo.ts:21-46 | unless the base ends in "//", base and auth path meet with a single slash |
| Echo.AuthHeaders | src/echo.ts:34-35 | `Authorization: Bearer <token>` is present exactly when the token is non-empty (the same rule as the HTTP interceptor), and is the only header |
| Echo.BuildConfig | src/echo.ts:15-48 | none exactly when the key is missing or blank; otherwise a well-formed configuration built from key, host, port (for ws and wss), TLS flag, endpoint and headers |
| Echo.EchoRegistry.constructor | src/echo.ts:6 | no instance at first |
| Echo.EchoRegistry.InitEcho | src/echo.ts:15-70 | returns the built configuration; a built one becomes the instance, a missing key keeps the previous instance |
| Echo.EchoRegistry.GetEcho | src/echo.ts:72-74 | the instance returned was built from a non-blank key |
| Router.MetaFor | src/router/index.ts:9-20 | a path's flags are those of its route; a path without a route has none |
| Router.RouteTable | src/router/index.ts:12-18 | `/login` and `/register` are guest-only, `/` member-only, `/email-verified` neither |
| Router.Guard | src/router/index.ts:26-29 | member-only without a session redirects to `/login`; guest-only with a session to `/`; everything else is allowed |
| Router.NoRedirectLoop | src/router/index.ts:26-27 | a redirect always lands on a page the same session may see |
| Router.WhoSeesWhat | src/router/index.ts:12-29 | `/` is open exactly to members, `/login` and `/register` exactly to guests, `/email-verified` to both |
| Router.BeforeEach | src/router/index.ts:22-30 | the store is bootstrapped before the decision, which is the guard's on the resulting session |
| StatusBadge.StatusBadgeClass | src/utils/statusBadge.ts:3-6 | approved is the emerald badge, rejected rose, anything else (pending) amber, each in one colour throughout border, background and text |
| StatusBadge.StatusBadgeClassInjective | src/utils/statusBadge.ts:3-6 | the three statuses get three different badges |

## Left out

- HTTP traffic is not modelled. This covers axios, the base URL, default headers and the timeout
  (`src/api/http/client.ts:3-9`), and the other wrappers of `src/api/proposals/proposals.api.ts`.
  Each remote call is an outcome parameter. The `fetchLatest` query parameters only reach the
  server, so they do not appear.
- The success handler of the response interceptor, `(r) => r`, is the identity and has no member.
- The real-time transport is not modelled: client construction, `window.Pusher`, `window.Echo`,
  connection event binding (`src/echo.ts:60-67`) and `src/api/notifications/echo.ts` are out. A
  subscription appears only as `subscribedChannel` and the ghost log of leave and subscribe requests.
  The channel handler is the `ReceiveNotification` method.
- Concurrency is not modelled: every action runs to completion. The `refreshUnread()` that the push
  handler and `readAllRemote` start without awaiting is a later, separate `RefreshUnread` call.
  Interleavings such as the last-write-wins race of two `fetchLatest` calls are not modelled.
- Clocks and randomness (`Date`, `crypto.randomUUID`, `Date.now`) are parameters.
- Logging (`console.*`) has no effect on the modelled state.
- Numbers are integers, so NaN, fractions and `Number(...)` parsing are left out. `Echo.PortOf`
  takes the port already as an integer, and a user id is used as it is.
- `Echo.ToBool` lower-cases ASCII letters only. Non-ASCII case mappings of `toLowerCase` are not
  modelled. They cannot turn a string into one of the four accepted words.
- `ContentDisposition.LiteralAt` folds ASCII case only. That is exact for the `i` flag of a
  non-Unicode regex, which never maps a non-ASCII character to an ASCII one.
- `Router.MetaFor` compares paths exactly. The router library's case-insensitive matching, its
  optional trailing slash and query strings are not modelled.
- `Js.ToJsString` prints every plain object as "[object Object]". Custom `toString` methods are not
  modelled, and neither are symbols, functions or bigints.
- Storage exceptions, such as a quota error or disabled storage, are not modelled.
- Type-only files, the i18n setup and the page components have no behaviour.
- `fetchLatest` receives items that are already typed. The coercion of raw values is
  `NotificationsApi.List`, which keeps the elements as loosely typed values.
- Strings are sequences of Unicode code points, not UTF-16 code units. `Js.First` on a string
  and the lengths proved about `Uri.Decode` count a character outside the Basic Multilingual
  Plane as one, where JavaScript counts two.
- `Auth.RegisterPayloadOf` always sends provider "local". In the source, `{ provider: "local",
  ...payload }` lets a `provider` field of the payload win at runtime. `RegisterForm` has no such
  field, so the model does not capture that case.
- `Auth.AuthStore.Bootstrap`, `Auth.AuthStore.LoadCurrentUser` and `Auth.AuthStore.Logout` do not
  compose the error interceptor into their failure paths. The slot removal it makes on a 401 is
  the same as `clearAuth`'s, which both paths run anyway. The navigation to `/login` is not modelled
  there, so those methods have no `Location`.
