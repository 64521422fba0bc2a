/**
 * The auth session store (src/stores/auth.store.ts): the bearer token, the current user,
 * the e-mail verification flags, the one-shot bootstrap guard, a loading flag and the last
 * normalised error, with the token persisted in localStorage.
 *
 * Each remote call is an outcome parameter (the resolved response or the rejection); the
 * ghost `calls` log records which endpoints were called and with what payload.
 */
module Auth {
  import opened Wrappers
  import opened Js
  import opened ApiErrors
  import opened Browser
  import HttpClient

  /** The localStorage slot of the token, shared with the HTTP interceptors. */
  const TokenKey := HttpClient.TokenKey
  /** The only auth provider the client sends. */
  const LocalProvider := "local"

  datatype AuthUser = AuthUser(id: int, name: string, email: string, role: string)

  /** Response of the login and register endpoints. */
  datatype AuthTokenResponse =
    AuthTokenResponse(token: string, user: AuthUser, mustVerifyEmail: bool, emailVerified: bool)

  /** Response of the "who am I" endpoint. */
  datatype MeResponse = MeResponse(user: AuthUser, mustVerifyEmail: bool, emailVerified: bool)

  datatype LoginPayload = LoginPayload(provider: string, email: string, password: string)

  /** What the registration form supplies: a register payload without its provider. */
  datatype RegisterForm = RegisterForm(name: string, email: string, password: string, passwordConfirmation: string, role: string)

  datatype RegisterPayload =
    RegisterPayload(provider: string, name: string, email: string, password: string, passwordConfirmation: string, role: string)

  /** The remote calls the store makes, in order. */
  datatype RemoteCall =
    | MeCall
    | LoginCall(login: LoginPayload)
    | RegisterCall(register: RegisterPayload)
    | LogoutCall
    | ResendVerificationCall

  /** How many "who am I" calls a call log holds. */
  function MeCalls(calls: seq<RemoteCall>): nat {
    multiset(calls)[MeCall]
  }

  /** `{provider: "local", ...payload}` */
  function RegisterPayloadOf(form: RegisterForm): (p: RegisterPayload)
    ensures p.provider == LocalProvider
    ensures p.name == form.name && p.email == form.email && p.password == form.password
    ensures p.passwordConfirmation == form.passwordConfirmation && p.role == form.role
  {
    RegisterPayload(LocalProvider, form.name, form.email, form.password, form.passwordConfirmation, form.role)
  }

  class AuthStore {
    var token: Option<string>
    var user: Option<AuthUser>
    var mustVerifyEmail: bool
    var emailVerified: bool
    var bootstrapped: bool
    var loading: bool
    var lastError: Option<ApiError>
    const storage: LocalStorage
    ghost var calls: seq<RemoteCall>

    /** The bootstrap guard: "who am I" is called at most once, and never before bootstrapping starts. */
    ghost predicate Valid()
      reads this`calls, this`bootstrapped
    {
      MeCalls(calls) <= 1 && (!bootstrapped ==> MeCalls(calls) == 0)
    }

    /** The in-memory token is the persisted one. */
    ghost predicate Synced()
      reads this`token, storage
    {
      token == storage.GetItem(TokenKey)
    }

    /** The initial state: the token is read from storage, everything else is logged out. */
    constructor (storage: LocalStorage)
      ensures this.storage == storage
      ensures token == storage.GetItem(TokenKey) && user.None?
      ensures mustVerifyEmail && !emailVerified
      ensures !bootstrapped && !loading && lastError.None? && calls == []
      ensures Valid() && Synced()
    {
      this.storage := storage;
      token := storage.GetItem(TokenKey);
      user := None;
      mustVerifyEmail := true;
      emailVerified := false;
      bootstrapped := false;
      loading := false;
      lastError := None;
      calls := [];
    }

    /** `isLoggedIn`: a token is held and it is not the empty string (the interceptor's rule). */
    predicate IsLoggedIn()
      reads this
    {
      HttpClient.HasToken(token)
    }

    /** `needsEmailVerification` */
    predicate NeedsEmailVerification()
      reads this
    {
      mustVerifyEmail && !emailVerified
    }

    /** setAuth: adopt a login/register response and persist its token. */
    method SetAuth(p: AuthTokenResponse)
      modifies this`token, this`user, this`mustVerifyEmail, this`emailVerified, storage
      ensures token == Some(p.token) && user == Some(p.user)
      ensures mustVerifyEmail == p.mustVerifyEmail && emailVerified == p.emailVerified
      ensures storage.slots == old(storage.slots)[TokenKey := p.token]
      ensures bootstrapped == old(bootstrapped) && loading == old(loading)
      ensures lastError == old(lastError) && calls == old(calls)
      ensures IsLoggedIn() <==> p.token != ""
      ensures NeedsEmailVerification() <==> p.mustVerifyEmail && !p.emailVerified
      ensures Synced() && (old(Valid()) ==> Valid())
    {
      token := Some(p.token);
      user := Some(p.user);
      mustVerifyEmail := p.mustVerifyEmail;
      emailVerified := p.emailVerified;
      storage.SetItem(TokenKey, p.token);
    }

    /** clearAuth: forget the session and remove the persisted token. */
    method ClearAuth()
      modifies this`token, this`user, this`mustVerifyEmail, this`emailVerified, storage
      ensures token.None? && user.None? && mustVerifyEmail && !emailVerified
      ensures storage.slots == old(storage.slots) - {TokenKey}
      ensures bootstrapped == old(bootstrapped) && loading == old(loading)
      ensures lastError == old(lastError) && calls == old(calls)
      ensures Synced() && !IsLoggedIn() && NeedsEmailVerification() && (old(Valid()) ==> Valid())
    {
      token := None;
      user := None;
      mustVerifyEmail := true;
      emailVerified := false;
      storage.RemoveItem(TokenKey);
    }

    /**
     * bootstrap: runs at most once.  The guard is set before the remote call, so any later
     * call returns at once.  Without a token nothing else happens; with one, "who am I" is
     * called, and its success refreshes the user and the flags while any failure logs out.
     */
    method Bootstrap(me: Result<MeResponse, Value>)
      requires Valid()
      modifies this, storage
      ensures Valid() && bootstrapped && MeCalls(calls) <= 1
      ensures old(bootstrapped) ==> unchanged(this) && unchanged(storage)
      ensures !old(bootstrapped) && !old(IsLoggedIn()) ==>
                calls == old(calls) && unchanged(storage)
                && token == old(token) && user == old(user) && loading == old(loading)
                && mustVerifyEmail == old(mustVerifyEmail) && emailVerified == old(emailVerified)
                && lastError == old(lastError)
      ensures !old(bootstrapped) && old(IsLoggedIn()) ==>
                calls == old(calls) + [MeCall] && !loading && lastError == old(lastError)
      ensures !old(bootstrapped) && old(IsLoggedIn()) && me.Success? ==>
                token == old(token) && user == Some(me.value.user) && unchanged(storage)
                && mustVerifyEmail == me.value.mustVerifyEmail && emailVerified == me.value.emailVerified
      ensures !old(bootstrapped) && old(IsLoggedIn()) && me.Failure? ==>
                token.None? && user.None? && mustVerifyEmail && !emailVerified
                && storage.slots == old(storage.slots) - {TokenKey}
      ensures old(Synced()) ==> Synced()
    {
      if bootstrapped {
        return;
      }
      bootstrapped := true;
      if !IsLoggedIn() {
        return;
      }
      LoadCurrentUser(me);
    }

    /** The awaited part of bootstrap: the "who am I" call, what its answer does, and the `finally`. */
    method LoadCurrentUser(me: Result<MeResponse, Value>)
      requires Valid() && bootstrapped && MeCalls(calls) == 0
      modifies this, storage
      ensures Valid() && bootstrapped
      ensures calls == old(calls) + [MeCall] && !loading && lastError == old(lastError)
      ensures me.Success? ==>
                token == old(token) && user == Some(me.value.user) && unchanged(storage)
                && mustVerifyEmail == me.value.mustVerifyEmail && emailVerified == me.value.emailVerified
      ensures me.Failure? ==>
                token.None? && user.None? && mustVerifyEmail && !emailVerified
                && storage.slots == old(storage.slots) - {TokenKey}
      ensures old(Synced()) ==> Synced()
    {
      loading := true;
      calls := calls + [MeCall];
      match me {
        case Success(r) =>
          user := Some(r.user);
          mustVerifyEmail := r.mustVerifyEmail;
          emailVerified := r.emailVerified;
        case Failure(_) =>
          ClearAuth();
      }
      loading := false;
    }

    /** Logs a remote call other than "who am I"; the bootstrap guard is unaffected. */
    method Record(c: RemoteCall)
      requires Valid() && !c.MeCall?
      modifies this`calls
      ensures calls == old(calls) + [c] && Valid()
    {
      calls := calls + [c];
    }

    /**
     * The failure path shared by login, register and resendVerification.  Every call goes
     * through the HTTP client, so its error interceptor runs first (a 401 drops the stored
     * token and leaves for the login page); then the store records the normalised error and
     * rethrows it.
     */
    method Reject(e: Value, location: Location) returns (thrown: Option<ApiError>)
      modifies this`lastError, storage, location
      ensures thrown == Some(NormalizeApiError(e)) && lastError == thrown
      ensures HttpClient.IsUnauthorized(e) ==>
                storage.slots == old(storage.slots) - {TokenKey} && location.pathname == old(location.pathname)
                && location.href == (if old(location.pathname) == HttpClient.LoginPath then old(location.href) else HttpClient.LoginPath)
      ensures HttpClient.IsUnauthorized(e) && old(location.pathname) == HttpClient.LoginPath ==> unchanged(location)
      ensures !HttpClient.IsUnauthorized(e) ==> unchanged(storage) && unchanged(location)
    {
      var rejection := HttpClient.OnResponseError(e, storage, location);
      lastError := Some(NormalizeApiError(rejection));
      thrown := lastError;
    }

    /**
     * The awaited part shared by login and register: a resolved call is adopted as setAuth
     * does, a rejected one takes the failure path with the session fields untouched.
     */
    method Authenticate(outcome: Result<AuthTokenResponse, Value>, location: Location) returns (thrown: Option<ApiError>)
      modifies this`token, this`user, this`mustVerifyEmail, this`emailVerified, this`lastError, storage, location
      ensures outcome.Success? ==>
                thrown.None? && lastError == old(lastError) && unchanged(location)
                && token == Some(outcome.value.token) && user == Some(outcome.value.user)
                && mustVerifyEmail == outcome.value.mustVerifyEmail && emailVerified == outcome.value.emailVerified
                && storage.slots == old(storage.slots)[TokenKey := outcome.value.token] && Synced()
      ensures outcome.Failure? ==>
                thrown == Some(NormalizeApiError(outcome.error)) && lastError == thrown
                && token == old(token) && user == old(user)
                && mustVerifyEmail == old(mustVerifyEmail) && emailVerified == old(emailVerified)
      ensures outcome.Failure? && HttpClient.IsUnauthorized(outcome.error) ==>
                storage.slots == old(storage.slots) - {TokenKey}
                && location.href == (if old(location.pathname) == HttpClient.LoginPath then old(location.href) else HttpClient.LoginPath)
      ensures outcome.Failure? && !HttpClient.IsUnauthorized(outcome.error) ==> unchanged(storage) && unchanged(location)
      ensures old(Synced()) && !(outcome.Failure? && HttpClient.IsUnauthorized(outcome.error)) ==> Synced()
    {
      match outcome {
        case Success(r) =>
          SetAuth(r);
          thrown := None;
        case Failure(e) =>
          thrown := Reject(e, location);
      }
    }

    /**
     * login: sends provider "local".  Success adopts the response as setAuth does; failure
     * records the normalised error and rethrows it (returned here) with the session fields
     * untouched, after the HTTP client's interceptor has handled a 401.
     */
    method Login(email: string, password: string, outcome: Result<AuthTokenResponse, Value>, location: Location)
      returns (thrown: Option<ApiError>)
      requires Valid()
      modifies this`lastError, this`loading, this`calls, this`token, this`user, this`mustVerifyEmail, this`emailVerified
      modifies storage, location
      ensures calls == old(calls) + [LoginCall(LoginPayload(LocalProvider, email, password))]
      ensures !loading && bootstrapped == old(bootstrapped) && Valid()
      ensures outcome.Success? ==>
                thrown.None? && lastError.None? && unchanged(location)
                && token == Some(outcome.value.token) && user == Some(outcome.value.user)
                && mustVerifyEmail == outcome.value.mustVerifyEmail && emailVerified == outcome.value.emailVerified
                && storage.slots == old(storage.slots)[TokenKey := outcome.value.token] && Synced()
      ensures outcome.Failure? ==>
                thrown == Some(NormalizeApiError(outcome.error)) && lastError == thrown
                && token == old(token) && user == old(user)
                && mustVerifyEmail == old(mustVerifyEmail) && emailVerified == old(emailVerified)
      ensures outcome.Failure? && HttpClient.IsUnauthorized(outcome.error) ==>
                storage.slots == old(storage.slots) - {TokenKey}
                && location.href == (if old(location.pathname) == HttpClient.LoginPath then old(location.href) else HttpClient.LoginPath)
      ensures outcome.Failure? && !HttpClient.IsUnauthorized(outcome.error) ==> unchanged(storage) && unchanged(location)
      ensures old(Synced()) && !(outcome.Failure? && HttpClient.IsUnauthorized(outcome.error)) ==> Synced()
    {
      lastError := None;
      loading := true;
      var payload := LoginPayload(LocalProvider, email, password);
      Record(LoginCall(payload));
      thrown := Authenticate(outcome, location);
      loading := false;
    }

    /** register: as login, with the form extended by provider "local". */
    method Register(form: RegisterForm, outcome: Result<AuthTokenResponse, Value>, location: Location)
      returns (thrown: Option<ApiError>)
      requires Valid()
      modifies this`lastError, this`loading, this`calls, this`token, this`user, this`mustVerifyEmail, this`emailVerified
      modifies storage, location
      ensures calls == old(calls) + [RegisterCall(RegisterPayloadOf(form))]
      ensures !loading && bootstrapped == old(bootstrapped) && Valid()
      ensures outcome.Success? ==>
                thrown.None? && lastError.None? && unchanged(location)
                && token == Some(outcome.value.token) && user == Some(outcome.value.user)
                && mustVerifyEmail == outcome.value.mustVerifyEmail && emailVerified == outcome.value.emailVerified
                && storage.slots == old(storage.slots)[TokenKey := outcome.value.token] && Synced()
      ensures outcome.Failure? ==>
                thrown == Some(NormalizeApiError(outcome.error)) && lastError == thrown
                && token == old(token) && user == old(user)
                && mustVerifyEmail == old(mustVerifyEmail) && emailVerified == old(emailVerified)
      ensures outcome.Failure? && HttpClient.IsUnauthorized(outcome.error) ==>
                storage.slots == old(storage.slots) - {TokenKey}
                && location.href == (if old(location.pathname) == HttpClient.LoginPath then old(location.href) else HttpClient.LoginPath)
      ensures outcome.Failure? && !HttpClient.IsUnauthorized(outcome.error) ==> unchanged(storage) && unchanged(location)
      ensures old(Synced()) && !(outcome.Failure? && HttpClient.IsUnauthorized(outcome.error)) ==> Synced()
    {
      lastError := None;
      loading := true;
      var payload := RegisterPayloadOf(form);
      Record(RegisterCall(payload));
      thrown := Authenticate(outcome, location);
      loading := false;
    }

    /** resendVerification: only `lastError` changes, to the normalised error on failure (which is rethrown). */
    method ResendVerification(outcome: Result<Value, Value>, location: Location) returns (thrown: Option<ApiError>)
      requires Valid()
      modifies this`lastError, this`calls, storage, location
      ensures calls == old(calls) + [ResendVerificationCall] && Valid()
      ensures outcome.Success? ==> thrown.None? && lastError.None? && unchanged(storage) && unchanged(location)
      ensures outcome.Failure? ==> thrown == Some(NormalizeApiError(outcome.error)) && lastError == thrown
      ensures outcome.Failure? && HttpClient.IsUnauthorized(outcome.error) ==>
                storage.slots == old(storage.slots) - {TokenKey}
                && location.href == (if old(location.pathname) == HttpClient.LoginPath then old(location.href) else HttpClient.LoginPath)
      ensures outcome.Failure? && !HttpClient.IsUnauthorized(outcome.error) ==> unchanged(storage) && unchanged(location)
      ensures token == old(token) && user == old(user) && bootstrapped == old(bootstrapped) && loading == old(loading)
      ensures mustVerifyEmail == old(mustVerifyEmail) && emailVerified == old(emailVerified)
      ensures old(Synced()) && !(outcome.Failure? && HttpClient.IsUnauthorized(outcome.error)) ==> Synced()
      ensures outcome.Failure? && HttpClient.IsUnauthorized(outcome.error) && token.Some? ==> !Synced()
    {
      lastError := None;
      Record(ResendVerificationCall);
      if outcome.Failure? {
        thrown := Reject(outcome.error, location);
      } else {
        thrown := None;
      }
    }

    /**
     * logout: the remote endpoint is called only with a token; the session is cleared
     * whatever it answers.  A rejection of that call still propagates (try/finally), raw.
     */
    method Logout(outcome: Result<Value, Value>) returns (thrown: Option<Value>)
      requires Valid()
      modifies this, storage
      ensures old(IsLoggedIn()) ==> calls == old(calls) + [LogoutCall]
      ensures !old(IsLoggedIn()) ==> calls == old(calls) && thrown.None?
      ensures old(IsLoggedIn()) && outcome.Failure? ==> thrown == Some(outcome.error)
      ensures outcome.Success? ==> thrown.None?
      ensures token.None? && user.None? && mustVerifyEmail && !emailVerified && lastError.None?
      ensures storage.slots == old(storage.slots) - {TokenKey}
      ensures bootstrapped == old(bootstrapped) && loading == old(loading)
      ensures Valid() && Synced() && !IsLoggedIn() && NeedsEmailVerification()
    {
      lastError := None;
      thrown := None;
      if IsLoggedIn() {
          calls := calls + [LogoutCall];
        if outcome.Failure? {
          thrown := Some(outcome.error);
        }
      }
      ClearAuth();
    }
  }
}
