/**
 * Real-time client configuration (src/echo.ts): the environment settings are turned into
 * the options the Echo/Reverb client is built with, and the module keeps the last instance
 * it built.  The client object itself is reduced to the configuration it was built from.
 */
module Echo {
  import opened Wrappers
  import opened Js
  import opened Text
  import HttpClient
  import Auth

  const DefaultHost := "localhost"
  const DefaultPort := 6001
  const AuthPath := "/broadcasting/auth"
  const TruthyWords: seq<string> := ["1", "true", "yes", "on"]

  /** The build-time environment: the four Pusher settings and the API base URL. */
  datatype Env = Env(appKey: Option<string>, host: Option<string>, port: Option<int>, tls: Value, apiBase: Option<string>)

  /** The options a client is constructed with. */
  datatype EchoConfig = EchoConfig(
    broadcaster: string,
    key: string,
    wsHost: string,
    wsPort: int,
    wssPort: int,
    forceTLS: bool,
    enabledTransports: seq<string>,
    authEndpoint: string,
    headers: map<string, string>)

  /**
   * toBool: booleans as they are, numbers by being non-zero, strings by being one of
   * "1", "true", "yes", "on" after lower-casing (no trimming), anything else the fallback.
   */
  function ToBool(v: Value, fallback: bool): (r: bool)
    ensures v.Bool? ==> r == v.b
    ensures v.Num? ==> (r <==> v.n != 0)
    ensures v.Str? ==> (r <==> LowerAsciiString(v.s) in TruthyWords)
    ensures !(v.Bool? || v.Num? || v.Str?) ==> r == fallback
  {
    match v
    case Bool(b) => b
    case Num(n) => n != 0
    case Str(s) => LowerAsciiString(s) in TruthyWords
    case _ => fallback
  }

  lemma LowerAsciiIdempotent(s: string)
    ensures LowerAsciiString(LowerAsciiString(s)) == LowerAsciiString(s)
  {
  }

  /** A string's verdict does not depend on its letter case, nor on the fallback. */
  lemma ToBoolStringIgnoresCase(s: string, fallback: bool)
    ensures ToBool(Str(s), fallback) == ToBool(Str(LowerAsciiString(s)), false)
  {
    LowerAsciiIdempotent(s);
  }

  /** "TRUE" and "On" read as true whatever the fallback. */
  lemma ToBoolAcceptsAnyCase()
    ensures ToBool(Str("TRUE"), false) && ToBool(Str("On"), false)
  {
    assert LowerAsciiString("TRUE") == "true";
    assert LowerAsciiString("On") == "on";
  }

  /** "0", "off" and a padded " yes" read as false; numbers by being non-zero; null gives the fallback. */
  lemma ToBoolRejects()
    ensures !ToBool(Str("0"), true) && !ToBool(Str("off"), true) && !ToBool(Str(" yes"), true)
    ensures !ToBool(Num(0), true) && ToBool(Num(-1), false) && ToBool(Null, true)
  {
    assert LowerAsciiString("0") == "0";
    assert LowerAsciiString("off") == "off";
    assert LowerAsciiString(" yes") == " yes";
  }

  /** `env.key?.trim()`, when it is not empty. */
  function KeyOf(env: Env): (key: Option<string>)
    ensures key.None? <==> env.appKey.None? || Trim(env.appKey.value) == ""
    ensures key.Some? ==> key.value == Trim(env.appKey.value)
  {
    if env.appKey.Some? && Trim(env.appKey.value) != "" then Some(Trim(env.appKey.value)) else None
  }

  /** `env.host?.trim() || "localhost"`: never empty, never padded. */
  function HostOf(env: Env): (host: string)
    ensures env.host.None? || Trim(env.host.value) == "" ==> host == DefaultHost
    ensures env.host.Some? && Trim(env.host.value) != "" ==> host == Trim(env.host.value)
    ensures host != "" && !IsJsWhitespace(host[0]) && !IsJsWhitespace(host[|host| - 1])
  {
    if env.host.Some? && Trim(env.host.value) != "" then Trim(env.host.value) else DefaultHost
  }

  /** `Number(env.port ?? 6001)`, numbers being integers here. */
  function PortOf(env: Env): (port: int)
    ensures env.port.None? ==> port == DefaultPort
    ensures env.port.Some? ==> port == env.port.value
  {
    env.port.GetOr(DefaultPort)
  }

  /** `s.replace(/\/$/, "")`: one trailing slash, if any, is removed. */
  function StripTrailingSlash(s: string): (r: string)
    ensures s != [] && s[|s| - 1] == '/' ==> r + "/" == s
    ensures s == [] || s[|s| - 1] != '/' ==> r == s
  {
    if s != [] && s[|s| - 1] == '/' then s[..|s| - 1] else s
  }

  /** `env.apiBase?.replace(/\/$/, "") || ""` */
  function ApiBaseOf(env: Env): (base: string)
    ensures env.apiBase.None? ==> base == ""
    ensures env.apiBase.Some? ==> base == StripTrailingSlash(env.apiBase.value)
  {
    if env.apiBase.Some? then StripTrailingSlash(env.apiBase.value) else ""
  }

  /**
   * `apiBase ? apiBase + "/broadcasting/auth" : "/broadcasting/auth"`: both branches are the
   * concatenation, so the endpoint is always the base followed by the auth path.
   */
  function AuthEndpoint(apiBase: string): (endpoint: string)
    ensures endpoint == apiBase + AuthPath
  {
    if apiBase != "" then apiBase + AuthPath else AuthPath
  }

  /**
   * Unless the configured base ends in two slashes, the endpoint has a single slash where
   * the base and the auth path meet.
   */
  lemma EndpointJoinsWithOneSlash(raw: string)
    requires |raw| < 2 || raw[|raw| - 2..] != "//"
    ensures var base := StripTrailingSlash(raw);
            var endpoint := AuthEndpoint(base);
            endpoint[|base|..] == AuthPath && (base == "" || endpoint[|base| - 1] != '/')
  {
    var base := StripTrailingSlash(raw);
    if base != "" && raw[|raw| - 1] == '/' {
      assert base == raw[..|raw| - 1];
      assert raw[|raw| - 2..] == [raw[|raw| - 2], '/'];
    }
  }

  /** The channel-authorisation headers: `Authorization: Bearer <token>` exactly when a token is held. */
  function AuthHeaders(token: Option<string>): (headers: map<string, string>)
    ensures "Authorization" in headers <==> HttpClient.HasToken(token)
    ensures "Authorization" in headers ==> headers["Authorization"] == "Bearer " + token.value
    ensures headers.Keys <= {"Authorization"}
  {
    if HttpClient.HasToken(token) then map["Authorization" := "Bearer " + token.value] else map[]
  }

  /** What every built configuration satisfies. */
  predicate WellFormed(c: EchoConfig) {
    && c.key != "" && !IsJsWhitespace(c.key[0]) && !IsJsWhitespace(c.key[|c.key| - 1])
    && c.wsHost != ""
    && c.wsPort == c.wssPort
    && |c.authEndpoint| >= |AuthPath| && c.authEndpoint[|c.authEndpoint| - |AuthPath|..] == AuthPath
    && c.headers.Keys <= {"Authorization"}
  }

  /**
   * The configuration initEcho builds, or None when the key is missing or blank (no
   * client is created then).
   */
  function BuildConfig(env: Env, token: Option<string>): (r: Option<EchoConfig>)
    ensures r.None? <==> KeyOf(env).None?
    ensures r.Some? ==>
              && WellFormed(r.value)
              && r.value.broadcaster == "reverb"
              && r.value.key == KeyOf(env).value
              && r.value.wsHost == HostOf(env)
              && r.value.wsPort == PortOf(env)
              && r.value.forceTLS == ToBool(env.tls, false)
              && r.value.enabledTransports == ["ws", "wss"]
              && r.value.authEndpoint == ApiBaseOf(env) + AuthPath
              && r.value.headers == AuthHeaders(token)
  {
    match KeyOf(env)
    case None => None
    case Some(key) =>
      var endpoint := AuthEndpoint(ApiBaseOf(env));
      assert endpoint[|endpoint| - |AuthPath|..] == AuthPath;
      Some(EchoConfig("reverb", key, HostOf(env), PortOf(env), PortOf(env), ToBool(env.tls, false),
                      ["ws", "wss"], endpoint, AuthHeaders(token)))
  }

  /** The module-level `echoInstance`. */
  class EchoRegistry {
    var instance: Option<EchoConfig>

    predicate Valid()
      reads this
    {
      instance.Some? ==> WellFormed(instance.value)
    }

    constructor ()
      ensures instance.None? && Valid()
    {
      instance := None;
    }

    /**
     * initEcho: build from the environment and the auth store's token.  Without a key it
     * returns None and leaves the previously built instance in place.
     */
    method InitEcho(env: Env, auth: Auth.AuthStore) returns (r: Option<EchoConfig>)
      requires Valid()
      modifies this`instance
      ensures Valid()
      ensures r == BuildConfig(env, auth.token)
      ensures r.Some? ==> instance == r
      ensures r.None? ==> instance == old(instance)
    {
      var built := BuildConfig(env, auth.token);
      if built.None? {
        return None;
      }
      instance := built;
      return built;
    }

    /** getEcho: the last instance built, which came from a non-blank key. */
    function GetEcho(): (r: Option<EchoConfig>)
      reads this
      requires Valid()
      ensures r.Some? ==> WellFormed(r.value)
    {
      instance
    }
  }
}
