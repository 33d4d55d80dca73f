/**
 * The memoised credential resolver: the API token and the account ID, each
 * looked up once per run from the environment, then a fallback source, and
 * kept in a cache field afterwards.
 */
module Credentials {
  import opened Wrappers
  import opened GoStrings
  import opened Accounts

  const CfApiToken: string := "CF_API_TOKEN"
  const CloudflareApiToken: string := "CLOUDFLARE_API_TOKEN"
  const CfAccountId: string := "CF_ACCOUNT_ID"
  const CloudflareAccountId: string := "CLOUDFLARE_ACCOUNT_ID"

  const MissingToken: string :=
    "missing API token. set CF_API_TOKEN (or CLOUDFLARE_API_TOKEN), or login via Wrangler"
  const NoTokenField: string := "wrangler token output did not include token field"

  /** The process environment, as a map */
  type Env = map<string, string>

  /** os.Getenv: the value of the variable, "" when it is not set. */
  function Getenv(env: Env, name: string): string
  {
    if name in env then env[name] else ""
  }

  /**
   * strings.TrimSpace(os.Getenv(name)): the setting of a variable, "" when
   * it is unset or blank.
   */
  function Setting(env: Env, name: string): (r: string)
    ensures r == "" <==> AllSpace(Getenv(env, name))
    ensures r != "" ==> !IsSpace(r[0]) && !IsSpace(r[|r| - 1])
  {
    TrimSpace(Getenv(env, name))
  }

  /**
   * tokenFromWrangler after running `wrangler auth token --json` and decoding
   * its output: `parsed` is the text of a failure of either step, or the
   * decoded "token" field ("" when absent). A blank token is an error; any
   * other token is returned as it is, untrimmed.
   */
  function TokenFromWrangler(parsed: Result<string, string>): (r: Result<string, string>)
    ensures r.Success? <==> parsed.Success? && !AllSpace(parsed.value)
    ensures r.Success? ==> r.value == parsed.value
  {
    match parsed
    case Failure(err) => Failure(err)
    case Success(token) => if TrimSpace(token) == "" then Failure(NoTokenField) else Success(token)
  }

  /** What resolveAPIToken returns from the given cache, environment and Wrangler output. */
  function TokenResolution(cache: string, env: Env, wrangler: Result<string, string>): Result<string, string>
  {
    if cache != "" then Success(cache)
    else if Setting(env, CfApiToken) != "" then Success(Setting(env, CfApiToken))
    else if Setting(env, CloudflareApiToken) != "" then Success(Setting(env, CloudflareApiToken))
    else
      match TokenFromWrangler(wrangler)
      case Success(token) => if token != "" then Success(token) else Failure(MissingToken)
      case Failure(_) => Failure(MissingToken)
  }

  /** The cache after a resolution: the value on success, unchanged otherwise. */
  function CacheAfter(cache: string, r: Result<string, string>): string
  {
    if r.Success? then r.value else cache
  }

  /** An environment variable decides the account ID when it is set to something non-blank. */
  predicate AccountFromEnv(env: Env)
  {
    Setting(env, CfAccountId) != "" || Setting(env, CloudflareAccountId) != ""
  }

  /**
   * What resolveAccountID returns: the cache, then the two environment
   * variables, then the account the memberships request for the resolved
   * token names.
   */
  function AccountResolution(tokenCache: string, accountCache: string, env: Env,
                             wrangler: Result<string, string>,
                             fetch: string -> MembershipsResponse): Result<string, string>
  {
    if accountCache != "" then Success(accountCache)
    else if Setting(env, CfAccountId) != "" then Success(Setting(env, CfAccountId))
    else if Setting(env, CloudflareAccountId) != "" then Success(Setting(env, CloudflareAccountId))
    else
      match TokenResolution(tokenCache, env, wrangler)
      case Failure(err) => Failure(err)
      case Success(token) => Inference(fetch(token))
  }

  /** The token cache after resolveAccountID: touched only when it resolved the token. */
  function TokenCacheAfterAccount(tokenCache: string, accountCache: string, env: Env,
                                  wrangler: Result<string, string>): string
  {
    if accountCache != "" || AccountFromEnv(env) then tokenCache
    else CacheAfter(tokenCache, TokenResolution(tokenCache, env, wrangler))
  }

  /** The state of one run: the two package-level cache variables. */
  class Session {
    var cachedAPIToken: string
    var cachedAccountID: string

    /** A run starts with nothing cached. */
    constructor ()
      ensures cachedAPIToken == "" && cachedAccountID == ""
    {
      cachedAPIToken := "";
      cachedAccountID := "";
    }

    /** resolveAPIToken. */
    method ResolveAPIToken(env: Env, wrangler: Result<string, string>) returns (r: Result<string, string>)
      modifies this`cachedAPIToken
      ensures r == TokenResolution(old(cachedAPIToken), env, wrangler)
      ensures cachedAPIToken == CacheAfter(old(cachedAPIToken), r)
    {
      if cachedAPIToken != "" {
        return Success(cachedAPIToken);
      }
      var v := Setting(env, CfApiToken);
      if v != "" {
        cachedAPIToken := v;
        return Success(v);
      }
      v := Setting(env, CloudflareApiToken);
      if v != "" {
        cachedAPIToken := v;
        return Success(v);
      }
      var token := TokenFromWrangler(wrangler);
      if token.Success? && token.value != "" {
        cachedAPIToken := token.value;
        return Success(token.value);
      }
      return Failure(MissingToken);
    }

    /** resolveAccountID; fetch stands for the memberships request made with a token. */
    method ResolveAccountID(env: Env, wrangler: Result<string, string>, fetch: string -> MembershipsResponse)
      returns (r: Result<string, string>)
      modifies this
      ensures r == AccountResolution(old(cachedAPIToken), old(cachedAccountID), env, wrangler, fetch)
      ensures cachedAccountID == CacheAfter(old(cachedAccountID), r)
      ensures cachedAPIToken == TokenCacheAfterAccount(old(cachedAPIToken), old(cachedAccountID), env, wrangler)
    {
      if cachedAccountID != "" {
        return Success(cachedAccountID);
      }
      var v := Setting(env, CfAccountId);
      if v != "" {
        cachedAccountID := v;
        return Success(v);
      }
      v := Setting(env, CloudflareAccountId);
      if v != "" {
        cachedAccountID := v;
        return Success(v);
      }
      var token := ResolveAPIToken(env, wrangler);
      if token.Failure? {
        return Failure(token.error);
      }
      var accountID := InferAccountID(fetch(token.value));
      if accountID.Failure? {
        return Failure(accountID.error);
      }
      cachedAccountID := accountID.value;
      return Success(accountID.value);
    }
  }

  /** A cached token is returned as it is, and no source is consulted. */
  lemma TokenCacheHit(cache: string, env: Env, wrangler: Result<string, string>)
    requires cache != ""
    ensures TokenResolution(cache, env, wrangler) == Success(cache)
  {
  }

  /**
   * With nothing cached: a non-blank CF_API_TOKEN wins (trimmed), then a
   * non-blank CLOUDFLARE_API_TOKEN (trimmed), then a non-blank Wrangler token
   * (untrimmed); with none of them the result is the "missing API token" error.
   */
  lemma TokenPrecedence(env: Env, wrangler: Result<string, string>)
    ensures !AllSpace(Getenv(env, CfApiToken)) ==>
      TokenResolution("", env, wrangler) == Success(Setting(env, CfApiToken))
    ensures AllSpace(Getenv(env, CfApiToken)) && !AllSpace(Getenv(env, CloudflareApiToken)) ==>
      TokenResolution("", env, wrangler) == Success(Setting(env, CloudflareApiToken))
    ensures AllSpace(Getenv(env, CfApiToken)) && AllSpace(Getenv(env, CloudflareApiToken)) ==>
      TokenResolution("", env, wrangler) ==
        if wrangler.Success? && !AllSpace(wrangler.value) then Success(wrangler.value) else Failure(MissingToken)
  {
  }

  /** Every token the resolver hands out has a non-space character, so it is never "". */
  lemma TokenNonBlank(cache: string, env: Env, wrangler: Result<string, string>)
    requires cache == "" || !AllSpace(cache)
    ensures var r := TokenResolution(cache, env, wrangler); r.Success? ==> !AllSpace(r.value)
  {
    var r := TokenResolution(cache, env, wrangler);
    if cache == "" && r.Success? {
      var v := Setting(env, CfApiToken);
      var u := Setting(env, CloudflareApiToken);
      if v != "" {
        assert r.value == v && !IsSpace(v[0]);
      } else if u != "" {
        assert r.value == u && !IsSpace(u[0]);
      } else {
        assert r == TokenFromWrangler(wrangler);
      }
    }
  }

  /**
   * Once a token is resolved, the next resolution returns the same token
   * whatever the environment and Wrangler say then; a failure leaves the cache empty.
   */
  lemma TokenMemoized(cache: string, env: Env, wrangler: Result<string, string>,
                      env': Env, wrangler': Result<string, string>)
    ensures var r := TokenResolution(cache, env, wrangler);
      && (r.Success? ==> TokenResolution(CacheAfter(cache, r), env', wrangler') == r)
      && (r.Failure? ==> CacheAfter(cache, r) == "" && r.error == MissingToken)
  {
    var r := TokenResolution(cache, env, wrangler);
    if r.Success? && cache == "" {
      TokenNonBlank(cache, env, wrangler);
    }
  }

  /** Wrangler is consulted only when both token variables are blank. */
  lemma WranglerOnlyAsFallback(cache: string, env: Env, w1: Result<string, string>, w2: Result<string, string>)
    requires cache != "" || !AllSpace(Getenv(env, CfApiToken)) || !AllSpace(Getenv(env, CloudflareApiToken))
    ensures TokenResolution(cache, env, w1) == TokenResolution(cache, env, w2)
  {
  }

  /** An environment token is trimmed; a Wrangler token is kept as it is. */
  lemma TrimmedOnlyFromEnv()
    ensures TokenResolution("", map[CfApiToken := " tok "], Failure("")) == Success("tok")
    ensures TokenResolution("", map[], Success(" tok ")) == Success(" tok ")
  {
    var env := map[CfApiToken := " tok "];
    assert Getenv(env, CfApiToken) == " tok ";
    assert !AllSpace(" tok ") by { assert !IsSpace(" tok "[1]); }
    assert Setting(env, CfApiToken) == "tok" by {
      assert " tok " == " " + "tok" + " ";
      TrimSpaceOf(" ", "tok", " ");
    }
    TokenPrecedence(env, Failure(""));
    assert Getenv(map[], CfApiToken) == "" && Getenv(map[], CloudflareApiToken) == "";
    TokenPrecedence(map[], Success(" tok "));
  }

  /** A first run with no token variables and a Wrangler login gets the Wrangler token. */
  lemma WranglerLoginScenario()
    ensures TokenResolution("", map[], Success("tok-123")) == Success("tok-123")
  {
    assert !AllSpace("tok-123") by { assert !IsSpace("tok-123"[0]); }
  }

  /** A cached account ID is returned as it is, and no source is consulted. */
  lemma AccountCacheHit(tc: string, ac: string, env: Env, w: Result<string, string>, fetch: string -> MembershipsResponse)
    requires ac != ""
    ensures AccountResolution(tc, ac, env, w, fetch) == Success(ac)
  {
  }

  /**
   * With nothing cached, a non-blank CF_ACCOUNT_ID wins, then a non-blank
   * CLOUDFLARE_ACCOUNT_ID, both trimmed.
   */
  lemma AccountPrecedence(tc: string, env: Env, w: Result<string, string>, fetch: string -> MembershipsResponse)
    ensures !AllSpace(Getenv(env, CfAccountId)) ==>
      AccountResolution(tc, "", env, w, fetch) == Success(Setting(env, CfAccountId))
    ensures AllSpace(Getenv(env, CfAccountId)) && !AllSpace(Getenv(env, CloudflareAccountId)) ==>
      AccountResolution(tc, "", env, w, fetch) == Success(Setting(env, CloudflareAccountId))
  {
  }

  /**
   * Token resolution and inference are reached only when both account
   * variables are blank: otherwise neither the token sources nor the
   * memberships request matter, and the token cache is left alone.
   */
  lemma InferenceOnlyAsFallback(tc: string, tc': string, env: Env,
                                w: Result<string, string>, w': Result<string, string>,
                                fetch: string -> MembershipsResponse, fetch': string -> MembershipsResponse)
    requires AccountFromEnv(env)
    ensures AccountResolution(tc, "", env, w, fetch) == AccountResolution(tc', "", env, w', fetch')
    ensures TokenCacheAfterAccount(tc, "", env, w) == tc
  {
  }

  /**
   * With both account variables blank, a token error is passed on, and
   * otherwise the answer is the inference from the memberships request made
   * with the resolved token; an error leaves the account cache empty.
   */
  lemma AccountFromInference(tc: string, env: Env, w: Result<string, string>, fetch: string -> MembershipsResponse)
    requires !AccountFromEnv(env)
    ensures var t := TokenResolution(tc, env, w);
      var r := AccountResolution(tc, "", env, w, fetch);
      && (t.Failure? ==> r == Failure(MissingToken))
      && (t.Success? ==> r == Inference(fetch(t.value)))
      && (r.Failure? ==> CacheAfter("", r) == "")
  {
    TokenMemoized(tc, env, w, map[], w);
  }

  /** A resolved non-empty account ID is returned again by later calls, sources notwithstanding. */
  lemma AccountMemoized(tc: string, ac: string, env: Env, w: Result<string, string>, fetch: string -> MembershipsResponse,
                        tc': string, env': Env, w': Result<string, string>, fetch': string -> MembershipsResponse)
    ensures var r := AccountResolution(tc, ac, env, w, fetch);
      r.Success? && r.value != "" ==> AccountResolution(tc', CacheAfter(ac, r), env', w', fetch') == r
  {
  }

  /** A token whose memberships request succeeds naming exactly one account resolves to that account. */
  lemma SingleMembershipScenario(tc: string, env: Env, w: Result<string, string>,
                                 fetch: string -> MembershipsResponse, m: Membership)
    requires !AccountFromEnv(env) && TokenResolution(tc, env, w).Success?
    requires var resp := fetch(TokenResolution(tc, env, w).value);
      resp.Response? && resp.status < 400 && resp.success && resp.result == [m]
    ensures AccountResolution(tc, "", env, w, fetch) == Success(m.id)
  {
    var t := TokenResolution(tc, env, w);
    assert Selection([m]) == Success(m.id);
    assert Inference(fetch(t.value)) == Success(m.id);
    AccountFromInference(tc, env, w, fetch);
    assert AccountResolution(tc, "", env, w, fetch) == Inference(fetch(t.value));
  }

  /**
   * Two calls in one run: the second returns what the first resolved,
   * even when the environment and Wrangler have changed in between.
   */
  method ResolveTokenTwice(env1: Env, w1: Result<string, string>, env2: Env, w2: Result<string, string>)
    returns (first: Result<string, string>, second: Result<string, string>)
    ensures first == TokenResolution("", env1, w1)
    ensures first.Success? ==> second == first
    ensures first.Failure? ==> second == TokenResolution("", env2, w2)
  {
    var session := new Session();
    first := session.ResolveAPIToken(env1, w1);
    TokenMemoized("", env1, w1, env2, w2);
    second := session.ResolveAPIToken(env2, w2);
  }
}
