/**
 * The token lifecycle for Eskiz: getting a token, deciding when it needs
 * renewal, authenticating for a new one and retiring old ones. The token
 * table is a sequence of rows; `now` is a parameter. The login call to
 * Eskiz is an input (`login`), as are the ESKIZ_EMAIL and ESKIZ_PASSWORD
 * environment values.
 *
 * The provider's current access token is an input too (`current`): the
 * provider model defines no `accessToken` relation, so what the service
 * reads there is outside what the source shows.
 */
module TokenService {
  import opened Wrappers
  import opened Php
  import opened Http
  import opened PhpString
  import opened Registry
  import opened Tokens
  import Seqs

  /** `env('ESKIZ_EMAIL')` and `env('ESKIZ_PASSWORD')`; Null when unset. */
  datatype Env = Env(email: Value, password: Value)

  const Lifetime := 30 * DAY
  const RefreshWindow := 2 * DAY

  /** The id the table assigns to a new row: above every id in use. */
  function NextId(ts: seq<Token>): (id: int)
    ensures forall i :: 0 <= i < |ts| ==> ts[i].id < id
  {
    if |ts| == 0 then 1
    else
      var rest := NextId(ts[1..]);
      if ts[0].id >= rest then ts[0].id + 1 else rest
  }

  predicate Superseded(t: Token, providerId: int, keep: int) {
    t.providerId == providerId && t.tokenType == "access" && t.id != keep
  }

  /** Deactivates the provider's access tokens other than `keep`; nothing is deleted. */
  function DeactivateOthers(ts: seq<Token>, providerId: int, keep: int): (r: seq<Token>)
    ensures |r| == |ts|
    ensures forall i :: 0 <= i < |ts| ==> r[i] == ts[i].(isActive := r[i].isActive)
    ensures forall i :: 0 <= i < |ts| && Superseded(ts[i], providerId, keep) ==> !r[i].isActive
    ensures forall i :: 0 <= i < |ts| && !Superseded(ts[i], providerId, keep) ==> r[i] == ts[i]
  {
    seq(|ts|, i requires 0 <= i < |ts| =>
      if Superseded(ts[i], providerId, keep) then ts[i].(isActive := false) else ts[i])
  }

  /** `data.token` of the login answer. */
  function LoginToken(login: Response): Value {
    Get(Get(Body(login), "data"), "token")
  }

  datatype Refreshed = Refreshed(token: Option<Token>, tokens: seq<Token>)

  /**
   * `refreshEskizToken`: with both credentials set and a 2xx login carrying a
   * token, stores a fresh active access token good for 30 days and
   * deactivates the provider's other access tokens; otherwise returns no
   * token and leaves the table as it was.
   */
  function RefreshEskizToken(provider: Provider, env: Env, login: Response, ts: seq<Token>, now: int): (r: Refreshed)
    ensures r.token.None? <==>
              !Truthy(env.email) || !Truthy(env.password) || !Successful(login) || !Truthy(LoginToken(login))
    ensures r.token.None? ==> r.tokens == ts
    ensures r.token.Some? ==>
              var t := r.token.value;
              && t.providerId == provider.id
              && t.tokenType == "access"
              && t.tokenValue == ToText(LoginToken(login))
              && t.expiresAt == Some(now + Lifetime)
              && t.isActive
              && (forall i :: 0 <= i < |ts| ==> ts[i].id != t.id)
              && |r.tokens| == |ts| + 1
              && r.tokens[|ts|] == t
  {
    if !Truthy(env.email) || !Truthy(env.password) then Refreshed(None, ts)
    else if !Successful(login) then Refreshed(None, ts)
    else
      var token := LoginToken(login);
      if !Truthy(token) then Refreshed(None, ts)
      else
        var metadata := Array([(StrKey("email"), env.email), (StrKey("authenticated_at"), Int(now))]);
        var t := Token(NextId(ts), provider.id, "access", ToText(token), Some(now + Lifetime), true, metadata);
        Refreshed(Some(t), DeactivateOthers(ts, provider.id, t.id) + [t])
  }

  /**
   * After a successful refresh the new token is the provider's only active
   * access token; other providers' tokens and other token types are as they
   * were, and no row is removed.
   */
  lemma RefreshSupersedes(provider: Provider, env: Env, login: Response, ts: seq<Token>, now: int)
    ensures var r := RefreshEskizToken(provider, env, login, ts, now);
            r.token.Some? ==>
              && (forall u :: u in r.tokens && u.providerId == provider.id && u.tokenType == "access" && u.isActive
                    ==> u == r.token.value)
              && (forall i :: 0 <= i < |ts| && (ts[i].providerId != provider.id || ts[i].tokenType != "access")
                    ==> r.tokens[i] == ts[i])
              && (forall i :: 0 <= i < |ts| ==> r.tokens[i] == ts[i].(isActive := r.tokens[i].isActive))
  {
    var r := RefreshEskizToken(provider, env, login, ts, now);
    if r.token.Some? {
      var t := r.token.value;
      forall i | 0 <= i < |ts| && ts[i].providerId == provider.id && ts[i].tokenType == "access"
        ensures !r.tokens[i].isActive
      {
        assert Superseded(ts[i], provider.id, t.id);
      }
      forall u | u in r.tokens && u.providerId == provider.id && u.tokenType == "access" && u.isActive
        ensures u == t
      {
        var i :| 0 <= i < |r.tokens| && r.tokens[i] == u;
      }
    }
  }

  /** Two successful refreshes in a row leave exactly one active access token: the second. */
  lemma RefreshTwice(provider: Provider, env: Env, login1: Response, login2: Response,
                     ts: seq<Token>, now1: int, now2: int)
    requires RefreshEskizToken(provider, env, login1, ts, now1).token.Some?
    requires RefreshEskizToken(provider, env, login2, RefreshEskizToken(provider, env, login1, ts, now1).tokens, now2).token.Some?
    ensures var first := RefreshEskizToken(provider, env, login1, ts, now1);
            var second := RefreshEskizToken(provider, env, login2, first.tokens, now2);
            && second.tokens[|ts|] == first.token.value.(isActive := false)
            && forall u :: u in second.tokens && u.providerId == provider.id && u.tokenType == "access" && u.isActive
                 ==> u == second.token.value
  {
    var first := RefreshEskizToken(provider, env, login1, ts, now1);
    RefreshSupersedes(provider, env, login2, first.tokens, now2);
    var second := RefreshEskizToken(provider, env, login2, first.tokens, now2);
    assert second.tokens[|ts|] == first.token.value.(isActive := second.tokens[|ts|].isActive);
    assert Superseded(first.tokens[|ts|], provider.id, second.token.value.id);
  }

  /** Eskiz's `message` as text, or 'Unknown error' when the body carries none. */
  function LoginMessage(login: Response): string {
    ToText(Coalesce(Get(Body(login), "message"), Str("Unknown error")))
  }

  /** The phrase of Eskiz's answer to a wrong email or password. */
  const WrongCredentials: string := "Неверный Email или пароль"

  /** The phrase of Eskiz's answer to an account without the SMS role. */
  const RoleNotFound: string := "role not found"

  /** Logged in place of Eskiz's message for wrong credentials. */
  const CredentialsHint: string := "Invalid Eskiz credentials. Please check your email and password in .env file."

  /** Logged in place of Eskiz's message for a missing SMS role. */
  const PermissionsHint: string :=
    "Account does not have SMS sending permissions. Please contact Eskiz support to activate SMS functionality."

  /**
   * What is logged for a 401 login answer carrying `message`: the two known
   * causes are replaced by an explanation, wrong credentials first; any
   * other message is kept.
   */
  function Explain401(message: string): (m: string)
    ensures Contains(message, WrongCredentials) ==> m == CredentialsHint
    ensures !Contains(message, WrongCredentials) && Contains(message, RoleNotFound) ==> m == PermissionsHint
    ensures !Contains(message, WrongCredentials) && !Contains(message, RoleNotFound) ==> m == message
  {
    if Contains(message, WrongCredentials) then CredentialsHint
    else if Contains(message, RoleNotFound) then PermissionsHint
    else message
  }

  /**
   * The message logged for a failed login: Eskiz's own message (or
   * 'Unknown error'), explained for a 401. It only reaches the log.
   */
  function LoginErrorMessage(login: Response): (m: string)
    ensures login.Response? && login.code == 401 ==> m == Explain401(LoginMessage(login))
    ensures !(login.Response? && login.code == 401) ==> m == LoginMessage(login)
  {
    var message := LoginMessage(login);
    if login.Response? && login.code == 401 then Explain401(message) else message
  }

  /**
   * `getEskizToken`: nothing without an eskiz provider; the current token
   * when it is valid; otherwise a refresh.
   */
  function GetEskizToken(providers: seq<Provider>, current: Option<Token>, env: Env, login: Response,
                         ts: seq<Token>, now: int): (r: Refreshed)
    ensures FirstNamed(providers, "eskiz").None? ==> r == Refreshed(None, ts)
    ensures FirstNamed(providers, "eskiz").Some? && current.Some? && IsValid(current.value, now) ==>
              r == Refreshed(current, ts)
    ensures FirstNamed(providers, "eskiz").Some? && !(current.Some? && IsValid(current.value, now)) ==>
              r == RefreshEskizToken(FirstNamed(providers, "eskiz").value, env, login, ts, now)
  {
    var provider := FirstNamed(providers, "eskiz");
    if provider.None? then Refreshed(None, ts)
    else if current.Some? && IsValid(current.value, now) then Refreshed(current, ts)
    else RefreshEskizToken(provider.value, env, login, ts, now)
  }

  /** Whatever `getEskizToken` hands out is valid at `now`, and it adds at most one row. */
  lemma GetEskizTokenIsValid(providers: seq<Provider>, current: Option<Token>, env: Env, login: Response,
                             ts: seq<Token>, now: int)
    ensures var r := GetEskizToken(providers, current, env, login, ts, now);
            && (r.token.Some? ==> IsValid(r.token.value, now))
            && (|r.tokens| == |ts| || |r.tokens| == |ts| + 1)
            && (r.tokens == ts <==> r.token.None? || r.token == current)
  {
    var r := GetEskizToken(providers, current, env, login, ts, now);
    if r.token.Some? && r.token != current {
      assert |r.tokens| == |ts| + 1;
    }
  }

  /** `eskizTokenNeedsRefresh` */
  function NeedsRefresh(providers: seq<Provider>, current: Option<Token>, now: int): (b: bool)
    ensures FirstNamed(providers, "eskiz").None? ==> !b
    ensures FirstNamed(providers, "eskiz").Some? && current.None? ==> b
    ensures FirstNamed(providers, "eskiz").Some? && current.Some? ==>
              (b <==> IsExpired(current.value, now)
                      || (current.value.expiresAt.Some? && current.value.expiresAt.value < now + RefreshWindow))
  {
    if FirstNamed(providers, "eskiz").None? then false
    else if current.None? then true
    else
      var t := current.value;
      IsExpired(t, now) || (t.expiresAt.Some? && t.expiresAt.value < now + RefreshWindow)
  }

  /**
   * The expired test is subsumed by the two-day window: a token needs
   * renewal exactly when its expiry falls before `now` plus two days, and a
   * token without expiry never does.
   */
  lemma NeedsRefreshWindow(providers: seq<Provider>, t: Token, now: int)
    requires FirstNamed(providers, "eskiz").Some?
    ensures NeedsRefresh(providers, Some(t), now) <==> t.expiresAt.Some? && t.expiresAt.value < now + RefreshWindow
    ensures t.expiresAt.None? ==> !NeedsRefresh(providers, Some(t), now)
  {
  }

  /**
   * A current token that is active and outside the renewal window is what
   * `getEskizToken` returns, without authenticating again.
   */
  lemma NoRefreshKeepsToken(providers: seq<Provider>, t: Token, env: Env, login: Response,
                            ts: seq<Token>, now: int)
    requires FirstNamed(providers, "eskiz").Some?
    requires t.isActive && !NeedsRefresh(providers, Some(t), now)
    ensures GetEskizToken(providers, Some(t), env, login, ts, now) == Refreshed(Some(t), ts)
  {
  }

  datatype NeedInfo = NeedInfo(provider: string, providerId: Option<int>, reason: string)

  /** `getTokensNeedingRefresh`: an eskiz entry exactly when its token needs renewal. */
  function GetTokensNeedingRefresh(providers: seq<Provider>, current: Option<Token>, now: int): (r: seq<NeedInfo>)
    ensures |r| <= 1
    ensures |r| == 1 <==> NeedsRefresh(providers, current, now)
    ensures |r| == 1 ==> r[0] == NeedInfo("eskiz", Some(FirstNamed(providers, "eskiz").value.id), "expiring_soon_or_expired")
  {
    if NeedsRefresh(providers, current, now) then
      [NeedInfo("eskiz", Some(FirstNamed(providers, "eskiz").value.id), "expiring_soon_or_expired")]
    else []
  }

  function Outcome(token: Option<Token>): Value {
    if token.Some? then Str("success") else Str("failed")
  }

  /** The per-entry loop of `refreshTokensNeedingRefresh`. */
  function RefreshEach(infos: seq<NeedInfo>, providers: seq<Provider>, env: Env, login: Response,
                       results: seq<(Key, Value)>, ts: seq<Token>, now: int): (r: (seq<(Key, Value)>, seq<Token>))
    decreases |infos|
  {
    if |infos| == 0 then (results, ts)
    else
      var info := infos[0];
      var provider := if info.providerId.Some? then FindById(providers, info.providerId.value) else None;
      if provider.None? then
        var failure := Array([(StrKey("status"), Str("failed")), (StrKey("error"), Str("Provider not found"))]);
        RefreshEach(infos[1..], providers, env, login, Put(results, StrKey(info.provider), failure), ts, now)
      else if info.provider == "eskiz" then
        var refreshed := RefreshEskizToken(provider.value, env, login, ts, now);
        RefreshEach(infos[1..], providers, env, login, Put(results, StrKey("eskiz"), Outcome(refreshed.token)),
                    refreshed.tokens, now)
      else
        var skipped := Array([(StrKey("status"), Str("skipped")), (StrKey("error"), Str("No refresh logic implemented"))]);
        RefreshEach(infos[1..], providers, env, login, Put(results, StrKey(info.provider), skipped), ts, now)
  }

  /**
   * `refreshTokensNeedingRefresh`: refreshes only when the eskiz token needs
   * it, and reports 'success' exactly when a token came back.
   */
  function RefreshTokensNeedingRefresh(providers: seq<Provider>, current: Option<Token>, env: Env,
                                       login: Response, ts: seq<Token>, now: int): (r: (Value, seq<Token>))
    ensures !NeedsRefresh(providers, current, now) ==> r == (Array([]), ts)
    ensures NeedsRefresh(providers, current, now) ==>
              var refreshed := RefreshEskizToken(FirstNamed(providers, "eskiz").value, env, login, ts, now);
              && r.1 == refreshed.tokens
              && Get(r.0, "eskiz") == Str(if refreshed.token.Some? then "success" else "failed")
              && |r.0.entries| == 1
  {
    var infos := GetTokensNeedingRefresh(providers, current, now);
    var (results, tokens) := RefreshEach(infos, providers, env, login, [], ts, now);
    if |infos| == 1 then
      var p := FirstNamed(providers, "eskiz").value;
      var found := FindById(providers, p.id);
      assert found.Some? && found.value.id == p.id;
      var refreshed := RefreshEskizToken(found.value, env, login, ts, now);
      assert refreshed == RefreshEskizToken(p, env, login, ts, now);
      assert RefreshEach(infos[1..], providers, env, login, Put([], StrKey("eskiz"), Outcome(refreshed.token)),
                         refreshed.tokens, now)
             == (Put([], StrKey("eskiz"), Outcome(refreshed.token)), refreshed.tokens);
      LookupFirst(Put([], StrKey("eskiz"), Outcome(refreshed.token)), 0);
      (Array(results), tokens)
    else (Array(results), tokens)
  }

  /**
   * `refreshAllTokens`: refreshes unconditionally. Without an eskiz provider
   * the source passes null where a provider is required and the call raises
   * a TypeError, modelled as None.
   */
  function RefreshAllTokens(providers: seq<Provider>, env: Env, login: Response, ts: seq<Token>, now: int)
    : (r: Option<(Value, seq<Token>)>)
    ensures r.None? <==> FirstNamed(providers, "eskiz").None?
    ensures r.Some? ==>
              var refreshed := RefreshEskizToken(FirstNamed(providers, "eskiz").value, env, login, ts, now);
              && r.value.1 == refreshed.tokens
              && r.value.0 == Array([(StrKey("eskiz"), Outcome(refreshed.token))])
  {
    var provider := FirstNamed(providers, "eskiz");
    if provider.None? then None
    else
      var refreshed := RefreshEskizToken(provider.value, env, login, ts, now);
      Some((Array([(StrKey("eskiz"), Outcome(refreshed.token))]), refreshed.tokens))
  }

  /** `cleanupExpiredTokens`: deactivates every expired token, counting the rows it matched. */
  function CleanupExpiredTokens(ts: seq<Token>, now: int): (r: (nat, seq<Token>))
    ensures |r.1| == |ts|
    ensures forall i :: 0 <= i < |ts| ==> r.1[i] == ts[i].(isActive := r.1[i].isActive)
    ensures forall i :: 0 <= i < |ts| ==> (r.1[i].isActive <==> ts[i].isActive && !IsExpired(ts[i], now))
    ensures r.0 == |Seqs.Filter(ts, (t: Token) => IsExpired(t, now))|
  {
    var swept := seq(|ts|, i requires 0 <= i < |ts| =>
      if IsExpired(ts[i], now) then ts[i].(isActive := false) else ts[i]);
    (|Seqs.Filter(ts, (t: Token) => IsExpired(t, now))|, swept)
  }

  /**
   * Cleanup is idempotent on the table, leaves no expired token active, and
   * keeps every token that was valid valid.
   */
  lemma CleanupIdempotent(ts: seq<Token>, now: int)
    ensures var once := CleanupExpiredTokens(ts, now).1;
            && CleanupExpiredTokens(once, now).1 == once
            && (forall t :: t in once && IsExpired(t, now) ==> !t.isActive)
            && (forall i :: 0 <= i < |ts| && IsValid(ts[i], now) ==> once[i] == ts[i])
  {
    var once := CleanupExpiredTokens(ts, now).1;
    var twice := CleanupExpiredTokens(once, now).1;
    assert forall i :: 0 <= i < |once| ==> twice[i] == once[i];
  }
}
