/**
 * The `eskiz:refresh-token` console command: a decision tree over the
 * provider row, the current token, the environment and the login outcome,
 * ending in an exit code and, on success, the token text it prints.
 */
module RefreshCommand {
  import opened Wrappers
  import opened PhpString
  import opened Registry
  import opened Tokens
  import TokenService
  import Http

  const Success := 0
  const Failure := 1

  /** What the command prints of a token: all of it, or its first 30 characters and "...". */
  function Display(value: string, showToken: bool): (shown: string)
    ensures showToken ==> shown == value
    ensures !showToken ==> StartsWith(shown, Prefix(value, 30)) && |shown| == |Prefix(value, 30)| + 3
    ensures !showToken ==> shown[|shown| - 3..] == "..."
    ensures !showToken && |value| > 30 ==> |shown| == 33
  {
    if showToken then value else Prefix(value, 30) + "..."
  }

  datatype Outcome = Outcome(exit: int, tokens: seq<Token>, refreshed: bool, shown: Option<string>)

  /** `handle` of the command. */
  function Handle(providers: seq<Provider>, current: Option<Token>, env: TokenService.Env, login: Http.Response,
                  ts: seq<Token>, now: int, force: bool, showToken: bool): (o: Outcome)
    ensures FirstNamed(providers, "eskiz").None? ==> o == Outcome(Failure, ts, false, None)
    ensures !force && current.Some? && IsValid(current.value, now) && FirstNamed(providers, "eskiz").Some? ==>
              o.exit == Success && !o.refreshed && o.tokens == ts
              && o.shown == (if showToken then Some(current.value.tokenValue) else None)
    ensures !(Php.Truthy(env.email) && Php.Truthy(env.password)) ==> !o.refreshed && o.tokens == ts
    ensures FirstNamed(providers, "eskiz").Some? && !(!force && current.Some? && IsValid(current.value, now))
            && !(Php.Truthy(env.email) && Php.Truthy(env.password)) ==>
              o == Outcome(Failure, ts, false, None)
    ensures FirstNamed(providers, "eskiz").Some? && Php.Truthy(env.email) && Php.Truthy(env.password)
            && (force || current.None? || !IsValid(current.value, now)) ==>
              o.refreshed
    ensures o.refreshed ==>
              var r := TokenService.RefreshEskizToken(FirstNamed(providers, "eskiz").value, env, login, ts, now);
              o.tokens == r.tokens
              && (o.exit == Success <==> r.token.Some?)
              && (r.token.Some? ==> o.shown == Some(Display(r.token.value.tokenValue, showToken)))
    ensures o.exit == Success || o.exit == Failure
    ensures o.tokens != ts ==> o.refreshed && o.exit == Success
  {
    var provider := FirstNamed(providers, "eskiz");
    if provider.None? then Outcome(Failure, ts, false, None)
    else if current.Some? && !force && IsValid(current.value, now) then
      Outcome(Success, ts, false, if showToken then Some(current.value.tokenValue) else None)
    else if !Php.Truthy(env.email) || !Php.Truthy(env.password) then Outcome(Failure, ts, false, None)
    else
      var r := TokenService.RefreshEskizToken(provider.value, env, login, ts, now);
      if r.token.None? then Outcome(Failure, r.tokens, true, None)
      else Outcome(Success, r.tokens, true, Some(Display(r.token.value.tokenValue, showToken)))
  }

  /** `--force` only ever adds a refresh: whenever the plain command refreshes, the forced one does the same. */
  lemma ForceAgrees(providers: seq<Provider>, current: Option<Token>, env: TokenService.Env, login: Http.Response,
                    ts: seq<Token>, now: int, showToken: bool)
    ensures var plain := Handle(providers, current, env, login, ts, now, false, showToken);
            var forced := Handle(providers, current, env, login, ts, now, true, showToken);
            && (plain.refreshed ==> forced == plain)
            && (FirstNamed(providers, "eskiz").Some? && Php.Truthy(env.email) && Php.Truthy(env.password) ==>
                  forced.refreshed)
  {
  }
}
