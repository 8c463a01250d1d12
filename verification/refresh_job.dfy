/**
 * The periodic token job: for every enabled provider, decide whether any of
 * its active tokens is due, run the provider's renewal handler, record a
 * per-provider report, and sweep expired tokens once at the end.
 *
 * Inputs beyond the token table: the Eskiz inputs of the token service,
 * `thrown` (the providers whose processing raises an exception, with its
 * message) and, for the corrected job, `playMobileToken` (whether a
 * PlayMobile token handler would return a token).
 */
module RefreshJob {
  import opened Wrappers
  import opened Php
  import opened Registry
  import opened Tokens
  import TokenService
  import Http
  import Seqs

  datatype Report =
    | NoRefreshNeeded(providerId: int, providerName: string)
    | Attempted(providerId: int, providerName: string, status: string, tokensRefreshed: int, tokensFailed: int)
    | Raised(error: string)

  /** Everything the job reads besides the token table and the providers. */
  datatype Inputs = Inputs(current: Option<Token>, env: TokenService.Env, login: Http.Response,
                           thrown: map<int, string>, playMobileToken: bool)

  datatype Run = Run(reports: seq<(string, Report)>, tokens: seq<Token>, cleaned: nat)

  /**
   * The job's due test: active, and either no expiry or an expiry no later
   * than two days from now.
   */
  predicate Due(t: Token, providerId: int, now: int) {
    t.providerId == providerId && t.isActive && (t.expiresAt.None? || t.expiresAt.value <= now + TokenService.RefreshWindow)
  }

  function DueTokens(ts: seq<Token>, providerId: int, now: int): (r: seq<Token>)
    ensures |r| == 0 <==> forall t :: t in ts ==> !Due(t, providerId, now)
  {
    var r := Seqs.Filter(ts, (t: Token) => Due(t, providerId, now));
    assert |r| > 0 ==> r[0] in r;
    r
  }

  /**
   * A token without expiry is due for the job, yet the service's
   * `eskizTokenNeedsRefresh` never renews it; the two tests also part at an
   * expiry of exactly two days from now.
   */
  lemma DueDisagreesWithNeedsRefresh(providers: seq<Provider>, t: Token, now: int)
    requires FirstNamed(providers, "eskiz").Some?
    requires t.isActive
    ensures t.expiresAt.None? ==> Due(t, t.providerId, now) && !TokenService.NeedsRefresh(providers, Some(t), now)
    ensures t.expiresAt == Some(now + TokenService.RefreshWindow) ==>
              Due(t, t.providerId, now) && !TokenService.NeedsRefresh(providers, Some(t), now)
    ensures t.expiresAt.Some? && t.expiresAt.value != now + TokenService.RefreshWindow ==>
              (Due(t, t.providerId, now) <==> TokenService.NeedsRefresh(providers, Some(t), now))
  {
  }

  /** A report for a provider whose handler ran, counting a success as refreshed and anything else as failed. */
  function Tally(p: Provider, status: string): (r: Report)
    ensures r.Attempted? && r.status == status && r.providerId == p.id && r.providerName == p.displayName
    ensures r.tokensRefreshed + r.tokensFailed == 1
    ensures r.tokensRefreshed == 1 <==> status == "success"
  {
    if status == "success" then Attempted(p.id, p.displayName, status, 1, 0)
    else Attempted(p.id, p.displayName, status, 0, 1)
  }

  function StatusOf(token: Option<Token>): string {
    if token.Some? then "success" else "failed"
  }

  /**
   * `refreshProviderTokens` for one provider, with the PlayMobile handler's
   * outcome supplied: no handler runs unless a token is due; eskiz and
   * playmobile have handlers, any other provider is skipped.
   */
  function RefreshProvider(p: Provider, providers: seq<Provider>, inputs: Inputs, ts: seq<Token>, now: int)
    : (r: (Report, seq<Token>))
    ensures |DueTokens(ts, p.id, now)| == 0 ==> r == (NoRefreshNeeded(p.id, p.displayName), ts)
    ensures |DueTokens(ts, p.id, now)| > 0 ==> r.0.Attempted?
    ensures r.0.Attempted? && p.displayName != "eskiz" ==> r.1 == ts
    ensures r.0.Attempted? && p.displayName !in {"eskiz", "playmobile"} ==>
              r.0.status == "skipped" && r.0.tokensFailed == 1
    ensures r.0.Attempted? && p.displayName == "eskiz" ==>
              var got := TokenService.GetEskizToken(providers, inputs.current, inputs.env, inputs.login, ts, now);
              r.0.status == StatusOf(got.token) && r.1 == got.tokens
  {
    if |DueTokens(ts, p.id, now)| == 0 then (NoRefreshNeeded(p.id, p.displayName), ts)
    else if p.displayName == "eskiz" then
      var got := TokenService.GetEskizToken(providers, inputs.current, inputs.env, inputs.login, ts, now);
      (Tally(p, StatusOf(got.token)), got.tokens)
    else if p.displayName == "playmobile" then
      (Tally(p, if inputs.playMobileToken then "success" else "failed"), ts)
    else (Tally(p, "skipped"), ts)
  }

  /** `$results[name] = report`: replaces an earlier report under the same name, else appends. */
  function Record(reports: seq<(string, Report)>, name: string, r: Report): (out: seq<(string, Report)>)
    ensures (name, r) in out
    ensures Names(out) == Names(reports) + {name}
  {
    if |reports| == 0 then [(name, r)]
    else if reports[0].0 == name then [(name, r)] + reports[1..]
    else
      var rest := Record(reports[1..], name, r);
      NamesCons(reports[0], reports[1..]);
      NamesCons(reports[0], rest);
      assert reports == [reports[0]] + reports[1..];
      [reports[0]] + rest
  }

  function Names(reports: seq<(string, Report)>): set<string> {
    set e | e in reports :: e.0
  }

  lemma NamesCons(e: (string, Report), s: seq<(string, Report)>)
    ensures Names([e] + s) == {e.0} + Names(s)
  {
    forall n | n in Names([e] + s) ensures n in {e.0} + Names(s) {
      var x :| x in [e] + s && x.0 == n;
      if x != e { assert x in s; }
    }
    forall n | n in Names(s) ensures n in Names([e] + s) {
      var x :| x in s && x.0 == n;
      assert x in [e] + s;
    }
  }

  function NamesOf(ps: seq<Provider>): set<string> {
    set p | p in ps :: p.displayName
  }

  /** One provider's turn: an exception is reported with its message and leaves the table alone. */
  function Step(p: Provider, providers: seq<Provider>, inputs: Inputs, ts: seq<Token>, now: int): (Report, seq<Token>) {
    if p.id in inputs.thrown then (Raised(inputs.thrown[p.id]), ts)
    else RefreshProvider(p, providers, inputs, ts, now)
  }

  /** The loop over enabled providers, in table order. */
  function Loop(ps: seq<Provider>, providers: seq<Provider>, inputs: Inputs,
                reports: seq<(string, Report)>, ts: seq<Token>, now: int): (r: (seq<(string, Report)>, seq<Token>))
    ensures Names(r.0) == Names(reports) + NamesOf(ps)
    decreases |ps|
  {
    if |ps| == 0 then (reports, ts)
    else
      var p := ps[0];
      var (rep, ts1) := Step(p, providers, inputs, ts, now);
      assert ps == [p] + ps[1..];
      Loop(ps[1..], providers, inputs, Record(reports, p.displayName, rep), ts1, now)
  }

  /**
   * The token table each provider meets when its turn comes, one after
   * another, ending with the table the last turn leaves.
   */
  function Tables(ps: seq<Provider>, providers: seq<Provider>, inputs: Inputs, ts: seq<Token>, now: int)
    : (r: seq<seq<Token>>)
    ensures |r| == |ps| + 1 && r[0] == ts
    decreases |ps|
  {
    if |ps| == 0 then [ts]
    else [ts] + Tables(ps[1..], providers, inputs, Step(ps[0], providers, inputs, ts, now).1, now)
  }

  /** Each turn starts from the table the previous turn left. */
  lemma {:induction false} TablesStep(ps: seq<Provider>, providers: seq<Provider>, inputs: Inputs,
                                      ts: seq<Token>, now: int, i: nat)
    requires i < |ps|
    ensures var tables := Tables(ps, providers, inputs, ts, now);
            tables[i + 1] == Step(ps[i], providers, inputs, tables[i], now).1
  {
    if i > 0 {
      TablesStep(ps[1..], providers, inputs, Step(ps[0], providers, inputs, ts, now).1, now, i - 1);
    }
  }

  predicate DistinctNames(ps: seq<Provider>) {
    forall i, j :: 0 <= i < j < |ps| ==> ps[i].displayName != ps[j].displayName
  }

  /** The report each provider gets for the table it meets. */
  function Reports(ps: seq<Provider>, providers: seq<Provider>, inputs: Inputs, ts: seq<Token>, now: int)
    : (r: seq<(string, Report)>)
    ensures |r| == |ps|
  {
    var tables := Tables(ps, providers, inputs, ts, now);
    seq(|ps|, i requires 0 <= i < |ps| => (ps[i].displayName, Step(ps[i], providers, inputs, tables[i], now).0))
  }

  /** A name not reported yet is appended after the earlier reports. */
  lemma {:induction false} RecordAppends(reports: seq<(string, Report)>, name: string, r: Report)
    requires name !in Names(reports)
    ensures Record(reports, name, r) == reports + [(name, r)]
  {
    if |reports| > 0 {
      assert reports[0] in reports;
      NamesCons(reports[0], reports[1..]);
      assert reports == [reports[0]] + reports[1..];
      RecordAppends(reports[1..], name, r);
    }
  }

  /** Appending a report adds its name to the reported names. */
  lemma NamesSnoc(reports: seq<(string, Report)>, e: (string, Report))
    ensures Names(reports + [e]) == Names(reports) + {e.0}
  {
    forall n | n in Names(reports + [e]) ensures n in Names(reports) + {e.0} {
      var x :| x in reports + [e] && x.0 == n;
      if x != e { assert x in reports; }
    }
    forall n | n in Names(reports) ensures n in Names(reports + [e]) {
      var x :| x in reports && x.0 == n;
      assert x in reports + [e];
    }
  }

  /** The loop takes the first provider's turn, then carries on with the rest. */
  lemma LoopCons(ps: seq<Provider>, providers: seq<Provider>, inputs: Inputs,
                 reports: seq<(string, Report)>, ts: seq<Token>, now: int)
    requires |ps| > 0
    ensures var st := Step(ps[0], providers, inputs, ts, now);
            Loop(ps, providers, inputs, reports, ts, now)
            == Loop(ps[1..], providers, inputs, Record(reports, ps[0].displayName, st.0), st.1, now)
  {
  }

  /** The first provider's report comes first, the others follow for the table it left. */
  lemma ReportsCons(ps: seq<Provider>, providers: seq<Provider>, inputs: Inputs, ts: seq<Token>, now: int)
    requires |ps| > 0
    ensures var st := Step(ps[0], providers, inputs, ts, now);
            Reports(ps, providers, inputs, ts, now)
            == [(ps[0].displayName, st.0)] + Reports(ps[1..], providers, inputs, st.1, now)
  {
    var st := Step(ps[0], providers, inputs, ts, now);
    var tail := Reports(ps[1..], providers, inputs, st.1, now);
    var all := Reports(ps, providers, inputs, ts, now);
    var tables := Tables(ps, providers, inputs, ts, now);
    assert tables == [ts] + Tables(ps[1..], providers, inputs, st.1, now);
    forall i | 0 <= i < |all| ensures all[i] == ([(ps[0].displayName, st.0)] + tail)[i] {
      if i > 0 {
        assert ps[i] == ps[1..][i - 1];
      }
    }
  }

  lemma SnocAppend<T>(a: seq<T>, e: T, b: seq<T>)
    ensures (a + [e]) + b == a + ([e] + b)
  {
  }

  /** After the first provider's report, the other providers' names are still unreported. */
  lemma TailFresh(ps: seq<Provider>, reports: seq<(string, Report)>, e: (string, Report))
    requires |ps| > 0 && DistinctNames(ps) && e.0 == ps[0].displayName
    requires forall i :: 0 <= i < |ps| ==> ps[i].displayName !in Names(reports)
    ensures DistinctNames(ps[1..])
    ensures forall i :: 0 <= i < |ps[1..]| ==> ps[1..][i].displayName !in Names(reports + [e])
  {
    NamesSnoc(reports, e);
    forall i | 0 <= i < |ps[1..]| ensures ps[1..][i].displayName !in Names(reports + [e]) {
      assert ps[1..][i] == ps[i + 1];
    }
  }

  /**
   * With distinct display names, the loop appends one report per provider,
   * in order: the exception's message for a provider that raised, otherwise
   * its handler's report for the table it met.
   */
  lemma {:induction false} LoopReports(ps: seq<Provider>, providers: seq<Provider>, inputs: Inputs,
                                       reports: seq<(string, Report)>, ts: seq<Token>, now: int)
    requires DistinctNames(ps)
    requires forall i :: 0 <= i < |ps| ==> ps[i].displayName !in Names(reports)
    ensures Loop(ps, providers, inputs, reports, ts, now).0 == reports + Reports(ps, providers, inputs, ts, now)
    decreases |ps|
  {
    if |ps| > 0 {
      var p := ps[0];
      var st := Step(p, providers, inputs, ts, now);
      LoopCons(ps, providers, inputs, reports, ts, now);
      ReportsCons(ps, providers, inputs, ts, now);
      RecordAppends(reports, p.displayName, st.0);
      var reports1 := reports + [(p.displayName, st.0)];
      TailFresh(ps, reports, (p.displayName, st.0));
      LoopReports(ps[1..], providers, inputs, reports1, st.1, now);
      SnocAppend(reports, (p.displayName, st.0), Reports(ps[1..], providers, inputs, st.1, now));
    }
  }

  /** The loop leaves the table its last turn produced, whatever the names. */
  lemma {:induction false} LoopTable(ps: seq<Provider>, providers: seq<Provider>, inputs: Inputs,
                                     reports: seq<(string, Report)>, ts: seq<Token>, now: int)
    ensures Loop(ps, providers, inputs, reports, ts, now).1 == Tables(ps, providers, inputs, ts, now)[|ps|]
    decreases |ps|
  {
    if |ps| > 0 {
      var st := Step(ps[0], providers, inputs, ts, now);
      LoopTable(ps[1..], providers, inputs, Record(reports, ps[0].displayName, st.0), st.1, now);
      assert Tables(ps, providers, inputs, ts, now) == [ts] + Tables(ps[1..], providers, inputs, st.1, now);
    }
  }

  /**
   * When no provider reaches the Eskiz handler with a due token, every
   * provider meets the table as it was and the loop leaves it unchanged.
   */
  lemma {:induction false} LoopKeepsTable(ps: seq<Provider>, providers: seq<Provider>, inputs: Inputs,
                                          ts: seq<Token>, now: int)
    requires forall i :: 0 <= i < |ps| ==>
               ps[i].id in inputs.thrown || ps[i].displayName != "eskiz" || |DueTokens(ts, ps[i].id, now)| == 0
    ensures forall i :: 0 <= i <= |ps| ==> Tables(ps, providers, inputs, ts, now)[i] == ts
    decreases |ps|
  {
    if |ps| > 0 {
      assert Step(ps[0], providers, inputs, ts, now).1 == ts;
      forall i | 0 <= i < |ps[1..]|
        ensures ps[1..][i].id in inputs.thrown || ps[1..][i].displayName != "eskiz" || |DueTokens(ts, ps[1..][i].id, now)| == 0
      {
        assert ps[1..][i] == ps[i + 1];
      }
      LoopKeepsTable(ps[1..], providers, inputs, ts, now);
      var tables := Tables(ps, providers, inputs, ts, now);
      assert tables == [ts] + Tables(ps[1..], providers, inputs, ts, now);
      forall i | 0 <= i <= |ps| ensures tables[i] == ts {
        if i > 0 {
          assert tables[i] == Tables(ps[1..], providers, inputs, ts, now)[i - 1];
        }
      }
    }
  }

  /**
   * `handle`, as intended: every enabled provider gets a report under its
   * name, and expired tokens are swept exactly once, after the loop.
   */
  function Handle(providers: seq<Provider>, inputs: Inputs, ts: seq<Token>, now: int): (run: Run)
    ensures Names(run.reports) == NamesOf(Enabled(providers))
    ensures DistinctNames(Enabled(providers)) ==> run.reports == Reports(Enabled(providers), providers, inputs, ts, now)
    ensures var left := Tables(Enabled(providers), providers, inputs, ts, now)[|Enabled(providers)|];
            && |run.tokens| == |left|
            && (forall i :: 0 <= i < |left| ==>
                  run.tokens[i] == left[i].(isActive := left[i].isActive && !IsExpired(left[i], now)))
            && run.cleaned == |Seqs.Filter(left, (t: Token) => IsExpired(t, now))|
    ensures forall t :: t in run.tokens && IsExpired(t, now) ==> !t.isActive
  {
    var enabled := Enabled(providers);
    var looped := Loop(enabled, providers, inputs, [], ts, now);
    assert DistinctNames(enabled) ==> looped.0 == Reports(enabled, providers, inputs, ts, now) by {
      if DistinctNames(enabled) {
        LoopReports(enabled, providers, inputs, [], ts, now);
      }
    }
    LoopTable(enabled, providers, inputs, [], ts, now);
    var (cleaned, swept) := TokenService.CleanupExpiredTokens(looped.1, now);
    TokenService.CleanupIdempotent(looped.1, now);
    Run(looped.0, swept, cleaned)
  }

  /**
   * The loop as written: the playmobile branch calls a token method the
   * service does not define. PHP raises an Error there, which the loop's
   * `catch (\Exception)` does not catch, so the run aborts (None). Short of
   * that, it is the intended loop.
   */
  function LoopAsWritten(ps: seq<Provider>, providers: seq<Provider>, inputs: Inputs,
                         reports: seq<(string, Report)>, ts: seq<Token>, now: int)
    : (r: Option<(seq<(string, Report)>, seq<Token>)>)
    ensures r.Some? ==> r.value == Loop(ps, providers, inputs, reports, ts, now)
    ensures r.None? ==> exists i :: 0 <= i < |ps| && ps[i].displayName == "playmobile" && ps[i].id !in inputs.thrown
    decreases |ps|
  {
    if |ps| == 0 then Some((reports, ts))
    else
      var p := ps[0];
      if p.id !in inputs.thrown && p.displayName == "playmobile" && |DueTokens(ts, p.id, now)| > 0 then None
      else
        var (rep, ts1) := Step(p, providers, inputs, ts, now);
        var r := LoopAsWritten(ps[1..], providers, inputs, Record(reports, p.displayName, rep), ts1, now);
        if r.None? then
          var i :| 0 <= i < |ps[1..]| && ps[1..][i].displayName == "playmobile" && ps[1..][i].id !in inputs.thrown;
          assert ps[i + 1] == ps[1..][i];
          r
        else r
  }

  /** `handle` as written: None when the run aborts before the sweep. */
  function HandleAsWritten(providers: seq<Provider>, inputs: Inputs, ts: seq<Token>, now: int): (run: Option<Run>)
    ensures run.Some? ==> run.value == Handle(providers, inputs, ts, now)
  {
    var looped := LoopAsWritten(Enabled(providers), providers, inputs, [], ts, now);
    if looped.None? then None
    else
      var (cleaned, swept) := TokenService.CleanupExpiredTokens(looped.value.1, now);
      Some(Run(looped.value.0, swept, cleaned))
  }

  /**
   * One enabled playmobile provider holding an active token without expiry
   * aborts the run as written, while the intended job reports it and sweeps.
   */
  lemma PlayMobileAborts(inputs: Inputs, now: int)
    requires inputs.thrown == map[]
    ensures var p := Provider(1, "playmobile", Null, true, 1);
            var t := Token(1, 1, "access", "x", None, true, Null);
            && HandleAsWritten([p], inputs, [t], now).None?
            && Handle([p], inputs, [t], now).reports == [("playmobile", Tally(p, if inputs.playMobileToken then "success" else "failed"))]
  {
    var p := Provider(1, "playmobile", Null, true, 1);
    var t := Token(1, 1, "access", "x", None, true, Null);
    assert Enabled([p]) == [p];
    assert Due(t, 1, now);
    assert t in [t];
    assert |DueTokens([t], 1, now)| > 0;
  }
}
