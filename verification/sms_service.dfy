/**
 * Dispatch with failover. A project's active credentials are tried in
 * ascending provider priority; a credential that yields no adapter is
 * skipped, and the first adapter that answers `sent` ends the walk.
 *
 * Vendors are a parameter: `vendor(c, req)` is the outcome of posting `req`
 * through credential `c`. Adapter instances are cached per credential id in
 * a map that is passed in and handed back.
 */
module SmsService {
  import opened Wrappers
  import opened Php
  import opened Http
  import opened MessageStatus
  import opened SmsResult
  import opened Registry
  import Seqs
  import Sorting
  import Eskiz
  import PlayMobile

  /** A project's credential row: its provider and its decoded JSON config (Null when undecodable). */
  datatype Credential = Credential(id: int, provider: Provider, config: Value, isActive: bool)

  datatype Adapter = EskizAdapter(config: Value) | PlayMobileAdapter(config: Value)

  type Cache = map<int, Adapter>

  /** What is being sent; `generatedId` stands for `uniqid()`. */
  datatype Outbound = Outbound(to: string, from: string, text: string, options: Value, generatedId: string)

  /** One call of an adapter's `send` during a dispatch. */
  datatype Attempt = Attempt(credential: Credential, adapter: Adapter, result: SendResult)

  datatype Dispatch = Dispatch(result: SendResult, attempts: seq<Attempt>, cache: Cache)

  const NoProviders := Str("No active SMS providers configured for this project")
  const AllProvidersFailed := Str("All configured SMS providers failed")

  function CredentialPriority(c: Credential): int {
    c.provider.priority
  }

  predicate IsActive(c: Credential) {
    c.isActive
  }

  /** The adapter a credential yields when nothing is cached for it. */
  function Build(c: Credential): (a: Option<Adapter>)
    ensures a.Some? ==> a.value.config == c.config
  {
    if !Truthy(c.config) || !c.config.Array? then None
    else if c.provider.displayName == "eskiz" then
      if Eskiz.ValidateConfig(c.config) then Some(EskizAdapter(c.config)) else None
    else if c.provider.displayName == "playmobile" then
      if PlayMobile.ValidateConfig(c.config) then Some(PlayMobileAdapter(c.config)) else None
    else None
  }

  /**
   * A credential yields no adapter exactly when its config is empty, its
   * provider is neither Eskiz nor PlayMobile, or the adapter rejects the
   * config; otherwise the adapter matches the provider's name.
   */
  lemma BuildCases(c: Credential)
    ensures Build(c).None? <==>
              || !Truthy(c.config)
              || !c.config.Array?
              || c.provider.displayName !in {"eskiz", "playmobile"}
              || (c.provider.displayName == "eskiz" && !Eskiz.ValidateConfig(c.config))
              || (c.provider.displayName == "playmobile" && !PlayMobile.ValidateConfig(c.config))
    ensures Build(c).Some? ==> (Build(c).value.EskizAdapter? <==> c.provider.displayName == "eskiz")
  {
  }

  /** The adapter a credential resolves to against a cache. */
  function Resolve(cache: Cache, c: Credential): Option<Adapter> {
    if c.id in cache then Some(cache[c.id]) else Build(c)
  }

  /**
   * `getProviderInstance`: a cache hit returns the stored adapter and leaves
   * the cache alone; a miss builds the adapter and caches it only when it exists.
   */
  function GetInstance(cache: Cache, c: Credential): (r: (Option<Adapter>, Cache))
    ensures c.id in cache ==> r == (Some(cache[c.id]), cache)
    ensures c.id !in cache ==> r.0 == Build(c)
    ensures c.id !in cache && r.0.Some? ==> r.1 == cache[c.id := r.0.value]
    ensures c.id !in cache && r.0.None? ==> r.1 == cache
    ensures r.0 == Resolve(cache, c)
  {
    if c.id in cache then (Some(cache[c.id]), cache)
    else
      var a := Build(c);
      if a.Some? then (a, cache[c.id := a.value]) else (None, cache)
  }

  function AdapterRequest(a: Adapter, out: Outbound): Value {
    match a
    case EskizAdapter(_) => Eskiz.Request(out.to, out.from, out.text, out.options)
    case PlayMobileAdapter(_) => PlayMobile.Request(out.to, out.from, out.text, out.options, out.generatedId)
  }

  function AdapterSend(a: Adapter, resp: Response): (r: SendResult)
    ensures WellFormed(r)
    ensures r.providerId.Null? && r.providerName.Null?
  {
    match a
    case EskizAdapter(_) => Eskiz.Send(resp)
    case PlayMobileAdapter(_) => PlayMobile.Send(resp)
  }

  function AdapterCheckStatus(a: Adapter, messageId: string, resp: Response): StatusResult {
    match a
    case EskizAdapter(_) => Eskiz.CheckStatus(resp)
    case PlayMobileAdapter(_) => PlayMobile.CheckStatus(messageId)
  }

  /** A successful attempt's result, labelled with the provider that delivered it. */
  function Stamp(a: Attempt): SendResult {
    a.result.(providerId := Int(a.credential.provider.id),
              providerName := Str(a.credential.provider.displayName))
  }

  /** Calling an adapter's `send` for `out`, through the vendor behind a credential. */
  function Call(out: Outbound, vendor: (Credential, Value) -> Response): (Credential, Adapter) -> SendResult {
    (c: Credential, a: Adapter) => AdapterSend(a, vendor(c, AdapterRequest(a, out)))
  }

  /** The credentials a sequence of attempts went through, in order. */
  function Invoked(attempts: seq<Attempt>): seq<Credential> {
    if |attempts| == 0 then [] else [attempts[0].credential] + Invoked(attempts[1..])
  }

  predicate InPriorityOrder(attempts: seq<Attempt>) {
    forall i, j :: 0 <= i < j < |attempts| ==>
      attempts[i].credential.provider.priority <= attempts[j].credential.provider.priority
  }

  /** The credentials that resolve to an adapter against `cache`, in order. */
  function Usable(cs: seq<Credential>, cache: Cache): seq<Credential> {
    if |cs| == 0 then []
    else (if Resolve(cache, cs[0]).Some? then [cs[0]] else []) + Usable(cs[1..], cache)
  }

  /** The failover loop over already ordered credentials. */
  function Walk(cs: seq<Credential>, cache: Cache,
                call: (Credential, Adapter) -> SendResult): (d: Dispatch)
    ensures forall a :: a in d.attempts ==> a.credential in cs && a.result == call(a.credential, a.adapter)
    decreases |cs|
  {
    if |cs| == 0 then Dispatch(Failure(AllProvidersFailed, Null), [], cache)
    else
      var inst := GetInstance(cache, cs[0]).0;
      var cache1 := GetInstance(cache, cs[0]).1;
      if inst.None? then Walk(cs[1..], cache1, call)
      else
        var a := Attempt(cs[0], inst.value, call(cs[0], inst.value));
        if a.result.status == Sent then Dispatch(Stamp(a), [a], cache1)
        else
          var rest := Walk(cs[1..], cache1, call);
          rest.(attempts := [a] + rest.attempts)
  }

  /** Over credentials in priority order, the attempts come in priority order too. */
  lemma {:induction false} WalkInOrder(cs: seq<Credential>, cache: Cache,
                                       call: (Credential, Adapter) -> SendResult)
    requires Sorting.SortedBy(cs, CredentialPriority)
    ensures InPriorityOrder(Walk(cs, cache, call).attempts)
  {
    if |cs| > 0 {
      var inst := GetInstance(cache, cs[0]).0;
      var cache1 := GetInstance(cache, cs[0]).1;
      var tail := cs[1..];
      SortedTail(cs);
      WalkInOrder(tail, cache1, call);
      var rest := Walk(tail, cache1, call).attempts;
      if inst.Some? {
        var a := Attempt(cs[0], inst.value, call(cs[0], inst.value));
        if a.result.status != Sent {
          OrderCons(cs, a, rest);
        }
      }
    }
  }

  lemma SortedTail(cs: seq<Credential>)
    requires |cs| > 0 && Sorting.SortedBy(cs, CredentialPriority)
    ensures Sorting.SortedBy(cs[1..], CredentialPriority)
    ensures forall c :: c in cs[1..] ==> cs[0].provider.priority <= c.provider.priority
  {
    var tail := cs[1..];
    forall i, j | 0 <= i < j < |tail| ensures tail[i].provider.priority <= tail[j].provider.priority {
      assert tail[i] == cs[i + 1] && tail[j] == cs[j + 1];
    }
    forall c | c in tail ensures cs[0].provider.priority <= c.provider.priority {
      var m :| 0 <= m < |tail| && tail[m] == c;
      assert cs[m + 1] == c;
    }
  }

  lemma OrderCons(cs: seq<Credential>, a: Attempt, rest: seq<Attempt>)
    requires |cs| > 0 && a.credential == cs[0]
    requires forall c :: c in cs[1..] ==> cs[0].provider.priority <= c.provider.priority
    requires forall x :: x in rest ==> x.credential in cs[1..]
    requires InPriorityOrder(rest)
    ensures InPriorityOrder([a] + rest)
  {
    var atts := [a] + rest;
    forall i, j | 0 <= i < j < |atts|
      ensures atts[i].credential.provider.priority <= atts[j].credential.provider.priority
    {
      assert atts[j] == rest[j - 1];
      assert rest[j - 1] in rest;
      if i > 0 { assert atts[i] == rest[i - 1]; }
    }
  }

  /**
   * How a walk ends: every attempt but the last failed; the walk is `sent`
   * exactly when the last attempt was, and then returns that attempt's
   * result stamped with its provider; otherwise it returns the 'all
   * providers failed' result.
   */
  predicate Settled(d: Dispatch) {
    && (forall i :: 0 <= i < |d.attempts| - 1 ==> d.attempts[i].result.status != Sent)
    && (d.result.status == Sent <==> |d.attempts| > 0 && d.attempts[|d.attempts| - 1].result.status == Sent)
    && (d.result.status == Sent ==> d.result == Stamp(d.attempts[|d.attempts| - 1]))
    && (d.result.status != Sent ==> d.result == Failure(AllProvidersFailed, Null))
  }

  lemma SettledCons(a: Attempt, d: Dispatch)
    requires a.result.status != Sent
    requires Settled(d)
    ensures Settled(d.(attempts := [a] + d.attempts))
  {
    var atts := [a] + d.attempts;
    assert forall i :: 1 <= i < |atts| ==> atts[i] == d.attempts[i - 1];
  }

  lemma {:induction false} WalkOutcome(cs: seq<Credential>, cache: Cache,
                                       call: (Credential, Adapter) -> SendResult)
    ensures Settled(Walk(cs, cache, call))
  {
    if |cs| > 0 {
      var inst := GetInstance(cache, cs[0]).0;
      var cache1 := GetInstance(cache, cs[0]).1;
      WalkOutcome(cs[1..], cache1, call);
      var rest := Walk(cs[1..], cache1, call);
      if inst.Some? {
        var a := Attempt(cs[0], inst.value, call(cs[0], inst.value));
        if a.result.status != Sent {
          SettledCons(a, rest);
        }
      }
    }
  }

  /** Each attempt goes through the adapter its credential resolves to, when ids identify rows. */
  lemma {:induction false} WalkResolves(cs: seq<Credential>, cache: Cache,
                                        call: (Credential, Adapter) -> SendResult)
    requires IdsIdentify(cs)
    ensures forall a :: a in Walk(cs, cache, call).attempts ==> Resolve(cache, a.credential) == Some(a.adapter)
  {
    if |cs| > 0 {
      var inst := GetInstance(cache, cs[0]).0;
      var cache1 := GetInstance(cache, cs[0]).1;
      var tail := cs[1..];
      IdsIdentifyTail(cs);
      WalkResolves(tail, cache1, call);
      var rest := Walk(tail, cache1, call).attempts;
      ResolvesBack(cache, cs[0], tail, rest);
      if inst.Some? {
        var a := Attempt(cs[0], inst.value, call(cs[0], inst.value));
        if a.result.status != Sent {
          ResolvesCons(cache, a, rest);
        }
      }
    }
  }

  lemma IdsIdentifyTail(cs: seq<Credential>)
    requires |cs| > 0 && IdsIdentify(cs)
    ensures IdsIdentify(cs[1..])
    ensures forall c :: c in cs[1..] ==> c.id != cs[0].id || c == cs[0]
  {
    assert forall c :: c in cs[1..] ==> c in cs;
    assert cs[0] in cs;
  }

  /** What the rest of the walk resolved against the grown cache, it resolves against the original one too. */
  lemma ResolvesBack(cache: Cache, h: Credential, tail: seq<Credential>, rest: seq<Attempt>)
    requires forall c :: c in tail ==> c.id != h.id || c == h
    requires forall a :: a in rest ==> a.credential in tail
    requires forall a :: a in rest ==> Resolve(GetInstance(cache, h).1, a.credential) == Some(a.adapter)
    ensures forall a :: a in rest ==> Resolve(cache, a.credential) == Some(a.adapter)
  {
    forall a | a in rest ensures Resolve(cache, a.credential) == Some(a.adapter) {
      ResolveStable(cache, h, a.credential);
    }
  }

  lemma ResolvesCons(cache: Cache, a: Attempt, rest: seq<Attempt>)
    requires Resolve(cache, a.credential) == Some(a.adapter)
    requires forall b :: b in rest ==> Resolve(cache, b.credential) == Some(b.adapter)
    ensures forall b :: b in [a] + rest ==> Resolve(cache, b.credential) == Some(b.adapter)
  {
  }

  /** Caching `h`'s adapter changes what `c` resolves to only if `c` is another row with `h`'s id. */
  lemma ResolveStable(cache: Cache, h: Credential, c: Credential)
    requires c.id != h.id || c == h
    ensures Resolve(GetInstance(cache, h).1, c) == Resolve(cache, c)
  {
  }

  /** No two different rows share an id, as in a table keyed by id. */
  predicate IdsIdentify(cs: seq<Credential>) {
    forall x, y :: x in cs && y in cs && x.id == y.id ==> x == y
  }

  /**
   * Caching the head credential's adapter changes nothing that the other
   * credentials resolve to, when ids identify rows.
   */
  lemma {:induction false} CacheStable(cache: Cache, h: Credential, tail: seq<Credential>)
    requires forall c :: c in tail ==> c.id != h.id || c == h
    ensures Usable(tail, GetInstance(cache, h).1) == Usable(tail, cache)
  {
    if |tail| > 0 {
      assert tail[0] in tail;
      assert forall c :: c in tail[1..] ==> c in tail;
      CacheStable(cache, h, tail[1..]);
    }
  }

  /** A run of attempts that called the first credentials of `u` in order, and all of them unless it ended `sent`. */
  predicate Covers(attempts: seq<Attempt>, u: seq<Credential>, sent: bool) {
    && |attempts| <= |u|
    && Invoked(attempts) == u[..|attempts|]
    && (!sent ==> |attempts| == |u|)
  }

  lemma CoversCons(a: Attempt, rest: seq<Attempt>, ut: seq<Credential>, sent: bool)
    requires Covers(rest, ut, sent)
    ensures Covers([a] + rest, [a.credential] + ut, sent)
  {
    var l := Invoked([a] + rest);
    var r := ([a.credential] + ut)[..|rest| + 1];
    assert ([a] + rest)[1..] == rest;
    assert l == [a.credential] + Invoked(rest);
    forall k | 0 <= k < |l| ensures l[k] == r[k] {
      if k > 0 {
        assert l[k] == ut[..|rest|][k - 1];
      }
    }
  }

  lemma CoversSent(a: Attempt, ut: seq<Credential>)
    ensures Covers([a], [a.credential] + ut, true)
  {
    assert ([a] + [])[1..] == [];
    assert Invoked([a]) == [a.credential];
  }

  /** The usable credentials seen from the head: its own adapter, then the rest against the grown cache. */
  lemma UsableCons(cs: seq<Credential>, cache: Cache)
    requires |cs| > 0
    requires forall c :: c in cs[1..] ==> c.id != cs[0].id || c == cs[0]
    ensures var g := GetInstance(cache, cs[0]);
            Usable(cs, cache) == (if g.0.Some? then [cs[0]] else []) + Usable(cs[1..], g.1)
  {
    CacheStable(cache, cs[0], cs[1..]);
  }

  lemma {:induction false} WalkCoverage(cs: seq<Credential>, cache: Cache,
                                        call: (Credential, Adapter) -> SendResult)
    requires IdsIdentify(cs)
    ensures var d := Walk(cs, cache, call);
            Covers(d.attempts, Usable(cs, cache), d.result.status == Sent)
  {
    if |cs| > 0 {
      var inst := GetInstance(cache, cs[0]).0;
      var cache1 := GetInstance(cache, cs[0]).1;
      var tail := cs[1..];
      IdsIdentifyTail(cs);
      UsableCons(cs, cache);
      WalkCoverage(tail, cache1, call);
      var ut := Usable(tail, cache1);
      var rest := Walk(tail, cache1, call);
      if inst.Some? {
        var a := Attempt(cs[0], inst.value, call(cs[0], inst.value));
        if a.result.status == Sent {
          CoversSent(a, ut);
        } else {
          CoversCons(a, rest.attempts, ut, rest.result.status == Sent);
        }
      }
    }
  }

  /** The credentials a dispatch considers: the active ones, by ascending provider priority. */
  function Candidates(credentials: seq<Credential>): (r: seq<Credential>)
    ensures Sorting.SortedBy(r, CredentialPriority)
    ensures forall c :: c in r <==> c in credentials && c.isActive
  {
    var active := Seqs.Filter(credentials, IsActive);
    var r := Sorting.SortBy(active, CredentialPriority);
    assert forall c :: c in r <==> c in multiset(active);
    r
  }

  /**
   * `sendSms`: the candidates walked until one adapter reports `sent`, or
   * the 'no active providers' failure when there is no candidate.
   */
  function SendSms(credentials: seq<Credential>, out: Outbound, cache: Cache,
                   vendor: (Credential, Value) -> Response): (d: Dispatch)
    ensures |Candidates(credentials)| == 0 ==>
              d.result == Failure(NoProviders, Null) && d.attempts == [] && d.cache == cache
    ensures forall a :: a in d.attempts ==> a.credential in credentials && a.credential.isActive
    ensures forall a :: a in d.attempts ==>
              a.result == AdapterSend(a.adapter, vendor(a.credential, AdapterRequest(a.adapter, out)))
    ensures InPriorityOrder(d.attempts)
    ensures WellFormed(d.result)
    ensures forall i :: 0 <= i < |d.attempts| - 1 ==> d.attempts[i].result.status == Failed
    ensures d.result.status == Sent <==> |d.attempts| > 0 && d.attempts[|d.attempts| - 1].result.status == Sent
    ensures d.result.status == Sent ==> d.result == Stamp(d.attempts[|d.attempts| - 1])
    ensures |Candidates(credentials)| > 0 && d.result.status == Failed ==> d.result == Failure(AllProvidersFailed, Null)
  {
    var ordered := Candidates(credentials);
    if |ordered| == 0 then Dispatch(Failure(NoProviders, Null), [], cache)
    else
      var call := Call(out, vendor);
      WalkInOrder(ordered, cache, call);
      WalkOutcome(ordered, cache, call);
      var d := Walk(ordered, cache, call);
      DispatchFacts(d, out, vendor);
      d
  }

  /** What a settled, ordered run of `Call` attempts reports, gathered for `SendSms`. */
  lemma DispatchFacts(d: Dispatch, out: Outbound, vendor: (Credential, Value) -> Response)
    requires Settled(d) && InPriorityOrder(d.attempts)
    requires forall a :: a in d.attempts ==> a.result == Call(out, vendor)(a.credential, a.adapter)
    ensures forall a :: a in d.attempts ==>
              a.result == AdapterSend(a.adapter, vendor(a.credential, AdapterRequest(a.adapter, out)))
    ensures WellFormed(d.result)
    ensures forall i :: 0 <= i < |d.attempts| - 1 ==> d.attempts[i].result.status == Failed
  {
    CallResults(d.attempts, out, vendor);
    EarlierFailed(d.attempts);
    if d.result.status == Sent {
      assert d.attempts[|d.attempts| - 1] in d.attempts;
    }
  }

  /** Attempts made through `Call` carry the adapters' well-formed results. */
  lemma CallResults(attempts: seq<Attempt>, out: Outbound, vendor: (Credential, Value) -> Response)
    requires forall a :: a in attempts ==> a.result == Call(out, vendor)(a.credential, a.adapter)
    ensures forall a :: a in attempts ==>
              a.result == AdapterSend(a.adapter, vendor(a.credential, AdapterRequest(a.adapter, out)))
              && WellFormed(a.result)
  {
  }

  lemma EarlierFailed(attempts: seq<Attempt>)
    requires forall a :: a in attempts ==> WellFormed(a.result)
    requires forall i :: 0 <= i < |attempts| - 1 ==> attempts[i].result.status != Sent
    ensures forall i :: 0 <= i < |attempts| - 1 ==> attempts[i].result.status == Failed
  {
    forall i | 0 <= i < |attempts| - 1 ensures attempts[i].result.status == Failed {
      assert attempts[i] in attempts;
    }
  }

  /**
   * When ids identify credential rows: the credentials a dispatch calls are
   * the usable candidates in order, up to where it stopped, each through the
   * adapter it resolves to; a dispatch that ends `failed` has called all of them.
   */
  lemma SendSmsCoverage(credentials: seq<Credential>, out: Outbound, cache: Cache,
                        vendor: (Credential, Value) -> Response)
    requires IdsIdentify(credentials)
    ensures var u := Usable(Candidates(credentials), cache);
            var d := SendSms(credentials, out, cache, vendor);
            && |d.attempts| <= |u|
            && Invoked(d.attempts) == u[..|d.attempts|]
            && (d.result.status == Failed ==> |d.attempts| == |u|)
            && (forall a :: a in d.attempts ==> Resolve(cache, a.credential) == Some(a.adapter))
  {
    var ordered := Candidates(credentials);
    if |ordered| > 0 {
      assert IdsIdentify(ordered);
      WalkCoverage(ordered, cache, Call(out, vendor));
      WalkResolves(ordered, cache, Call(out, vendor));
    }
  }

  /**
   * `checkStatus`: `unknown` with an explanation when the project has no
   * active credential for the provider or it yields no adapter; otherwise
   * exactly what the adapter reports.
   */
  function CheckStatus(credentials: seq<Credential>, messageId: string, providerId: int, cache: Cache,
                       resp: Response): (r: (StatusResult, Cache))
    ensures var i := Seqs.FirstIndex(credentials, (c: Credential) => c.provider.id == providerId && c.isActive);
            && (i < 0 ==> r.0 == StatusResult(Unknown, Str("Provider not found or inactive"), Null) && r.1 == cache)
            && (i >= 0 && Resolve(cache, credentials[i]).None? ==>
                  r.0 == StatusResult(Unknown, Str("Invalid provider configuration"), Null))
            && (i >= 0 && Resolve(cache, credentials[i]).Some? ==>
                  r.0 == AdapterCheckStatus(Resolve(cache, credentials[i]).value, messageId, resp))
    ensures forall id :: id in cache ==> id in r.1 && r.1[id] == cache[id]
  {
    var i := Seqs.FirstIndex(credentials, (c: Credential) => c.provider.id == providerId && c.isActive);
    if i < 0 then (StatusResult(Unknown, Str("Provider not found or inactive"), Null), cache)
    else
      var (inst, cache1) := GetInstance(cache, credentials[i]);
      if inst.None? then (StatusResult(Unknown, Str("Invalid provider configuration"), Null), cache1)
      else (AdapterCheckStatus(inst.value, messageId, resp), cache1)
  }

  /**
   * Asking twice, the second time with the cache the first call left, gives
   * the same answer and leaves the cache as it was.
   */
  lemma CheckStatusRepeat(credentials: seq<Credential>, messageId: string, providerId: int, cache: Cache,
                          resp: Response)
    ensures var first := CheckStatus(credentials, messageId, providerId, cache, resp);
            CheckStatus(credentials, messageId, providerId, first.1, resp) == first
  {
  }

  datatype ProviderInfo = ProviderInfo(id: int, name: string, capabilities: Value, priority: int)

  /** The entry `getAvailableProviders` makes of a credential. */
  function Info(c: Credential): ProviderInfo {
    ProviderInfo(c.provider.id, c.provider.displayName, c.provider.capabilities, c.provider.priority)
  }

  /**
   * `getAvailableProviders`: one entry per active credential, in the order
   * of the credential rows, each copied from the credential's provider.
   */
  function GetAvailableProviders(credentials: seq<Credential>): (r: seq<ProviderInfo>)
    ensures forall p :: p in r <==> exists c :: c in credentials && c.isActive && p == Info(c)
    ensures var active := Seqs.Filter(credentials, IsActive);
            |r| == |active| && forall i :: 0 <= i < |r| ==> r[i] == Info(active[i])
  {
    var active := Seqs.Filter(credentials, IsActive);
    var r := seq(|active|, i requires 0 <= i < |active| => Info(active[i]));
    assert forall p :: p in r <==> exists c :: c in active && p == Info(c) by {
      forall p | p in r ensures exists c :: c in active && p == Info(c) {
        var i :| 0 <= i < |r| && r[i] == p;
        assert active[i] in active;
      }
      forall p | exists c :: c in active && p == Info(c) ensures p in r {
        var c :| c in active && p == Info(c);
        var i :| 0 <= i < |active| && active[i] == c;
        assert r[i] == p;
      }
    }
    r
  }

  /**
   * The listed providers are those of the credentials a dispatch would
   * consider: as many entries as candidates, and a provider entry is listed
   * exactly when some candidate yields it.
   */
  lemma AvailableAreCandidates(credentials: seq<Credential>)
    ensures |GetAvailableProviders(credentials)| == |Candidates(credentials)|
    ensures forall p :: p in GetAvailableProviders(credentials) <==>
              exists c :: c in Candidates(credentials) && p == Info(c)
  {
    var active := Seqs.Filter(credentials, IsActive);
    assert Candidates(credentials) == Sorting.SortBy(active, CredentialPriority);
    assert |Candidates(credentials)| == |multiset(Candidates(credentials))| == |multiset(active)| == |active|;
  }

  /** The two adapters differ only in delivery reports, and name themselves after their provider rows. */
  lemma AdapterCapabilities()
    ensures Eskiz.GetCapabilities().dlr && !PlayMobile.GetCapabilities().dlr
    ensures Eskiz.GetCapabilities().(dlr := false) == PlayMobile.GetCapabilities()
    ensures !Eskiz.GetCapabilities().flash
    ensures Eskiz.GetName() == "eskiz" && PlayMobile.GetName() == "playmobile"
  {
  }
}
