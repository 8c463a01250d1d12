/**
 * Provider tokens: bearer tokens a provider hands out, with an optional
 * expiry. Time is whole seconds; `now` is always a parameter.
 */
module Tokens {
  import opened Wrappers
  import opened Php
  import Seqs

  const DAY := 86400

  datatype Token = Token(
    id: int,
    providerId: int,
    tokenType: string,
    tokenValue: string,
    expiresAt: Option<int>,   // None: never expires
    isActive: bool,
    metadata: Value)

  /** `isExpired`: the expiry lies strictly in the past. */
  predicate IsExpired(t: Token, now: int) {
    t.expiresAt.Some? && t.expiresAt.value < now
  }

  /** `isValid`: active and not expired. */
  predicate IsValid(t: Token, now: int) {
    t.isActive && !IsExpired(t, now)
  }

  /** `timeUntilExpiration`: the expiry when it lies strictly in the future. */
  function TimeUntilExpiration(t: Token, now: int): (r: Option<int>)
    ensures r.Some? <==> t.expiresAt.Some? && t.expiresAt.value > now
    ensures r.Some? ==> r == t.expiresAt
  {
    if t.expiresAt.None? then None
    else if t.expiresAt.value > now then t.expiresAt
    else None
  }

  /** `scopeActive` */
  function Active(ts: seq<Token>): (r: seq<Token>)
    ensures forall t :: t in r <==> t in ts && t.isActive
  {
    Seqs.Filter(ts, (t: Token) => t.isActive)
  }

  /** `scopeByType` */
  function ByType(ts: seq<Token>, tokenType: string): (r: seq<Token>)
    ensures forall t :: t in r <==> t in ts && t.tokenType == tokenType
  {
    Seqs.Filter(ts, (t: Token) => t.tokenType == tokenType)
  }

  /** `scopeNotExpired`: no expiry, or an expiry strictly after `now`. */
  function NotExpired(ts: seq<Token>, now: int): (r: seq<Token>)
    ensures forall t :: t in r <==> t in ts && (t.expiresAt.None? || t.expiresAt.value > now)
  {
    Seqs.Filter(ts, (t: Token) => t.expiresAt.None? || t.expiresAt.value > now)
  }

  /** `scopeValid`: `active` then `notExpired`. */
  function Valid(ts: seq<Token>, now: int): seq<Token> {
    NotExpired(Active(ts), now)
  }

  /**
   * The `valid` scope and `isValid` agree on every token except one that
   * expires at exactly `now`: `isValid` still holds of it, the scope drops it.
   */
  lemma ValidScopeBoundary(ts: seq<Token>, now: int)
    ensures forall t :: t in Valid(ts, now) ==> t in ts && IsValid(t, now)
    ensures forall t :: t in ts && IsValid(t, now) && t.expiresAt != Some(now) ==> t in Valid(ts, now)
    ensures forall t :: t in ts && t.expiresAt == Some(now) ==> IsValid(t, now) == t.isActive && t !in Valid(ts, now)
  {
  }

  /** A token without expiry never expires; one with an expiry is valid right up to it. */
  lemma ValidityOverTime(t: Token, now: int, later: int)
    requires now <= later
    ensures t.expiresAt.None? ==> (IsValid(t, now) <==> t.isActive)
    ensures IsExpired(t, now) ==> IsExpired(t, later)
    ensures IsValid(t, later) ==> IsValid(t, now)
    ensures TimeUntilExpiration(t, later).Some? ==> IsValid(t, now) == t.isActive
  {
  }
}
