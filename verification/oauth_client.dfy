/**
 * The OAuth client model: its secret is kept as written, and a few derived
 * attributes are read off its array-cast columns.
 */
module OAuthClients {
  import opened Php

  datatype Client = Client(
    id: string,
    ownerId: Value,
    name: Value,
    secret: Value,
    redirectUris: Value,
    grantTypes: Value,
    revoked: bool)

  /** `setSecretAttribute`: the value is stored as given, never hashed. */
  function SetSecret(c: Client, value: Value): (r: Client)
    ensures r.(secret := c.secret) == c
  {
    c.(secret := value)
  }

  /** `getSecretAttribute`: the stored value, as it is. */
  function GetSecret(c: Client): Value {
    c.secret
  }

  /** What is written as the secret is what is read back. */
  lemma SecretRoundTrip(c: Client, value: Value)
    ensures GetSecret(SetSecret(c, value)) == value
  {
  }

  /** `grant_types ?? []`, as the list `in_array` searches. */
  function GrantList(c: Client): (r: seq<Value>)
    ensures c.grantTypes.Null? ==> r == []
    ensures c.grantTypes.Array? ==>
              |r| == |c.grantTypes.entries| && forall i :: 0 <= i < |r| ==> r[i] == c.grantTypes.entries[i].1
  {
    Items(c.grantTypes)
  }

  /** `personal_access_client`: 'personal_access' is among the grant types (loosely compared). */
  predicate PersonalAccessClient(c: Client) {
    InArray(Str("personal_access"), GrantList(c))
  }

  /** `password_client`: 'password' is among the grant types (loosely compared). */
  predicate PasswordClient(c: Client) {
    InArray(Str("password"), GrantList(c))
  }

  /** A client without grant types is neither a personal-access nor a password client. */
  lemma NoGrantsNoFlags(c: Client)
    requires c.grantTypes.Null? || c.grantTypes == Array([])
    ensures !PersonalAccessClient(c) && !PasswordClient(c)
  {
  }

  /** A client whose grant list holds exactly one grant string has the flag of that grant and no other. */
  lemma SingleGrantFlags(c: Client, grant: string)
    requires c.grantTypes == List([Str(grant)])
    ensures PersonalAccessClient(c) <==> grant == "personal_access"
    ensures PasswordClient(c) <==> grant == "password"
  {
    assert GrantList(c) == [Str(grant)];
    assert LooseEq(Str(grant), GrantList(c)[0]);
  }

  /** `redirect`: the entry under key 0 of a non-empty `redirect_uris`, otherwise null. */
  function Redirect(uris: Value): (r: Value)
    ensures !Truthy(uris) ==> r.Null?
    ensures uris.Array? && |uris.entries| > 0 && uris.entries[0].0 == IntKey(0) ==> r == uris.entries[0].1
  {
    if Truthy(uris) then At(uris, 0) else Null
  }

  /** `user_id`: the owner's id. */
  function UserId(c: Client): Value {
    c.ownerId
  }
}
