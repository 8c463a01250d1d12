/**
 * Client authentication: the OAuth client check made when a token is
 * issued, and the bearer-token check guarding the API. Decoding the JWT
 * payload (base64 and JSON) is a parameter.
 */
module ClientAuth {
  import opened Wrappers
  import opened Php
  import opened PhpString

  /** The active client row `findActive` returns. */
  datatype ClientRecord = ClientRecord(secret: Value, grantTypes: Value)

  /**
   * The grant list of a client: the array cast as it is, a string decoded as
   * JSON (`decode`), and the empty list for null or an undecodable string.
   * `None` is a decoded scalar, on which `in_array` raises.
   */
  function GrantList(grantTypes: Value, decode: string -> Value): (r: Option<seq<Value>>)
    ensures grantTypes.Null? ==> r == Some([])
    ensures grantTypes.Array? ==> r == Some(Items(grantTypes))
    ensures !grantTypes.Null? && !grantTypes.Array? ==>
              var decoded := decode(ToText(grantTypes));
              && (decoded.Array? ==> r == Some(Items(decoded)))
              && (decoded.Null? ==> r == Some([]))
              && (!decoded.Null? && !decoded.Array? ==> r.None?)
  {
    var g := Coalesce(grantTypes, Array([]));
    if g.Array? then Some(Items(g))
    else
      var decoded := Coalesce(decode(ToText(g)), Array([]));
      if decoded.Array? then Some(Items(decoded)) else None
  }

  /** The branch the repository takes for `client_credentials`. */
  function CheckClientCredentials(grants: seq<Value>): bool {
    InArray(Str("client_credentials"), grants)
  }

  /**
   * `validateClient`. `grantType` and `secret` are the nullable strings of
   * the signature (Null or a `Str`); `None` is a run that raised.
   */
  function ValidateClient(record: Option<ClientRecord>, secret: Value, grantType: Value,
                          decode: string -> Value): (r: Option<bool>)
    ensures record.None? || !Truthy(secret) ==> r == Some(false)
    ensures record.Some? && Truthy(secret) && secret != record.value.secret ==> r == Some(false)
    ensures r == Some(true) <==>
              record.Some? && Truthy(secret) && secret == record.value.secret
              && GrantList(record.value.grantTypes, decode).Some?
              && InArray(grantType, GrantList(record.value.grantTypes, decode).value)
    ensures r.None? ==> GrantList(record.value.grantTypes, decode).None?
  {
    if record.None? || !Truthy(secret) then Some(false)
    else if secret != record.value.secret then Some(false)
    else
      match GrantList(record.value.grantTypes, decode)
      case None => None
      case Some(grants) =>
        if grantType == Str("client_credentials") then Some(CheckClientCredentials(grants))
        else Some(InArray(grantType, grants))
  }

  /** The special case for client credentials answers as the general membership test would. */
  lemma ClientCredentialsBranchAgrees(grants: seq<Value>)
    ensures CheckClientCredentials(grants) == InArray(Str("client_credentials"), grants)
  {
  }

  /** A client without grants is refused whatever it asks for. */
  lemma NoGrantsRefused(record: ClientRecord, secret: Value, grantType: Value, decode: string -> Value)
    requires record.grantTypes.Null? || record.grantTypes == Array([])
    ensures ValidateClient(Some(record), secret, grantType, decode) == Some(false)
  {
  }

  /** `getTokenFromRequest`: the text after "Bearer " in a truthy Authorization header. */
  function TokenFromHeader(header: Option<string>): (r: Option<string>)
    ensures r.Some? <==> header.Some? && Truthy(Str(header.value)) && StartsWith(header.value, "Bearer ")
    ensures r.Some? ==> header.value == "Bearer " + r.value
  {
    if header.None? || !Truthy(Str(header.value)) || !StartsWith(header.value, "Bearer ") then None
    else
      assert header.value == header.value[..7] + header.value[7..];
      Some(header.value[7..])
  }

  /** A row of the access-token table. */
  datatype AccessToken = AccessToken(id: Value, revoked: bool, expiresAt: Option<int>, clientId: Value)

  /** The middleware's answer: a 401 with a message, or the request let through for a client. */
  datatype Verdict = Unauthorized(message: string) | Pass(clientId: Value)

  /** `Token::where('id', $jti)->first()` */
  function FindToken(tokens: seq<AccessToken>, jti: Value): (r: Option<AccessToken>)
    ensures r.Some? ==> r.value in tokens && r.value.id == jti
    ensures r.None? <==> forall i :: 0 <= i < |tokens| ==> tokens[i].id != jti
  {
    if |tokens| == 0 then None
    else if tokens[0].id == jti then Some(tokens[0])
    else FindToken(tokens[1..], jti)
  }

  /** `handle`: the checks in the order the middleware makes them. */
  function Authenticate(header: Option<string>, payloadOf: string -> Value, tokens: seq<AccessToken>,
                        now: int): (v: Verdict)
    ensures TokenFromHeader(header).None? || !Truthy(Str(TokenFromHeader(header).value)) ==>
              v == Unauthorized("Unauthenticated.")
    ensures v.Pass? ==>
              var token := TokenFromHeader(header).value;
              var parts := Explode('.', token);
              && Truthy(Str(token))
              && |parts| == 3
              && Truthy(payloadOf(parts[1])) && IsSet(payloadOf(parts[1]), "jti")
              && var row := FindToken(tokens, Get(payloadOf(parts[1]), "jti"));
                 row.Some? && !row.value.revoked
                 && !(row.value.expiresAt.Some? && row.value.expiresAt.value < now)
                 && v.clientId == row.value.clientId
    ensures v == Unauthorized("Invalid token format.") <==>
              TokenFromHeader(header).Some? && Truthy(Str(TokenFromHeader(header).value))
              && |Explode('.', TokenFromHeader(header).value)| != 3
    ensures v == Unauthorized("Token expired.") ==>
              exists t :: t in tokens && t.expiresAt.Some? && t.expiresAt.value < now && !t.revoked
    ensures TokenFromHeader(header).Some? && Truthy(Str(TokenFromHeader(header).value))
            && |Explode('.', TokenFromHeader(header).value)| == 3 ==>
              var payload := payloadOf(Explode('.', TokenFromHeader(header).value)[1]);
              && (v == Unauthorized("Invalid token payload.") <==> !Truthy(payload) || !IsSet(payload, "jti"))
              && (Truthy(payload) && IsSet(payload, "jti") ==>
                    var row := FindToken(tokens, Get(payload, "jti"));
                    && (row.None? || row.value.revoked ==> v == Unauthorized("Unauthenticated."))
                    && ((row.Some? && !row.value.revoked && row.value.expiresAt.Some? && row.value.expiresAt.value < now)
                          ==> v == Unauthorized("Token expired."))
                    && ((row.Some? && !row.value.revoked && !(row.value.expiresAt.Some? && row.value.expiresAt.value < now))
                          ==> v == Pass(row.value.clientId)))
  {
    match TokenFromHeader(header)
    case None => Unauthorized("Unauthenticated.")
    case Some(token) =>
      if !Truthy(Str(token)) then Unauthorized("Unauthenticated.")
      else
        var parts := Explode('.', token);
        if |parts| != 3 then Unauthorized("Invalid token format.")
        else
          var payload := payloadOf(parts[1]);
          if !Truthy(payload) || !IsSet(payload, "jti") then Unauthorized("Invalid token payload.")
          else
            match FindToken(tokens, Get(payload, "jti"))
            case None => Unauthorized("Unauthenticated.")
            case Some(row) =>
              if row.revoked then Unauthorized("Unauthenticated.")
              else if row.expiresAt.Some? && row.expiresAt.value < now then Unauthorized("Token expired.")
              else Pass(row.clientId)
  }

  /** A bearer token without dots is one piece, never three, so it is refused for its format. */
  lemma DotlessTokenRefused(token: string, payloadOf: string -> Value, tokens: seq<AccessToken>, now: int)
    requires '.' !in token && Truthy(Str(token))
    ensures Authenticate(Some("Bearer " + token), payloadOf, tokens, now) == Unauthorized("Invalid token format.")
  {
    ExplodeImplode('.', token);
    CountAbsent('.', token);
    assert ("Bearer " + token)[7..] == token;
    assert StartsWith("Bearer " + token, "Bearer ") by {
      assert ("Bearer " + token)[..7] == "Bearer ";
    }
  }
}
