/**
 * The Eskiz adapter: shapes Eskiz's HTTP answers into the common result and
 * translates Eskiz status words. The adapter never lets a vendor failure
 * escape: every outcome of the call becomes a `sent` or `failed` result.
 */
module Eskiz {
  import opened Php
  import opened Http
  import opened MessageStatus
  import opened SmsResult

  const UnknownError := Str("Unknown error")

  /** The JSON body posted to `/message/sms/send`. */
  function Request(to: string, from: string, text: string, options: Value): (req: Value)
    ensures Get(req, "mobile_phone") == Str(to)
    ensures Get(req, "message") == Str(text)
    ensures Get(req, "from") == Str(from)
    ensures Get(req, "callback_url") == Get(options, "callback_url")
  {
    var entries := [(StrKey("mobile_phone"), Str(to)), (StrKey("message"), Str(text)),
                    (StrKey("from"), Str(from)), (StrKey("callback_url"), Get(options, "callback_url"))];
    LookupFirst(entries, 1);
    LookupFirst(entries, 2);
    LookupFirst(entries, 3);
    Array(entries)
  }

  /** `send`: the result for a given outcome of the HTTP call. */
  function Send(resp: Response): (r: SendResult)
    ensures WellFormed(r)
    ensures r.status == Sent <==> Successful(resp)
    ensures r.status == Sent ==>
              && r.messageId == Get(resp.body, "id")
              && r.cost == Coalesce(Get(resp.body, "price"), Int(0))
              && r.currency == Str("UZS")
              && r.providerResponse == resp.body
    ensures resp.Response? && !Successful(resp) ==>
              r.error == Coalesce(Get(resp.body, "message"), UnknownError)
    ensures resp.Thrown? ==> r.error == Str(resp.message)
    ensures r.providerId.Null? && r.providerName.Null?
  {
    match resp
    case Thrown(m) => Failure(Str(m), Null)
    case Response(_, body) =>
      if Successful(resp) then
        SendResult(Sent, Get(body, "id"), Coalesce(Get(body, "price"), Int(0)), Str("UZS"),
                   Null, body, Null, Null)
      else Failure(Coalesce(Get(body, "message"), UnknownError), body)
  }

  /** `mapStatus`: the case-sensitive Eskiz table used when polling. */
  function MapStatus(s: string): (r: Status)
    ensures r == Sent <==> s == "ACCEPTED"
    ensures r == Delivered <==> s == "DELIVERED"
    ensures r == Failed <==> s == "FAILED" || s == "REJECTED"
    ensures r == Queued <==> s !in {"ACCEPTED", "DELIVERED", "FAILED", "REJECTED"}
  {
    match s
    case "ACCEPTED" => Sent
    case "DELIVERED" => Delivered
    case "FAILED" => Failed
    case "REJECTED" => Failed
    case _ => Queued
  }

  /** `checkStatus`: the result for a given outcome of the status request. */
  function CheckStatus(resp: Response): (r: StatusResult)
    ensures Successful(resp) ==>
              r.status == MapStatus(ToText(Coalesce(Get(resp.body, "status"), Str("unknown"))))
              && r.providerResponse == resp.body
    ensures !Successful(resp) ==> r.status == Unknown && !r.error.Null?
    ensures Successful(resp) ==> r.status != Unknown
  {
    match resp
    case Thrown(m) => StatusResult(Unknown, Str(m), Null)
    case Response(_, body) =>
      if Successful(resp) then
        StatusResult(MapStatus(ToText(Coalesce(Get(body, "status"), Str("unknown")))), Null, body)
      else StatusResult(Unknown, Str("Failed to check status"), body)
  }

  /** `validateConfig`: `api_key` is present and not empty in PHP's sense. */
  predicate ValidateConfig(config: Value) {
    Truthy(Get(config, "api_key"))
  }

  /** A 2xx status answer without a status word goes through 'unknown' and reads as queued. */
  lemma MissingStatusIsQueued(code: int, body: Value)
    requires 200 <= code < 300
    requires Get(body, "status").Null?
    ensures CheckStatus(Response(code, body)).status == Queued
  {
  }

  /** An `api_key` string passes validation unless it is '' or '0'. */
  lemma ValidateConfigApiKey(key: string)
    ensures ValidateConfig(Array([(StrKey("api_key"), Str(key))])) <==> key != "" && key != "0"
  {
  }

  function GetCapabilities(): Capabilities {
    Capabilities(dlr := true, unicode := true, concat := true, flash := false)
  }

  function GetName(): string {
    "eskiz"
  }
}
