/**
 * The PlayMobile adapter. A 2xx answer counts as sent only when the first
 * message entry reports the 'PENDING' group; there is no status endpoint.
 */
module PlayMobile {
  import opened Php
  import opened Http
  import opened MessageStatus
  import opened SmsResult

  /**
   * The message id sent to PlayMobile: the caller's `message_id` option, or
   * the generated id (`uniqid()`, supplied here as `generated`).
   */
  function OutgoingMessageId(options: Value, generated: string): (id: Value)
    ensures IsSet(options, "message_id") ==> id == Get(options, "message_id")
    ensures !IsSet(options, "message_id") ==> id == Str(generated)
  {
    Coalesce(Get(options, "message_id"), Str(generated))
  }

  /** The JSON body posted to the broker API: one message to one recipient. */
  function Request(to: string, from: string, text: string, options: Value, generated: string): (req: Value)
    ensures Get(At(Get(req, "messages"), 0), "recipient") == Str(to)
    ensures Get(At(Get(req, "messages"), 0), "message-id") == OutgoingMessageId(options, generated)
  {
    var content := Array([(StrKey("text"), Str(text))]);
    var sms := Array([(StrKey("originator"), Str(from)), (StrKey("content"), content)]);
    var entries := [(StrKey("recipient"), Str(to)),
                    (StrKey("message-id"), OutgoingMessageId(options, generated)),
                    (StrKey("sms"), sms)];
    LookupFirst(entries, 1);
    var message := Array(entries);
    var messages := List([message]);
    LookupFirst(messages.entries, 0);
    Array([(StrKey("messages"), messages)])
  }

  /** The first message entry of a response body, when there is one. */
  function FirstMessage(body: Value): Value {
    At(Get(body, "messages"), 0)
  }

  /**
   * Reading `$container[k]` outside `??`. A missing key, or a null, boolean
   * or integer container, raises a PHP warning, which Laravel turns into an
   * `ErrorException` carrying the warning's text (PHP 8 wording). A string
   * container is a `TypeError` in PHP 8, which the adapter's catch does not
   * stop; it is given the same outcome here.
   */
  datatype Read = Read(v: Value) | Raises(message: string)

  function ReadKey(container: Value, k: string): (r: Read)
    ensures r.Read? ==> container.Array? && r.v == Get(container, k)
    ensures container.Array? && Has(container, k) ==> r == Read(Get(container, k))
  {
    match container
    case Array(es) =>
      var found := Lookup(es, StrKey(k));
      if found.Some? then Read(found.value) else Raises("Undefined array key \"" + k + "\"")
    case Null => Raises("Trying to access array offset on value of type null")
    case Bool(_) => Raises("Trying to access array offset on value of type bool")
    case Int(_) => Raises("Trying to access array offset on value of type int")
    case Str(_) => Raises("Illegal string offset \"" + k + "\"")
  }

  /** `$message['status']['group-name']`: the delivery group of a message entry. */
  function GroupName(message: Value): (r: Read)
    ensures r.Read? ==> r.v == Get(Get(message, "status"), "group-name")
  {
    var status := ReadKey(message, "status");
    if status.Raises? then status else ReadKey(status.v, "group-name")
  }

  /** `$message['status']['description'] ?? 'Unknown error'` */
  function Description(message: Value): Value {
    Coalesce(Get(Get(message, "status"), "description"), Str("Unknown error"))
  }

  /** `send`: the result for a given outcome of the HTTP call. */
  function Send(resp: Response): (r: SendResult)
    ensures WellFormed(r)
    ensures r.status == Sent <==>
              Successful(resp) && Truthy(FirstMessage(resp.body))
              && GroupName(FirstMessage(resp.body)) == Read(Str("PENDING"))
    ensures r.status == Sent ==>
              && r.messageId == Get(FirstMessage(resp.body), "message-id")
              && r.cost == Int(0)
              && r.currency == Str("UZS")
              && r.providerResponse == resp.body
    ensures Successful(resp) && !Truthy(FirstMessage(resp.body)) ==>
              r == Failure(Description(FirstMessage(resp.body)), resp.body)
    ensures Successful(resp) && Truthy(FirstMessage(resp.body)) && GroupName(FirstMessage(resp.body)).Raises? ==>
              r == Failure(Str(GroupName(FirstMessage(resp.body)).message), Null)
    ensures Successful(resp) && r.status == Failed && GroupName(FirstMessage(resp.body)).Read? ==>
              r.error == Description(FirstMessage(resp.body))
    ensures resp.Response? && !Successful(resp) ==> r == Failure(Str("HTTP request failed"), resp.body)
    ensures resp.Thrown? ==> r == Failure(Str(resp.message), Null)
    ensures r.providerId.Null? && r.providerName.Null?
  {
    match resp
    case Thrown(m) => Failure(Str(m), Null)
    case Response(_, body) =>
      if !Successful(resp) then Failure(Str("HTTP request failed"), body)
      else
        var message := FirstMessage(body);
        if !Truthy(message) then Failure(Description(message), body)
        else
          var group := GroupName(message);
          if group.Raises? then Failure(Str(group.message), Null)
          else if group.v == Str("PENDING") then
            SendResult(Sent, Get(message, "message-id"), Int(0), Str("UZS"), Null, body, Null, Null)
          else Failure(Description(message), body)
  }

  /** A first entry without a status object makes PHP raise, so the send fails with PHP's text and no response. */
  lemma MissingStatusRaises(code: int, id: Value)
    requires 200 <= code < 300
    ensures var message := Array([(StrKey("message-id"), id)]);
            var body := Array([(StrKey("messages"), List([message]))]);
            Send(Response(code, body)) == Failure(Str("Undefined array key \"status\""), Null)
  {
    var message := Array([(StrKey("message-id"), id)]);
    var messages := List([message]);
    LookupFirst(messages.entries, 0);
    var body := Array([(StrKey("messages"), messages)]);
    assert FirstMessage(body) == message;
  }

  /** `checkStatus`: not offered by the basic API, whatever the id. */
  function CheckStatus(messageId: string): (r: StatusResult)
    ensures r.status == Unknown && r.error == Str("Status check not implemented for PlayMobile")
  {
    StatusResult(Unknown, Str("Status check not implemented for PlayMobile"), Null)
  }

  /** `validateConfig`: both `username` and `password` are non-empty. */
  predicate ValidateConfig(config: Value) {
    Truthy(Get(config, "username")) && Truthy(Get(config, "password"))
  }

  function GetCapabilities(): Capabilities {
    Capabilities(dlr := false, unicode := true, concat := true, flash := false)
  }

  function GetName(): string {
    "playmobile"
  }
}
