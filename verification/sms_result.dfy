/**
 * The common shape of what an SMS adapter answers (the array the PHP adapters
 * return). A field PHP leaves out, or sets to null, is `Null` here, which is
 * exactly what `??` and `isset` observe.
 */
module SmsResult {
  import opened Php
  import opened MessageStatus

  /** Result of `send`, optionally stamped with the provider that delivered it. */
  datatype SendResult = SendResult(
    status: Status,
    messageId: Value,
    cost: Value,
    currency: Value,
    error: Value,
    providerResponse: Value,
    providerId: Value,
    providerName: Value)

  /** Result of `checkStatus`. */
  datatype StatusResult = StatusResult(status: Status, error: Value, providerResponse: Value)

  /** The capability flags an adapter advertises. */
  datatype Capabilities = Capabilities(dlr: bool, unicode: bool, concat: bool, flash: bool)

  function Failure(error: Value, response: Value): (r: SendResult)
    ensures r.status == Failed && r.error == error
  {
    SendResult(Failed, Null, Null, Null, error, response, Null, Null)
  }

  /** A failed send always explains itself; a send result is either sent or failed. */
  predicate WellFormed(r: SendResult) {
    (r.status == Sent || r.status == Failed) && (r.status == Failed ==> !r.error.Null?)
  }
}
