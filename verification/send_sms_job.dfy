/**
 * `SendSmsJob`: sends one stored message through the dispatcher and writes
 * the outcome back onto its row. The dispatcher's result is an input here.
 */
module SendSmsJob {
  import opened Wrappers
  import opened Php
  import opened MessageStatus
  import opened SmsResult
  import opened Messages
  import SmsService
  import Http

  /** The row after both `update` calls of the job. */
  function Record(m: Message, r: SendResult): (u: Message)
    ensures u.id == m.id && u.to == m.to && u.from == m.from && u.text == m.text && u.createdAt == m.createdAt
    ensures u.status == r.status
    ensures u.providerMessageId == r.messageId
    ensures u.errorCode == r.error && u.errorMessage == r.error
    ensures u.price == r.cost
    ensures u.currency == (if r.currency.Null? then Str("USD") else r.currency)
    ensures u.providerId == (if r.status == Sent && !r.providerId.Null? then r.providerId else m.providerId)
  {
    var written := m.(status := r.status,
                      providerMessageId := Coalesce(r.messageId, Null),
                      errorCode := Coalesce(r.error, Null),
                      errorMessage := Coalesce(r.error, Null),
                      price := Coalesce(r.cost, Null),
                      currency := Coalesce(r.currency, Str("USD")));
    if r.status == Sent && IsSetValue(r.providerId) then written.(providerId := r.providerId) else written
  }

  /** `isset($x)` on a plain value. */
  predicate IsSetValue(v: Value) {
    !v.Null?
  }

  /** `handle`: the messages table after the job ran with dispatch result `r`. */
  function Handle(ms: seq<Message>, messageId: int, r: SendResult): (out: seq<Message>)
    ensures Find(ms, messageId).None? ==> out == ms
    ensures |out| == |ms|
    ensures forall i :: 0 <= i < |ms| && ms[i].id != messageId ==> out[i] == ms[i]
    ensures Find(ms, messageId).Some? ==>
              var i := Find(ms, messageId).value;
              out[i] == Record(ms[i], r)
  {
    match Find(ms, messageId)
    case None => ms
    case Some(i) => ms[i := Record(ms[i], r)]
  }

  /** Recording the same result twice leaves the row as recording it once. */
  lemma RecordIdempotent(m: Message, r: SendResult)
    ensures Record(Record(m, r), r) == Record(m, r)
  {
  }

  /** A redelivered job with the same result changes nothing further. */
  lemma HandleIdempotent(ms: seq<Message>, messageId: int, r: SendResult)
    ensures Handle(Handle(ms, messageId, r), messageId, r) == Handle(ms, messageId, r)
  {
    var once := Handle(ms, messageId, r);
    match Find(ms, messageId)
    case None =>
    case Some(i) =>
      RecordIdempotent(ms[i], r);
      assert once[i := Record(once[i], r)] == once;
  }

  /**
   * Written back through the job, a dispatch that went out names the provider
   * whose credential delivered it; a dispatch that failed everywhere leaves
   * the row's provider alone and records the failover error in both error
   * columns.
   */
  lemma DispatchRecorded(credentials: seq<SmsService.Credential>, out: SmsService.Outbound, cache: SmsService.Cache,
                         vendor: (SmsService.Credential, Value) -> Http.Response, m: Message)
    ensures var d := SmsService.SendSms(credentials, out, cache, vendor);
            var u := Record(m, d.result);
            && (u.status == Sent ==>
                  var last := d.attempts[|d.attempts| - 1];
                  u.providerId == Int(last.credential.provider.id)
                  && u.providerMessageId == last.result.messageId)
            && (u.status == Failed ==>
                  u.providerId == m.providerId && u.errorCode == u.errorMessage && !u.errorMessage.Null?)
            && (u.status == Sent || u.status == Failed)
  {
  }
}
