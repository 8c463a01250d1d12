/**
 * The `messages` table: one row per SMS the gateway accepted, with the
 * provider's message id once a vendor took it, the current status, the
 * last error and the price the vendor reported.
 */
module Messages {
  import opened Wrappers
  import opened Php
  import opened MessageStatus
  import Seqs

  datatype Message = Message(
    id: int,
    providerId: Value,
    providerMessageId: Value,
    to: string,
    from: string,
    text: string,
    status: Status,
    errorCode: Value,
    errorMessage: Value,
    price: Value,
    currency: Value,
    createdAt: int)

  /** `Message::find($id)`: the row with that primary key. */
  function Find(ms: seq<Message>, id: int): (r: Option<nat>)
    ensures r.None? <==> forall i :: 0 <= i < |ms| ==> ms[i].id != id
    ensures r.Some? ==> r.value < |ms| && ms[r.value].id == id
  {
    var i := Seqs.FirstIndex(ms, (m: Message) => m.id == id);
    if i < 0 then None else Some(i)
  }

  /**
   * `Message::where('provider_message_id', $v)->first()`. Laravel turns a
   * comparison with null into `whereNull`, so a null `$v` finds the first row
   * that has no provider message id yet.
   */
  function FindByProviderMessageId(ms: seq<Message>, v: Value): (r: Option<nat>)
    ensures r.None? <==> forall i :: 0 <= i < |ms| ==> ms[i].providerMessageId != v
    ensures r.Some? ==> r.value < |ms| && ms[r.value].providerMessageId == v
    ensures r.Some? ==> forall i :: 0 <= i < r.value ==> ms[i].providerMessageId != v
  {
    var i := Seqs.FirstIndex(ms, (m: Message) => m.providerMessageId == v);
    if i < 0 then None else Some(i)
  }
}
