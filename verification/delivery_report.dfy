/**
 * `ProcessDeliveryReportJob`: a queued delivery report moves the matching
 * message to a new status. Its table lower-cases the vendor word and falls
 * back to `queued`, so it only ever writes a status the column admits.
 */
module DeliveryReport {
  import opened Wrappers
  import opened Php
  import opened PhpString
  import opened MessageStatus
  import opened Messages
  import DeliveryCallback
  import Eskiz

  /** `mapStatus`: the lower-cased word looked up in the report table. */
  function MapStatus(s: string): (r: Status)
    ensures r == Delivered <==> Lower(s) in {"delivered", "success"}
    ensures r == Failed <==> Lower(s) in {"failed", "error", "rejected"}
    ensures r == Sent <==> Lower(s) in {"sent", "accepted"}
    ensures r == Queued <==> Lower(s) !in {"delivered", "success", "failed", "error", "rejected", "sent", "accepted"}
    ensures InColumn(r)
  {
    match Lower(s)
    case "delivered" => Delivered
    case "success" => Delivered
    case "failed" => Failed
    case "error" => Failed
    case "rejected" => Failed
    case "sent" => Sent
    case "accepted" => Sent
    case _ => Queued
  }

  /**
   * `handle` with report data `data`. `None` is a run that raised: a truthy
   * array given as the status cannot be passed to `mapStatus`.
   */
  function Handle(ms: seq<Message>, data: Value): (r: Option<seq<Message>>)
    ensures !Truthy(Get(data, "message_id")) || !Truthy(Get(data, "status")) ==> r == Some(ms)
    ensures FindByProviderMessageId(ms, Get(data, "message_id")).None? ==> r == Some(ms)
    ensures r.None? <==>
              Truthy(Get(data, "message_id")) && Truthy(Get(data, "status"))
              && FindByProviderMessageId(ms, Get(data, "message_id")).Some? && Get(data, "status").Array?
    ensures Truthy(Get(data, "message_id")) && Truthy(Get(data, "status")) && !Get(data, "status").Array?
            && FindByProviderMessageId(ms, Get(data, "message_id")).Some? ==>
              var i := FindByProviderMessageId(ms, Get(data, "message_id")).value;
              r == Some(ms[i := ms[i].(status := MapStatus(ToText(Get(data, "status"))))])
    ensures r.Some? && r.value != ms ==>
              var i := FindByProviderMessageId(ms, Get(data, "message_id")).value;
              && Truthy(Get(data, "message_id")) && Truthy(Get(data, "status"))
              && r.value == ms[i := ms[i].(status := MapStatus(ToText(Get(data, "status"))))]
  {
    var messageId := Get(data, "message_id");
    var status := Get(data, "status");
    if !Truthy(messageId) || !Truthy(status) then Some(ms)
    else
      match FindByProviderMessageId(ms, messageId)
      case None => Some(ms)
      case Some(i) =>
        if status.Array? then None
        else Some(ms[i := ms[i].(status := MapStatus(ToText(status)))])
  }

  /** Rows with the same provider message ids, position by position, are found alike. */
  lemma FindAlike(ms: seq<Message>, ms': seq<Message>, v: Value)
    requires |ms| == |ms'| && forall i :: 0 <= i < |ms| ==> ms[i].providerMessageId == ms'[i].providerMessageId
    ensures FindByProviderMessageId(ms, v) == FindByProviderMessageId(ms', v)
  {
  }

  /** Processing the same report a second time changes nothing more. */
  lemma HandleIdempotent(ms: seq<Message>, data: Value)
    requires Handle(ms, data).Some?
    ensures Handle(Handle(ms, data).value, data) == Handle(ms, data)
  {
    var ms' := Handle(ms, data).value;
    FindAlike(ms, ms', Get(data, "message_id"));
  }

  /** Lower-casing forgets an earlier upper-casing. */
  lemma LowerOfUpper(s: string)
    ensures Lower(Upper(s)) == Lower(s)
  {
    assert forall i :: 0 <= i < |s| ==> Lower(Upper(s))[i] == Lower(s)[i];
  }

  /** The report table does not see letter case. */
  lemma MapStatusIgnoresCase(s: string)
    ensures MapStatus(Lower(s)) == MapStatus(s)
    ensures MapStatus(Upper(s)) == MapStatus(s)
  {
    LowerIdempotent(s);
    LowerOfUpper(s);
  }

  /** Only the status of the matched row changes, and only to a value the column admits. */
  lemma OnlyStatusChanges(ms: seq<Message>, data: Value, i: nat)
    requires Handle(ms, data).Some? && i < |ms|
    ensures |Handle(ms, data).value| == |ms|
    ensures Handle(ms, data).value[i].(status := ms[i].status) == ms[i]
    ensures Handle(ms, data).value[i] != ms[i] ==>
              InColumn(Handle(ms, data).value[i].status)
              && FindByProviderMessageId(ms, Get(data, "message_id")) == Some(i)
  {
  }

  /**
   * The three vendor-status tables of the gateway tell different stories
   * about the same words: a worked example beside the all-inputs statement
   * `DeliveryCallback.CallbackAndPollingTables`.
   */
  lemma ThreeTables()
    ensures Eskiz.MapStatus("EXPIRED") == Queued
    ensures DeliveryCallback.MapEskizStatus("EXPIRED") == Failed
    ensures MapStatus("EXPIRED") == Queued
    ensures Eskiz.MapStatus("delivered") == Queued
    ensures DeliveryCallback.MapEskizStatus("delivered") == Delivered
    ensures MapStatus("delivered") == Delivered
    ensures Eskiz.MapStatus("success") == Queued
    ensures DeliveryCallback.MapEskizStatus("success") == Unknown
    ensures MapStatus("success") == Delivered
  {
    assert Upper("EXPIRED") == "EXPIRED";
    assert Lower("EXPIRED") == "expired";
    assert Upper("delivered") == "DELIVERED";
    assert Lower("delivered") == "delivered";
    assert Upper("success") == "SUCCESS";
    assert Lower("success") == "success";
  }
}
