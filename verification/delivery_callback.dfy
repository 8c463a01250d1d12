/**
 * The delivery callback endpoint Eskiz posts status changes to. Its status
 * table upper-cases the vendor word and falls back to `unknown`, which it
 * writes to the row as it is.
 */
module DeliveryCallback {
  import opened Wrappers
  import opened Php
  import opened PhpString
  import opened MessageStatus
  import opened Messages
  import Eskiz

  /** The JSON reply: an HTTP code and the text of its single field. */
  datatype Reply =
    | Reply(code: int, text: string)
      /** An uncaught `TypeError`: the framework's own error page, not the endpoint's JSON. */
    | Crashed

  /** `mapEskizStatus`: case-insensitive, with EXPIRED counted as failed and `unknown` as default. */
  function MapEskizStatus(s: string): (r: Status)
    ensures r == Sent <==> Upper(s) == "ACCEPTED"
    ensures r == Delivered <==> Upper(s) == "DELIVERED"
    ensures r == Failed <==> Upper(s) in {"FAILED", "REJECTED", "EXPIRED"}
    ensures r == Unknown <==> Upper(s) !in {"ACCEPTED", "DELIVERED", "FAILED", "REJECTED", "EXPIRED"}
    ensures r != Queued
  {
    match Upper(s)
    case "ACCEPTED" => Sent
    case "DELIVERED" => Delivered
    case "FAILED" => Failed
    case "REJECTED" => Failed
    case "EXPIRED" => Failed
    case _ => Unknown
  }

  /**
   * The string PHP hands to a `string` parameter in coercive mode; null and
   * arrays raise a `TypeError` instead.
   */
  function AsStringArgument(v: Value): (r: Option<string>)
    ensures r.None? <==> v.Null? || v.Array?
    ensures v.Str? ==> r == Some(v.s)
  {
    if v.Null? || v.Array? then None else Some(ToText(v))
  }

  datatype Outcome = Outcome(reply: Reply, rows: seq<Message>)

  /**
   * `handle` for a request body `request`; `dbFails` stands for an exception
   * the database raises while the callback looks up or updates the row.
   */
  function Handle(ms: seq<Message>, request: Value, dbFails: bool): (o: Outcome)
    ensures !(Has(request, "id") && Has(request, "status")) ==> o == Outcome(Reply(400, "unknown_format"), ms)
    ensures Has(request, "id") && Has(request, "status") && dbFails ==>
              o == Outcome(Reply(500, "Internal server error"), ms)
    ensures Has(request, "id") && Has(request, "status") && !dbFails &&
            FindByProviderMessageId(ms, Get(request, "id")).None? ==>
              o == Outcome(Reply(404, "message_not_found"), ms)
    ensures Has(request, "id") && Has(request, "status") && !dbFails &&
            FindByProviderMessageId(ms, Get(request, "id")).Some? && AsStringArgument(Get(request, "status")).Some? ==>
              o.reply == Reply(200, "success")
    ensures o.reply == Reply(200, "success") || o.rows == ms
    ensures o.reply == Reply(200, "success") ==>
              Has(request, "id") && Has(request, "status") && !dbFails &&
              FindByProviderMessageId(ms, Get(request, "id")).Some? && AsStringArgument(Get(request, "status")).Some?
    ensures o.reply == Reply(200, "success") ==>
              var i := FindByProviderMessageId(ms, Get(request, "id")).value;
              var status := AsStringArgument(Get(request, "status")).value;
              && |o.rows| == |ms|
              && o.rows[i] == ms[i].(status := MapEskizStatus(status), errorMessage := Get(request, "error"))
              && forall j :: 0 <= j < |ms| && j != i ==> o.rows[j] == ms[j]
    ensures o.reply.Crashed? <==>
              Has(request, "id") && Has(request, "status") && !dbFails &&
              FindByProviderMessageId(ms, Get(request, "id")).Some? && AsStringArgument(Get(request, "status")).None?
  {
    if !(Has(request, "id") && Has(request, "status")) then Outcome(Reply(400, "unknown_format"), ms)
    else if dbFails then Outcome(Reply(500, "Internal server error"), ms)
    else
      match FindByProviderMessageId(ms, Get(request, "id"))
      case None => Outcome(Reply(404, "message_not_found"), ms)
      case Some(i) =>
        match AsStringArgument(Get(request, "status"))
        case None => Outcome(Crashed, ms)
        case Some(status) =>
          var row := ms[i].(status := MapEskizStatus(status), errorMessage := Get(request, "error"));
          Outcome(Reply(200, "success"), ms[i := row])
  }

  /** Upper-casing forgets an earlier lower-casing. */
  lemma UpperOfLower(s: string)
    ensures Upper(Lower(s)) == Upper(s)
  {
    assert forall i :: 0 <= i < |s| ==> Upper(Lower(s))[i] == Upper(s)[i];
  }

  /** The callback's table does not see letter case. */
  lemma MapEskizStatusIgnoresCase(s: string)
    ensures MapEskizStatus(Lower(s)) == MapEskizStatus(s)
    ensures MapEskizStatus(Upper(s)) == MapEskizStatus(s)
  {
    UpperOfLower(s);
    UpperIdempotent(s);
  }

  /** A string without lower-case letters is its own upper-case form. */
  lemma UpperFixed(s: string)
    requires forall i :: 0 <= i < |s| ==> !('a' <= s[i] <= 'z')
    ensures Upper(s) == s
  {
  }

  /**
   * The callback's table and the polling table of the Eskiz adapter agree
   * exactly on the four upper-case words both list; on every other string
   * they part ways (EXPIRED, any lower-case spelling, any unlisted word).
   */
  lemma CallbackAndPollingTables(s: string)
    ensures MapEskizStatus(s) == Eskiz.MapStatus(s) <==> s in {"ACCEPTED", "DELIVERED", "FAILED", "REJECTED"}
  {
    if s in {"ACCEPTED", "DELIVERED", "FAILED", "REJECTED"} {
      UpperFixed(s);
    }
  }

  /** A callback repeated with the same body finds the same row and leaves it as the first one did. */
  lemma HandleIdempotent(ms: seq<Message>, request: Value)
    requires Handle(ms, request, false).reply == Reply(200, "success")
    ensures Handle(Handle(ms, request, false).rows, request, false).rows == Handle(ms, request, false).rows
  {
    var once := Handle(ms, request, false).rows;
    var i := FindByProviderMessageId(ms, Get(request, "id")).value;
    assert once[i].providerMessageId == Get(request, "id");
    assert forall j :: 0 <= j < i ==> once[j] == ms[j];
  }
}
