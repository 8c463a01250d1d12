/**
 * `EskizTemplateService`: fetching templates from Eskiz, submitting one for
 * approval, and copying the fetched ones into the local table without
 * creating a row twice. The HTTP outcomes and the provider's current access
 * token are inputs.
 */
module TemplateService {
  import opened Wrappers
  import opened Php
  import opened Http
  import opened Templates
  import opened Registry
  import opened Tokens
  import Seqs
  import PhpString

  /** `mapEskizStatus`: the three known verdicts map to themselves, anything else reads as pending. */
  function MapEskizStatus(s: string): (r: string)
    ensures r in {"approved", "pending", "rejected"}
    ensures s in {"approved", "pending", "rejected"} ==> r == s
    ensures s !in {"approved", "pending", "rejected"} ==> r == "pending"
  {
    match s
    case "approved" => "approved"
    case "pending" => "pending"
    case "rejected" => "rejected"
    case _ => "pending"
  }

  /**
   * `getTemplatesFromEskiz`: the decoded body of a 2xx answer, or the empty
   * list on any other answer or on an exception. `None` is the `TypeError`
   * a 2xx body that is not a JSON array or object raises against the
   * declared `array` return type.
   */
  function GetTemplates(resp: Response): (r: Option<seq<Value>>)
    ensures !Successful(resp) ==> r == Some([])
    ensures Successful(resp) && resp.body.Array? ==> r == Some(Items(resp.body))
    ensures r.None? <==> Successful(resp) && !resp.body.Array?
  {
    if !Successful(resp) then Some([])
    else if resp.body.Array? then Some(Items(resp.body))
    else None
  }

  datatype Submitted = SubmitSuccess(providerTemplateId: Value) | SubmitFailed(error: Value)

  /** `submitTemplateToEskiz`: the answer to the caller, and the template row afterwards. */
  function Submit(t: Template, resp: Response): (r: (Submitted, Template))
    ensures Successful(resp) <==> r.0.SubmitSuccess?
    ensures r.0.SubmitSuccess? ==>
              r.0.providerTemplateId == Get(resp.body, "id")
              && r.1 == t.(providerTemplateId := Get(resp.body, "id"), status := "pending")
    ensures r.0.SubmitFailed? ==> r.1 == t
    ensures resp.Response? && !Successful(resp) ==>
              r.0.error == Coalesce(Get(resp.body, "message"), Str("Unknown error"))
    ensures resp.Thrown? ==> r.0.error == Str(resp.message)
  {
    match resp
    case Thrown(m) => (SubmitFailed(Str(m)), t)
    case Response(_, body) =>
      if Successful(resp) then
        var id := Get(body, "id");
        (SubmitSuccess(id), t.(providerTemplateId := id, status := "pending"))
      else (SubmitFailed(Coalesce(Get(body, "message"), Str("Unknown error"))), t)
  }

  /**
   * The provider's row for a vendor template id; a null id matches a row
   * without one (`where` with null is `whereNull`).
   */
  function FindTemplate(rows: seq<Template>, providerId: int, templateId: Value): (r: int)
    ensures -1 <= r < |rows|
    ensures r == -1 <==> forall i :: 0 <= i < |rows| ==> !(rows[i].providerId == providerId && rows[i].providerTemplateId == templateId)
    ensures r >= 0 ==> rows[r].providerId == providerId && rows[r].providerTemplateId == templateId
  {
    Seqs.FirstIndex(rows, (t: Template) => t.providerId == providerId && t.providerTemplateId == templateId)
  }

  predicate Known(rows: seq<Template>, providerId: int, templateId: Value) {
    FindTemplate(rows, providerId, templateId) >= 0
  }

  /** A row that is already there is still there after more rows are added. */
  lemma KnownExtends(rows: seq<Template>, extra: seq<Template>, providerId: int, templateId: Value)
    requires Known(rows, providerId, templateId)
    ensures Known(rows + extra, providerId, templateId)
  {
    var k := FindTemplate(rows, providerId, templateId);
    assert (rows + extra)[k] == rows[k];
  }

  /**
   * A fetched entry whose creation raises: reading its `status` key without
   * `??` fails when the key is missing or the entry is not an array, and an
   * array status cannot be passed to `mapEskizStatus`.
   */
  predicate CreationRaises(d: Value) {
    !Has(d, "status") || Get(d, "status").Array?
  }

  /** An id above every existing row's. */
  function NextId(rows: seq<Template>): (id: int)
    ensures forall i :: 0 <= i < |rows| ==> rows[i].id < id
  {
    if |rows| == 0 then 1
    else var rest := NextId(rows[1..]); if rows[0].id < rest then rest else rows[0].id + 1
  }

  /** The row `SmsTemplate::create` inserts for a fetched entry. */
  function NewRow(rows: seq<Template>, providerId: int, d: Value, now: int): (t: Template)
    requires !CreationRaises(d)
    ensures t.providerId == providerId && t.providerTemplateId == Get(d, "id")
    ensures t.name == Coalesce(Get(d, "name"), Str("Unknown Template"))
    ensures t.content == Coalesce(Get(d, "text"), Str(""))
    ensures t.status in {"approved", "pending", "rejected"}
    ensures t.approvedAt.Some? <==> Get(d, "status") == Str("approved")
    ensures t.approvedAt.Some? ==> t.approvedAt.value == now && IsApproved(t)
    ensures forall i :: 0 <= i < |rows| ==> rows[i].id != t.id
  {
    var status := Get(d, "status");
    Template(NextId(rows), providerId,
             Coalesce(Get(d, "name"), Str("Unknown Template")),
             Coalesce(Get(d, "text"), Str("")),
             MapEskizStatus(ToText(Coalesce(status, Str("pending")))),
             Get(d, "id"),
             if status == Str("approved") then Some(now) else None)
  }

  datatype Created = Created(rows: seq<Template>, synced: nat, raised: bool)

  /**
   * Every row past `rows` in `out` was created for a fetched entry whose
   * template id no earlier row of the provider had, and is that entry's new row.
   */
  predicate CreatedOnlyMissing(rows: seq<Template>, out: seq<Template>, providerId: int, items: seq<Value>, now: int) {
    forall j :: |rows| <= j < |out| ==>
      && !Known(out[..j], providerId, out[j].providerTemplateId)
      && exists k :: 0 <= k < |items| && !CreationRaises(items[k]) && out[j] == NewRow(out[..j], providerId, items[k], now)
  }

  /** A row created for a later entry was created for an entry of the whole list. */
  lemma OnlyMissingWiden(rows: seq<Template>, out: seq<Template>, providerId: int, items: seq<Value>, now: int)
    requires |items| > 0 && CreatedOnlyMissing(rows, out, providerId, items[1..], now)
    ensures CreatedOnlyMissing(rows, out, providerId, items, now)
  {
    forall j | |rows| <= j < |out|
      ensures !Known(out[..j], providerId, out[j].providerTemplateId)
      ensures exists k :: 0 <= k < |items| && !CreationRaises(items[k]) && out[j] == NewRow(out[..j], providerId, items[k], now)
    {
      var k :| 0 <= k < |items[1..]| && !CreationRaises(items[1..][k]) && out[j] == NewRow(out[..j], providerId, items[1..][k], now);
      assert items[1..][k] == items[k + 1];
    }
  }

  /** The row created for the first entry, followed by rows created for the later ones. */
  lemma OnlyMissingCons(rows: seq<Template>, row: Template, out: seq<Template>, providerId: int,
                        items: seq<Value>, now: int)
    requires |items| > 0 && !CreationRaises(items[0]) && !Known(rows, providerId, Get(items[0], "id"))
    requires row == NewRow(rows, providerId, items[0], now)
    requires |rows| + 1 <= |out| && out[..|rows| + 1] == rows + [row]
    requires CreatedOnlyMissing(rows + [row], out, providerId, items[1..], now)
    ensures CreatedOnlyMissing(rows, out, providerId, items, now)
  {
    OnlyMissingWiden(rows + [row], out, providerId, items, now);
    forall j | |rows| <= j < |out|
      ensures !Known(out[..j], providerId, out[j].providerTemplateId)
      ensures exists k :: 0 <= k < |items| && !CreationRaises(items[k]) && out[j] == NewRow(out[..j], providerId, items[k], now)
    {
      if j == |rows| {
        assert out[..j] == (out[..|rows| + 1])[..j] == rows;
        assert out[j] == (out[..|rows| + 1])[j] == row;
        assert !CreationRaises(items[0]) && out[j] == NewRow(out[..j], providerId, items[0], now);
      }
    }
  }

  /**
   * The sync loop: create a row for every fetched entry not yet known, in
   * order, and only for those.
   */
  function CreateMissing(rows: seq<Template>, providerId: int, items: seq<Value>, now: int): (c: Created)
    ensures |rows| <= |c.rows| && c.rows[..|rows|] == rows
    ensures !c.raised ==> c.synced == |c.rows| - |rows|
    ensures c.synced <= |items| && |c.rows| - |rows| <= |items|
    ensures CreatedOnlyMissing(rows, c.rows, providerId, items, now)
    decreases |items|
  {
    if |items| == 0 then Created(rows, 0, false)
    else
      var d := items[0];
      if Known(rows, providerId, Get(d, "id")) then
        var rest := CreateMissing(rows, providerId, items[1..], now);
        OnlyMissingWiden(rows, rest.rows, providerId, items, now);
        rest
      else if CreationRaises(d) then Created(rows, 0, true)
      else
        var row := NewRow(rows, providerId, d, now);
        var rest := CreateMissing(rows + [row], providerId, items[1..], now);
        assert rest.rows[..|rows|] == (rest.rows[..|rows| + 1])[..|rows|];
        OnlyMissingCons(rows, row, rest.rows, providerId, items, now);
        rest.(synced := rest.synced + 1)
  }

  /** The table the loop continues with after the first fetched entry. */
  function AfterFirst(rows: seq<Template>, providerId: int, d: Value, now: int): (r: seq<Template>)
    requires Known(rows, providerId, Get(d, "id")) || !CreationRaises(d)
    ensures Known(r, providerId, Get(d, "id"))
  {
    if Known(rows, providerId, Get(d, "id")) then rows
    else
      var row := NewRow(rows, providerId, d, now);
      assert (rows + [row])[|rows|] == row;
      rows + [row]
  }

  lemma CreateMissingStep(rows: seq<Template>, providerId: int, items: seq<Value>, now: int)
    requires |items| > 0 && !CreateMissing(rows, providerId, items, now).raised
    ensures Known(rows, providerId, Get(items[0], "id")) || !CreationRaises(items[0])
    ensures CreateMissing(rows, providerId, items, now).rows
            == CreateMissing(AfterFirst(rows, providerId, items[0], now), providerId, items[1..], now).rows
    ensures !CreateMissing(AfterFirst(rows, providerId, items[0], now), providerId, items[1..], now).raised
  {
  }

  /** After a loop that did not raise, every fetched entry has its row. */
  lemma {:induction false} CreateCovers(rows: seq<Template>, providerId: int, items: seq<Value>, now: int)
    requires !CreateMissing(rows, providerId, items, now).raised
    ensures forall k :: 0 <= k < |items| ==> Known(CreateMissing(rows, providerId, items, now).rows, providerId, Get(items[k], "id"))
    decreases |items|
  {
    if |items| > 0 {
      var out := CreateMissing(rows, providerId, items, now).rows;
      CreateMissingStep(rows, providerId, items, now);
      var base := AfterFirst(rows, providerId, items[0], now);
      CreateCovers(base, providerId, items[1..], now);
      GrownKnown(base, out, providerId, Get(items[0], "id"));
      CoversCons(out, providerId, items);
    }
  }

  lemma GrownKnown(base: seq<Template>, out: seq<Template>, providerId: int, templateId: Value)
    requires Known(base, providerId, templateId)
    requires |base| <= |out| && out[..|base|] == base
    ensures Known(out, providerId, templateId)
  {
    assert out == base + out[|base|..];
    KnownExtends(base, out[|base|..], providerId, templateId);
  }

  lemma CoversCons(out: seq<Template>, providerId: int, items: seq<Value>)
    requires |items| > 0 && Known(out, providerId, Get(items[0], "id"))
    requires forall k :: 0 <= k < |items[1..]| ==> Known(out, providerId, Get(items[1..][k], "id"))
    ensures forall k :: 0 <= k < |items| ==> Known(out, providerId, Get(items[k], "id"))
  {
    forall k | 0 <= k < |items| ensures Known(out, providerId, Get(items[k], "id")) {
      if k > 0 {
        assert items[k] == items[1..][k - 1];
      }
    }
  }

  /** When every fetched entry already has its row, the loop creates nothing and raises nothing. */
  lemma {:induction false} CreateNothingNew(rows: seq<Template>, providerId: int, items: seq<Value>, now: int)
    requires forall k :: 0 <= k < |items| ==> Known(rows, providerId, Get(items[k], "id"))
    ensures CreateMissing(rows, providerId, items, now) == Created(rows, 0, false)
    decreases |items|
  {
    if |items| > 0 {
      assert Known(rows, providerId, Get(items[0], "id"));
      forall k | 0 <= k < |items[1..]| ensures Known(rows, providerId, Get(items[1..][k], "id")) {
        assert items[1..][k] == items[k + 1];
      }
      CreateNothingNew(rows, providerId, items[1..], now);
    }
  }

  datatype SyncResult =
    | SyncFailed(error: string)
    | Synced(synced: nat, message: string)
      /** The sync raised: an exception left the loop part-way. */
    | SyncRaised

  datatype Sync = Sync(result: SyncResult, rows: seq<Template>)

  /**
   * `syncTemplatesFromEskiz` against the template table `rows`; `current` is
   * the provider's current access token and `fetch` the outcome of the
   * template list request.
   */
  function SyncTemplates(providers: seq<Provider>, current: Option<Token>, fetch: Response,
                         rows: seq<Template>, now: int): (s: Sync)
    ensures FirstNamed(providers, "eskiz").None? ==> s == Sync(SyncFailed("Eskiz provider not found"), rows)
    ensures FirstNamed(providers, "eskiz").Some? && (current.None? || !IsValid(current.value, now)) ==>
              s == Sync(SyncFailed("No valid Eskiz token found"), rows)
    ensures GetTemplates(fetch) == Some([]) && FirstNamed(providers, "eskiz").Some? &&
            current.Some? && IsValid(current.value, now) ==>
              s == Sync(Synced(0, "No templates found"), rows)
    ensures |rows| <= |s.rows| && s.rows[..|rows|] == rows
    ensures s.result.Synced? ==>
              GetTemplates(fetch).Some? && s.result.synced == |s.rows| - |rows|
              && s.result.synced <= |GetTemplates(fetch).value|
    ensures FirstNamed(providers, "eskiz").Some? && GetTemplates(fetch).Some? ==>
              CreatedOnlyMissing(rows, s.rows, FirstNamed(providers, "eskiz").value.id, GetTemplates(fetch).value, now)
  {
    match FirstNamed(providers, "eskiz")
    case None => Sync(SyncFailed("Eskiz provider not found"), rows)
    case Some(provider) =>
      if current.None? || !IsValid(current.value, now) then Sync(SyncFailed("No valid Eskiz token found"), rows)
      else
        match GetTemplates(fetch)
        case None => Sync(SyncRaised, rows)
        case Some(items) =>
          if |items| == 0 then Sync(Synced(0, "No templates found"), rows)
          else
            var c := CreateMissing(rows, provider.id, items, now);
            if c.raised then Sync(SyncRaised, c.rows)
            else Sync(Synced(c.synced, "Synced " + PhpString.NatToText(c.synced) + " templates from Eskiz"), c.rows)
  }

  /** Without a valid token the template list is never consulted. */
  lemma NoFetchWithoutToken(providers: seq<Provider>, current: Option<Token>, fetch1: Response, fetch2: Response,
                            rows: seq<Template>, now: int)
    requires current.None? || !IsValid(current.value, now)
    ensures SyncTemplates(providers, current, fetch1, rows, now) == SyncTemplates(providers, current, fetch2, rows, now)
  {
  }

  /** A second sync over the same fetched list creates nothing and leaves the table as the first left it. */
  lemma SyncIdempotent(providers: seq<Provider>, current: Option<Token>, fetch: Response, rows: seq<Template>,
                       now: int, later: int)
    requires SyncTemplates(providers, current, fetch, rows, now).result.Synced?
    requires IsValid(current.value, later)
    ensures var first := SyncTemplates(providers, current, fetch, rows, now);
            var second := SyncTemplates(providers, current, fetch, first.rows, later);
            second.rows == first.rows && second.result.Synced? && second.result.synced == 0
  {
    var provider := FirstNamed(providers, "eskiz").value;
    var items := GetTemplates(fetch).value;
    var first := SyncTemplates(providers, current, fetch, rows, now);
    if |items| > 0 {
      CreateCovers(rows, provider.id, items, now);
      CreateNothingNew(first.rows, provider.id, items, later);
    }
  }

  /** A template submitted successfully is known under its new id, so a sync will not create it again. */
  lemma SubmittedIsKnown(rows: seq<Template>, i: nat, resp: Response)
    requires i < |rows| && Submit(rows[i], resp).0.SubmitSuccess?
    ensures Known(rows[i := Submit(rows[i], resp).1], rows[i].providerId, Get(resp.body, "id"))
    ensures IsPending(Submit(rows[i], resp).1)
  {
    var rows' := rows[i := Submit(rows[i], resp).1];
    assert rows'[i].providerTemplateId == Get(resp.body, "id");
  }
}
