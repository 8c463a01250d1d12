/**
 * SMS templates registered with a vendor for approval. The status column
 * holds the vendor's verdict as a word: 'approved', 'pending' or 'rejected'.
 */
module Templates {
  import opened Wrappers
  import opened Php
  import Seqs

  datatype Template = Template(
    id: int,
    providerId: int,
    name: Value,
    content: Value,
    status: string,
    providerTemplateId: Value,
    approvedAt: Option<int>)

  predicate IsApproved(t: Template) {
    t.status == "approved"
  }

  predicate IsPending(t: Template) {
    t.status == "pending"
  }

  predicate IsRejected(t: Template) {
    t.status == "rejected"
  }

  /** The three verdicts exclude one another. */
  lemma AtMostOneVerdict(t: Template)
    ensures !(IsApproved(t) && IsPending(t))
    ensures !(IsApproved(t) && IsRejected(t))
    ensures !(IsPending(t) && IsRejected(t))
  {
  }

  /** `scopeByStatus`: exactly the rows with status `s`, in table order. */
  function ByStatus(ts: seq<Template>, s: string): (r: seq<Template>)
    ensures forall t :: t in r <==> t in ts && t.status == s
    ensures |r| <= |ts|
  {
    Seqs.Filter(ts, (t: Template) => t.status == s)
  }

  /** `scopeApproved` */
  function Approved(ts: seq<Template>): (r: seq<Template>)
    ensures forall t :: t in r <==> t in ts && IsApproved(t)
  {
    ByStatus(ts, "approved")
  }

  /** `scopePending` */
  function Pending(ts: seq<Template>): (r: seq<Template>)
    ensures forall t :: t in r <==> t in ts && IsPending(t)
  {
    ByStatus(ts, "pending")
  }

  /** No row is both approved and awaiting approval. */
  lemma ApprovedPendingDisjoint(ts: seq<Template>)
    ensures forall t :: t in Approved(ts) ==> t !in Pending(ts)
  {
  }
}
