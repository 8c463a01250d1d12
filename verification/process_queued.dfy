/**
 * The `sms:process-queued` console command: queues a `SendSmsJob` for each
 * of the first `limit` queued messages, or only lists them in a dry run.
 * Whether pushing a job onto the queue raises is an input (`pushFails`).
 */
module ProcessQueued {
  import opened MessageStatus
  import opened Messages
  import Seqs

  /** The queued rows, in table order. */
  function QueuedOf(ms: seq<Message>): (r: seq<Message>)
    ensures |r| <= |ms|
    ensures forall m :: m in r <==> m in ms && m.status == Queued
  {
    Seqs.Filter(ms, (m: Message) => m.status == Queued)
  }

  /** The ids of a list of messages, in order. */
  function Ids(ms: seq<Message>): (r: seq<int>)
    ensures |r| == |ms| && forall i :: 0 <= i < |ms| ==> r[i] == ms[i].id
  {
    seq(|ms|, i requires 0 <= i < |ms| => ms[i].id)
  }

  /** The ids of `selected` whose job was pushed, and how many pushes raised. */
  function Push(selected: seq<Message>, pushFails: int -> bool): (r: (seq<int>, nat))
    ensures |r.0| + r.1 == |selected|
    ensures forall id :: id in r.0 <==> exists m :: m in selected && m.id == id && !pushFails(id)
  {
    if |selected| == 0 then ([], 0)
    else
      var rest := Push(selected[1..], pushFails);
      assert selected == [selected[0]] + selected[1..];
      if pushFails(selected[0].id) then (rest.0, rest.1 + 1)
      else ([selected[0].id] + rest.0, rest.1)
  }

  /** One job per message whose push went through, in selection order; `pushed` is that test. */
  lemma {:induction false} PushJobs(selected: seq<Message>, pushFails: int -> bool, pushed: Message -> bool)
    requires forall m :: pushed(m) == !pushFails(m.id)
    ensures Push(selected, pushFails).0 == Ids(Seqs.Filter(selected, pushed))
  {
    if |selected| > 0 {
      var h := selected[0];
      var rest := Seqs.Filter(selected[1..], pushed);
      var r1 := Push(selected[1..], pushFails);
      PushJobs(selected[1..], pushFails, pushed);
      assert pushed(h) == !pushFails(h.id);
      if pushed(h) {
        assert Seqs.Filter(selected, pushed) == [h] + rest;
        assert Push(selected, pushFails).0 == [h.id] + r1.0;
        IdsCons(h, rest);
      } else {
        assert Seqs.Filter(selected, pushed) == rest;
        assert Push(selected, pushFails).0 == r1.0;
      }
    }
  }

  lemma IdsCons(h: Message, t: seq<Message>)
    ensures Ids([h] + t) == [h.id] + Ids(t)
  {
    assert forall i :: 0 <= i < |t| + 1 ==> Ids([h] + t)[i] == ([h.id] + Ids(t))[i];
  }

  /** One error per message whose push raised; `raised` is that test. */
  lemma {:induction false} PushErrors(selected: seq<Message>, pushFails: int -> bool, raised: Message -> bool)
    requires forall m :: raised(m) == pushFails(m.id)
    ensures Push(selected, pushFails).1 == |Seqs.Filter(selected, raised)|
  {
    if |selected| > 0 {
      PushErrors(selected[1..], pushFails, raised);
      assert raised(selected[0]) == pushFails(selected[0].id);
    }
  }

  datatype Outcome = Outcome(selected: seq<Message>, jobs: seq<int>, errors: nat, exit: int)

  /** `handle` with `--limit=limit` and `--dry-run=dryRun`. */
  function Handle(ms: seq<Message>, limit: int, dryRun: bool, pushFails: int -> bool): (o: Outcome)
    ensures o.exit == 0
    ensures o.selected == Seqs.Limit(QueuedOf(ms), limit)
    ensures forall m :: m in o.selected ==> m in ms && m.status == Queued
    ensures |o.selected| == 0 ==> o.jobs == [] && o.errors == 0
    ensures dryRun ==> o.jobs == [] && o.errors == 0
    ensures !dryRun ==> |o.jobs| + o.errors == |o.selected|
    ensures !dryRun ==> forall id :: id in o.jobs <==> exists m :: m in o.selected && m.id == id && !pushFails(id)
    ensures !dryRun ==> o.jobs == Ids(Seqs.Filter(o.selected, (m: Message) => !pushFails(m.id)))
    ensures !dryRun ==> o.errors == |Seqs.Filter(o.selected, (m: Message) => pushFails(m.id))|
  {
    var selected := Seqs.Limit(QueuedOf(ms), limit);
    if |selected| == 0 then Outcome(selected, [], 0, 0)
    else if dryRun then Outcome(selected, [], 0, 0)
    else
      var pushed := Push(selected, pushFails);
      PushJobs(selected, pushFails, (m: Message) => !pushFails(m.id));
      PushErrors(selected, pushFails, (m: Message) => pushFails(m.id));
      Outcome(selected, pushed.0, pushed.1, 0)
  }

  /** Every queued message is selected when the limit allows for all of them. */
  lemma AllQueuedWithinLimit(ms: seq<Message>, limit: int, m: Message)
    requires m in ms && m.status == Queued
    requires limit < 0 || limit >= |QueuedOf(ms)|
    ensures m in Handle(ms, limit, false, id => false).selected
    ensures m.id in Handle(ms, limit, false, id => false).jobs
  {
  }
}
