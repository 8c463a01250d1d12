/**
 * The `sms:check-delivery` console command: polls the vendor for recent sent
 * messages and copies the reported status, and any price, onto each row.
 * The status check itself is an input (`poll`), since the command calls it
 * with fewer arguments than the dispatcher's `checkStatus` declares.
 */
module CheckDelivery {
  import opened Php
  import opened MessageStatus
  import opened SmsResult
  import opened Messages
  import Tokens
  import Seqs

  /** Only messages created in the last seven days are polled. */
  const Window := 7 * Tokens.DAY

  /** The `where` clauses of the candidate query. */
  predicate Candidate(m: Message, now: int) {
    m.status == Sent && !m.providerMessageId.Null? && !m.providerId.Null? && m.createdAt >= now - Window
  }

  /** The candidate rows, in table order. */
  function CandidatesOf(ms: seq<Message>, now: int): (r: seq<Message>)
    ensures |r| <= |ms|
    ensures forall m :: m in r ==> m in ms && Candidate(m, now)
  {
    Seqs.Filter(ms, (m: Message) => Candidate(m, now))
  }

  /** The outcome of one status check: an answer, or an exception. */
  datatype Poll = Polled(result: StatusResult) | Threw(message: string)

  /** The row with the price information of a status answer copied in. */
  function Priced(m: Message, response: Value): (u: Message)
    ensures u.(price := m.price, currency := m.currency) == m
    ensures IsSet(Get(response, "data"), "total_price") ==> u.price == Get(Get(response, "data"), "total_price")
    ensures !IsSet(Get(response, "data"), "total_price") && IsSet(Get(response, "data"), "price") ==>
              u.price == Get(Get(response, "data"), "price")
    ensures IsSet(Get(response, "data"), "total_price") || IsSet(Get(response, "data"), "price") ==>
              u.currency == Str("UZS")
    ensures !IsSet(Get(response, "data"), "total_price") && !IsSet(Get(response, "data"), "price") ==> u == m
  {
    var data := Get(response, "data");
    if data.Null? then m
    else
      var withPrice :=
        if IsSet(data, "total_price") then m.(price := Get(data, "total_price"))
        else if IsSet(data, "price") then m.(price := Get(data, "price"))
        else m;
      if IsSet(data, "price") || IsSet(data, "total_price") then withPrice.(currency := Str("UZS")) else withPrice
  }

  /** What one poll does to its row: nothing on an exception or an `unknown` answer. */
  function Effect(m: Message, p: Poll): (u: Message)
    ensures p.Polled? && p.result.status != Unknown ==>
              u.status == p.result.status && u.(status := m.status) == Priced(m, p.result.providerResponse).(status := m.status)
    ensures p.Threw? || p.result.status == Unknown ==> u == m
  {
    match p
    case Threw(_) => m
    case Polled(r) => if r.status == Unknown then m else Priced(m, r.providerResponse).(status := r.status)
  }

  /** Whether a poll counts as an update (`updated++`) or as an error (`errors++`). */
  predicate Updates(p: Poll) {
    p.Polled? && p.result.status != Unknown
  }

  datatype Sweep = Sweep(rows: seq<Message>, checked: nat, updated: nat, errors: nat)

  /**
   * The loop over the first `budget` candidates in table order (a negative
   * budget is no limit, as Laravel ignores a negative `limit`).
   */
  function Run(ms: seq<Message>, now: int, budget: int, poll: Message -> Poll): (s: Sweep)
    ensures |s.rows| == |ms|
    ensures s.updated + s.errors <= s.checked
  {
    if |ms| == 0 || budget == 0 then Sweep(ms, 0, 0, 0)
    else if !Candidate(ms[0], now) then
      var rest := Run(ms[1..], now, budget, poll);
      rest.(rows := [ms[0]] + rest.rows)
    else
      var rest := Run(ms[1..], now, budget - 1, poll);
      var p := poll(ms[0]);
      Sweep([Effect(ms[0], p)] + rest.rows, rest.checked + 1,
            rest.updated + (if Updates(p) then 1 else 0),
            rest.errors + (if p.Threw? then 1 else 0))
  }

  /** Whether row `i` is among the first `budget` candidates. */
  predicate Selected(ms: seq<Message>, now: int, budget: int, i: int)
    requires 0 <= i < |ms|
  {
    Candidate(ms[i], now) && (budget < 0 || |CandidatesOf(ms[..i], now)| < budget)
  }

  lemma CandidatesOfCons(ms: seq<Message>, now: int, i: nat)
    requires 0 < i < |ms|
    ensures |CandidatesOf(ms[..i], now)| == (if Candidate(ms[0], now) then 1 else 0) + |CandidatesOf(ms[1..][..i - 1], now)|
  {
    assert ms[..i][1..] == ms[1..][..i - 1];
  }

  /** Each selected row gets its poll's effect; every other row stays as it was. */
  lemma {:induction false} RunRows(ms: seq<Message>, now: int, budget: int, poll: Message -> Poll)
    ensures forall i :: 0 <= i < |ms| ==>
              Run(ms, now, budget, poll).rows[i] == (if Selected(ms, now, budget, i) then Effect(ms[i], poll(ms[i])) else ms[i])
  {
    if |ms| == 0 || budget == 0 {
    } else {
      var b := if Candidate(ms[0], now) then budget - 1 else budget;
      RunRows(ms[1..], now, b, poll);
      var s := Run(ms, now, budget, poll);
      forall i | 0 <= i < |ms|
        ensures s.rows[i] == (if Selected(ms, now, budget, i) then Effect(ms[i], poll(ms[i])) else ms[i])
      {
        if i == 0 {
          assert ms[..0] == [];
        } else {
          CandidatesOfCons(ms, now, i);
          assert ms[1..][i - 1] == ms[i];
        }
      }
    }
  }

  /** The number of rows polled is the size of the limited candidate query. */
  lemma {:induction false} RunChecks(ms: seq<Message>, now: int, budget: int, poll: Message -> Poll)
    ensures Run(ms, now, budget, poll).checked == |Seqs.Limit(CandidatesOf(ms, now), budget)|
  {
    if |ms| == 0 || budget == 0 {
    } else if !Candidate(ms[0], now) {
      RunChecks(ms[1..], now, budget, poll);
      assert CandidatesOf(ms, now) == CandidatesOf(ms[1..], now);
    } else {
      RunChecks(ms[1..], now, budget - 1, poll);
      assert CandidatesOf(ms, now) == [ms[0]] + CandidatesOf(ms[1..], now);
      LimitCons(ms[0], CandidatesOf(ms[1..], now), budget);
    }
  }

  /** A limit that keeps a first row keeps one fewer of the rows after it. */
  lemma LimitCons<T>(x: T, s: seq<T>, n: int)
    requires n != 0
    ensures |Seqs.Limit([x] + s, n)| == 1 + |Seqs.Limit(s, n - 1)|
  {
  }

  /** A limit that keeps a first row keeps it, followed by one fewer of the rows after it. */
  lemma LimitConsList<T>(x: T, s: seq<T>, n: int)
    requires n != 0
    ensures Seqs.Limit([x] + s, n) == [x] + Seqs.Limit(s, n - 1)
  {
    if 0 < n < |s| + 1 {
      assert ([x] + s)[..n] == [x] + s[..n - 1];
    }
  }

  /** Filtering a list that starts with `x`. */
  lemma FilterCons<T>(x: T, s: seq<T>, p: T -> bool)
    ensures Seqs.Filter([x] + s, p) == (if p(x) then [x] else []) + Seqs.Filter(s, p)
  {
    assert ([x] + s)[1..] == s;
  }

  /** The error counter of the loop: one per polled row whose check threw. */
  lemma {:induction false} RunErrors(ms: seq<Message>, now: int, budget: int, poll: Message -> Poll,
                                     threw: Message -> bool)
    requires forall m :: threw(m) == poll(m).Threw?
    ensures Run(ms, now, budget, poll).errors == |Seqs.Filter(Seqs.Limit(CandidatesOf(ms, now), budget), threw)|
  {
    if |ms| == 0 || budget == 0 {
      assert Seqs.Limit(CandidatesOf(ms, now), budget) == [];
    } else if !Candidate(ms[0], now) {
      RunErrors(ms[1..], now, budget, poll, threw);
      assert CandidatesOf(ms, now) == CandidatesOf(ms[1..], now);
    } else {
      var x := ms[0];
      RunErrors(ms[1..], now, budget - 1, poll, threw);
      assert CandidatesOf(ms, now) == [x] + CandidatesOf(ms[1..], now);
      LimitConsList(x, CandidatesOf(ms[1..], now), budget);
      FilterCons(x, Seqs.Limit(CandidatesOf(ms[1..], now), budget - 1), threw);
      assert threw(x) == poll(x).Threw?;
    }
  }

  /** The update counter of the loop: one per polled row whose answer was not `unknown`. */
  lemma {:induction false} RunUpdates(ms: seq<Message>, now: int, budget: int, poll: Message -> Poll,
                                      updates: Message -> bool)
    requires forall m :: updates(m) == Updates(poll(m))
    ensures Run(ms, now, budget, poll).updated == |Seqs.Filter(Seqs.Limit(CandidatesOf(ms, now), budget), updates)|
  {
    if |ms| == 0 || budget == 0 {
      assert Seqs.Limit(CandidatesOf(ms, now), budget) == [];
    } else if !Candidate(ms[0], now) {
      RunUpdates(ms[1..], now, budget, poll, updates);
      assert CandidatesOf(ms, now) == CandidatesOf(ms[1..], now);
    } else {
      var x := ms[0];
      RunUpdates(ms[1..], now, budget - 1, poll, updates);
      assert CandidatesOf(ms, now) == [x] + CandidatesOf(ms[1..], now);
      LimitConsList(x, CandidatesOf(ms[1..], now), budget);
      FilterCons(x, Seqs.Limit(CandidatesOf(ms[1..], now), budget - 1), updates);
      assert updates(x) == Updates(poll(x));
    }
  }

  datatype Outcome = Outcome(rows: seq<Message>, checked: nat, updated: nat, errors: nat, exit: int)

  /** `handle` with `--limit=limit` at time `now`. */
  function Handle(ms: seq<Message>, now: int, limit: int, poll: Message -> Poll): (o: Outcome)
    ensures o.exit == 0
    ensures |CandidatesOf(ms, now)| == 0 || limit == 0 ==> o == Outcome(ms, 0, 0, 0, 0)
    ensures o.checked == |Seqs.Limit(CandidatesOf(ms, now), limit)|
    ensures o.updated + o.errors <= o.checked
    ensures o.errors == |Seqs.Filter(Seqs.Limit(CandidatesOf(ms, now), limit), (m: Message) => poll(m).Threw?)|
    ensures o.updated == |Seqs.Filter(Seqs.Limit(CandidatesOf(ms, now), limit), (m: Message) => Updates(poll(m)))|
    ensures |o.rows| == |ms|
    ensures forall i :: 0 <= i < |ms| ==>
              o.rows[i] == (if Selected(ms, now, limit, i) then Effect(ms[i], poll(ms[i])) else ms[i])
  {
    RunRows(ms, now, limit, poll);
    RunChecks(ms, now, limit, poll);
    RunErrors(ms, now, limit, poll, (m: Message) => poll(m).Threw?);
    RunUpdates(ms, now, limit, poll, (m: Message) => Updates(poll(m)));
    if |CandidatesOf(ms, now)| == 0 || limit == 0 then
      assert forall i :: 0 <= i < |ms| ==> !Selected(ms, now, limit, i) by {
        forall i | 0 <= i < |ms| ensures !Selected(ms, now, limit, i) {
          if Candidate(ms[i], now) {
            assert ms[i] in CandidatesOf(ms, now) by { CandidateListed(ms, now, i); }
          }
        }
      }
      assert Run(ms, now, limit, poll).rows == ms;
      Outcome(ms, 0, 0, 0, 0)
    else
      var s := Run(ms, now, limit, poll);
      Outcome(s.rows, s.checked, s.updated, s.errors, 0)
  }

  lemma {:induction false} CandidateListed(ms: seq<Message>, now: int, i: nat)
    requires i < |ms| && Candidate(ms[i], now)
    ensures ms[i] in CandidatesOf(ms, now)
  {
    if i > 0 {
      CandidateListed(ms[1..], now, i - 1);
    }
  }
}
