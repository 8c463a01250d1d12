/**
 * Query-shaped operations on tables held as sequences of records: a `where`
 * clause is a filter, `limit` a prefix, `orderBy` a sort.
 */
module Seqs {

  /** `where p`: the rows satisfying `p`, in table order. */
  function Filter<T>(s: seq<T>, p: T -> bool): (r: seq<T>)
    ensures |r| <= |s|
    ensures forall x :: x in r ==> x in s && p(x)
    ensures forall x :: x in s && p(x) ==> x in r
    ensures forall i :: 0 <= i < |r| ==> p(r[i])
  {
    if |s| == 0 then []
    else (if p(s[0]) then [s[0]] else []) + Filter(s[1..], p)
  }

  /** Filtering distributes over concatenation. */
  lemma {:induction false} FilterAppend<T>(a: seq<T>, b: seq<T>, p: T -> bool)
    ensures Filter(a + b, p) == Filter(a, p) + Filter(b, p)
  {
    if |a| > 0 {
      FilterAppend(a[1..], b, p);
      assert (a + b)[1..] == a[1..] + b;
    } else {
      assert a + b == b;
    }
  }

  /** Filters that agree on every row select the same rows. */
  lemma {:induction false} FilterAgree<T>(s: seq<T>, p: T -> bool, q: T -> bool)
    requires forall i :: 0 <= i < |s| ==> p(s[i]) == q(s[i])
    ensures Filter(s, p) == Filter(s, q)
  {
    if |s| > 0 {
      FilterAgree(s[1..], p, q);
    }
  }

  /** `limit n`: Laravel ignores a negative limit. */
  function Limit<T>(s: seq<T>, n: int): (r: seq<T>)
    ensures n >= 0 ==> |r| == if n < |s| then n else |s|
    ensures n < 0 ==> r == s
    ensures r == s[..|r|]
  {
    if n < 0 || n >= |s| then s else s[..n]
  }

  /** `->first()`: the first row satisfying `p`, as an index. */
  function FirstIndex<T>(s: seq<T>, p: T -> bool): (r: int)
    ensures -1 <= r < |s|
    ensures r == -1 <==> forall i :: 0 <= i < |s| ==> !p(s[i])
    ensures r >= 0 ==> p(s[r]) && forall i :: 0 <= i < r ==> !p(s[i])
  {
    if |s| == 0 then -1
    else if p(s[0]) then 0
    else var k := FirstIndex(s[1..], p); if k < 0 then -1 else k + 1
  }

  /** A table with one row replaced. */
  function Replace<T>(s: seq<T>, i: nat, x: T): (r: seq<T>)
    requires i < |s|
    ensures |r| == |s| && r[i] == x
    ensures forall j :: 0 <= j < |s| && j != i ==> r[j] == s[j]
  {
    s[i := x]
  }
}
