/**
 * PHP values as the gateway sees them: decoded JSON bodies, Eloquent array
 * casts, request input and form data. A PHP array is an ordered list of
 * key/value entries; a JSON list decodes to keys 0..n-1, a JSON object to
 * string keys. Floating-point numbers are not part of this model.
 */
module Php {
  import opened Wrappers
  import PhpString

  datatype Key = IntKey(i: int) | StrKey(s: string)

  datatype Value =
    | Null
    | Bool(b: bool)
    | Int(n: int)
    | Str(s: string)
    | Array(entries: seq<(Key, Value)>)

  /** The first entry stored under `k`. */
  function Lookup(entries: seq<(Key, Value)>, k: Key): (r: Option<Value>)
    ensures r.None? <==> forall i :: 0 <= i < |entries| ==> entries[i].0 != k
    ensures r.Some? ==> (k, r.value) in entries
  {
    if |entries| == 0 then None
    else if entries[0].0 == k then Some(entries[0].1)
    else Lookup(entries[1..], k)
  }

  /** An entry whose key does not occur earlier is what a lookup of that key finds. */
  lemma {:induction false} LookupFirst(entries: seq<(Key, Value)>, i: nat)
    requires i < |entries|
    requires forall j :: 0 <= j < i ==> entries[j].0 != entries[i].0
    ensures Lookup(entries, entries[i].0) == Some(entries[i].1)
  {
    if i > 0 {
      LookupFirst(entries[1..], i - 1);
    }
  }

  /** `$v['k'] ?? null`: the value under a string key, Null when absent or not an array. */
  function Get(v: Value, k: string): Value {
    if v.Array? then Lookup(v.entries, StrKey(k)).GetOr(Null) else Null
  }

  /** `$v[i] ?? null` */
  function At(v: Value, i: int): Value {
    if v.Array? then Lookup(v.entries, IntKey(i)).GetOr(Null) else Null
  }

  /** Key presence, even for a null value (Laravel's `Request::has`). */
  predicate Has(v: Value, k: string) {
    v.Array? && Lookup(v.entries, StrKey(k)).Some?
  }

  /** `isset($v['k'])` */
  predicate IsSet(v: Value, k: string) {
    !Get(v, k).Null?
  }

  /** `$x ?? $default` */
  function Coalesce(x: Value, default: Value): (r: Value)
    ensures !x.Null? ==> r == x
    ensures x.Null? ==> r == default
  {
    if x.Null? then default else x
  }

  /** PHP's conversion to boolean; `empty($x)` is its negation. */
  predicate Truthy(v: Value) {
    match v
    case Null => false
    case Bool(b) => b
    case Int(n) => n != 0
    case Str(s) => s != "" && s != "0"
    case Array(es) => |es| > 0
  }

  /** The values `foreach` visits, in order; a scalar yields none. */
  function Items(v: Value): (r: seq<Value>)
    ensures !v.Array? ==> r == []
    ensures v.Array? ==> |r| == |v.entries| && forall i :: 0 <= i < |r| ==> r[i] == v.entries[i].1
  {
    if v.Array? then seq(|v.entries|, i requires 0 <= i < |v.entries| => v.entries[i].1) else []
  }

  /** A PHP list: the values under keys 0, 1, 2, ... */
  function List(xs: seq<Value>): (r: Value)
    ensures r.Array? && |r.entries| == |xs|
    ensures forall i :: 0 <= i < |xs| ==> r.entries[i] == (IntKey(i), xs[i])
  {
    Array(seq(|xs|, i requires 0 <= i < |xs| => (IntKey(i), xs[i])))
  }

  /** The keys of an array, in order. */
  function Keys(entries: seq<(Key, Value)>): (r: seq<Key>)
    ensures |r| == |entries|
    ensures forall i :: 0 <= i < |r| ==> r[i] == entries[i].0
  {
    seq(|entries|, i requires 0 <= i < |entries| => entries[i].0)
  }

  /** `$data[k] = x` on an array: overwrite in place, or append a new entry. */
  function Put(entries: seq<(Key, Value)>, k: Key, x: Value): (r: seq<(Key, Value)>)
    ensures Lookup(entries, k).Some? ==> |r| == |entries|
    ensures Lookup(entries, k).None? ==> r == entries + [(k, x)]
  {
    if |entries| == 0 then [(k, x)]
    else if entries[0].0 == k then [(k, x)] + entries[1..]
    else [entries[0]] + Put(entries[1..], k, x)
  }

  /** After `$data[k] = x`, reading `k` gives `x`, and every other key reads as before. */
  lemma {:induction false} PutLookup(entries: seq<(Key, Value)>, k: Key, x: Value, k': Key)
    ensures Lookup(Put(entries, k, x), k) == Some(x)
    ensures k' != k ==> Lookup(Put(entries, k, x), k') == Lookup(entries, k')
  {
    if |entries| > 0 && entries[0].0 != k {
      PutLookup(entries[1..], k, x, k');
    }
  }

  /** Writing a key keeps the set of keys apart from that key. */
  lemma {:induction false} PutKeys(entries: seq<(Key, Value)>, k: Key, x: Value)
    ensures forall j :: j in Keys(entries) ==> j in Keys(Put(entries, k, x))
    ensures forall j :: j in Keys(Put(entries, k, x)) ==> j == k || j in Keys(entries)
  {
    if |entries| > 0 && entries[0].0 != k {
      PutKeys(entries[1..], k, x);
      var r := Put(entries, k, x);
      assert r == [entries[0]] + Put(entries[1..], k, x);
      assert Keys(r) == [entries[0].0] + Keys(Put(entries[1..], k, x));
      assert Keys(entries) == [entries[0].0] + Keys(entries[1..]);
    } else if |entries| > 0 {
      assert Keys(Put(entries, k, x)) == [k] + Keys(entries[1..]);
      assert Keys(entries) == [entries[0].0] + Keys(entries[1..]);
    }
  }

  /** Writing the same key and value twice is writing it once. */
  lemma {:induction false} PutTwice(entries: seq<(Key, Value)>, k: Key, x: Value)
    ensures Put(Put(entries, k, x), k, x) == Put(entries, k, x)
  {
    if |entries| == 0 {
    } else if entries[0].0 == k {
      assert Put(entries, k, x)[1..] == entries[1..];
    } else {
      PutTwice(entries[1..], k, x);
      assert Put(entries, k, x)[1..] == Put(entries[1..], k, x);
    }
  }

  /** PHP's string conversion `(string) $v`. */
  function ToText(v: Value): string {
    match v
    case Null => ""
    case Bool(b) => if b then "1" else ""
    case Int(n) => PhpString.IntToText(n)
    case Str(s) => s
    case Array(_) => "Array"
  }

  /**
   * PHP 8's loose comparison `==`, as far as the gateway's data can reach it:
   * a boolean or null compares by truthiness, an integer with a string by
   * decimal text, arrays structurally. Numeric strings written in other forms
   * ("01", "1e1") are not given their numeric reading.
   */
  predicate LooseEq(a: Value, b: Value) {
    match (a, b)
    case (Bool(x), _) => x == Truthy(b)
    case (_, Bool(y)) => Truthy(a) == y
    case (Null, _) => LooseEqNull(b)
    case (_, Null) => LooseEqNull(a)
    case (Int(x), Int(y)) => x == y
    case (Int(x), Str(t)) => PhpString.IntToText(x) == t
    case (Str(s), Int(y)) => s == PhpString.IntToText(y)
    case (Str(s), Str(t)) => s == t
    case (Array(_), Array(_)) => a == b
    case _ => false
  }

  /** `null == $v`: null, 0, the empty string and the empty array. */
  predicate LooseEqNull(v: Value) {
    match v
    case Null => true
    case Bool(b) => !b
    case Int(n) => n == 0
    case Str(s) => s == ""
    case Array(es) => |es| == 0
  }

  /** `in_array($needle, $haystack)` with loose comparison. */
  predicate InArray(needle: Value, haystack: seq<Value>) {
    exists i :: 0 <= i < |haystack| && LooseEq(needle, haystack[i])
  }
}
