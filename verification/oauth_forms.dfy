/**
 * The admin forms that create and edit OAuth clients: how the submitted form
 * data is rewritten before it is saved. Form data is a PHP array; every
 * assignment `$data[k] = v` is `Put`.
 */
module OAuthForms {
  import opened Wrappers
  import opened Php
  import opened PhpString
  import Seqs
  import OAuthClients

  /**
   * The comma-separated pieces of a string, each trimmed: one piece more than
   * there are commas, each the trimmed text between two commas, so that
   * joining the untrimmed parts with commas gives the input back.
   */
  function TrimmedPieces(s: string): (ps: seq<string>)
    ensures |ps| == Count(',', s) + 1
    ensures exists parts: seq<string> ::
              && |parts| == |ps|
              && Implode(',', parts) == s
              && (forall p :: p in parts ==> ',' !in p)
              && (forall i :: 0 <= i < |ps| ==> ps[i] == Trim(parts[i]))
    ensures |ps| == |Explode(',', s)|
    ensures forall i :: 0 <= i < |ps| ==> ps[i] == Trim(Explode(',', s)[i])
  {
    var parts := Explode(',', s);
    ExplodeImplode(',', s);
    seq(|parts|, i requires 0 <= i < |parts| => Trim(parts[i]))
  }

  /** The non-empty pieces, in order. */
  function Kept(ps: seq<string>): (r: seq<Value>)
    ensures |r| <= |ps|
    ensures forall v :: v in r ==> v.Str? && Truthy(v) && v.s in ps
    ensures forall i :: 0 <= i < |ps| && Truthy(Str(ps[i])) ==> Str(ps[i]) in r
  {
    if |ps| == 0 then []
    else
      var rest := Kept(ps[1..]);
      assert forall i :: 1 <= i < |ps| ==> ps[i] == ps[1..][i - 1];
      (if Truthy(Str(ps[0])) then [Str(ps[0])] else []) + rest
  }

  /** The pieces as PHP strings. */
  function Strs(ps: seq<string>): (r: seq<Value>)
    ensures |r| == |ps| && forall i :: 0 <= i < |ps| ==> r[i] == Str(ps[i])
  {
    seq(|ps|, i requires 0 <= i < |ps| => Str(ps[i]))
  }

  /** The kept pieces are the pieces filtered for truthiness, in their order. */
  lemma {:induction false} KeptIsFilter(ps: seq<string>)
    ensures Kept(ps) == Seqs.Filter(Strs(ps), Truthy)
  {
    if |ps| > 0 {
      KeptIsFilter(ps[1..]);
      assert Strs(ps) == [Str(ps[0])] + Strs(ps[1..]);
      Seqs.FilterAppend([Str(ps[0])], Strs(ps[1..]), Truthy);
    }
  }

  /**
   * `array_filter` over the pieces numbered from `from`: the non-empty ones,
   * each under the key it had before filtering.
   */
  function KeepKeys(ps: seq<string>, from: nat): (r: seq<(Key, Value)>)
    ensures forall e :: e in r ==>
              && e.0.IntKey? && from <= e.0.i < from + |ps|
              && e.1 == Str(ps[e.0.i - from]) && Truthy(e.1)
  {
    if |ps| == 0 then []
    else
      var rest := KeepKeys(ps[1..], from + 1);
      assert forall e :: e in rest ==> e.1 == Str(ps[e.0.i - from]) by {
        forall e | e in rest ensures e.1 == Str(ps[e.0.i - from]) {
          assert ps[e.0.i - from] == ps[1..][e.0.i - (from + 1)];
        }
      }
      (if Truthy(Str(ps[0])) then [(IntKey(from), Str(ps[0]))] else []) + rest
  }

  /** Every non-empty piece survives the filter, under its own position. */
  lemma {:induction false} KeepKeysComplete(ps: seq<string>, from: nat)
    ensures forall i :: 0 <= i < |ps| && Truthy(Str(ps[i])) ==> (IntKey(from + i), Str(ps[i])) in KeepKeys(ps, from)
  {
    if |ps| > 0 {
      KeepKeysComplete(ps[1..], from + 1);
      var r := KeepKeys(ps, from);
      var rest := KeepKeys(ps[1..], from + 1);
      assert r == (if Truthy(Str(ps[0])) then [(IntKey(from), Str(ps[0]))] else []) + rest;
      forall i | 1 <= i < |ps| && Truthy(Str(ps[i])) ensures (IntKey(from + i), Str(ps[i])) in r {
        assert ps[i] == ps[1..][i - 1];
        assert (IntKey(from + 1 + (i - 1)), Str(ps[1..][i - 1])) in rest;
      }
    }
  }

  /** Every entry has an integer key, and the keys strictly increase. */
  predicate KeysIncrease(r: seq<(Key, Value)>) {
    forall i, j :: 0 <= i < j < |r| ==> r[i].0.IntKey? && r[j].0.IntKey? && r[i].0.i < r[j].0.i
  }

  /** The survivors keep the order of their positions. */
  lemma {:induction false} KeepKeysOrdered(ps: seq<string>, from: nat)
    ensures KeysIncrease(KeepKeys(ps, from))
  {
    if |ps| > 0 {
      var rest := KeepKeys(ps[1..], from + 1);
      KeepKeysOrdered(ps[1..], from + 1);
      if Truthy(Str(ps[0])) {
        var r := KeepKeys(ps, from);
        assert r == [(IntKey(from), Str(ps[0]))] + rest;
        forall i, j | 0 <= i < j < |r| ensures r[i].0.IntKey? && r[j].0.IntKey? && r[i].0.i < r[j].0.i {
          assert r[j] == rest[j - 1];
          assert rest[j - 1] in rest;
          if i > 0 {
            assert r[i] == rest[i - 1];
          }
        }
      }
    }
  }

  /**
   * Reading key `k` of the filtered pieces: the piece at `k` when it is
   * non-empty, nothing otherwise.
   */
  lemma KeepKeysLookup(ps: seq<string>, from: nat, k: int)
    ensures Lookup(KeepKeys(ps, from), IntKey(k))
            == if from <= k < from + |ps| && Truthy(Str(ps[k - from])) then Some(Str(ps[k - from])) else None
  {
    var r := KeepKeys(ps, from);
    if from <= k < from + |ps| && Truthy(Str(ps[k - from])) {
      assert (IntKey(k), Str(ps[k - from])) in r by {
        assert IntKey(from + (k - from)) == IntKey(k);
      }
    } else {
      forall i | 0 <= i < |r| ensures r[i].0 != IntKey(k) {
        assert r[i] in r;
      }
    }
  }

  /** Under each position the piece there when it is non-empty, and nothing under any other integer key. */
  ghost predicate PiecesAtPositions(entries: seq<(Key, Value)>, ps: seq<string>) {
    forall k: int :: Lookup(entries, IntKey(k))
      == if 0 <= k < |ps| && Truthy(Str(ps[k])) then Some(Str(ps[k])) else None
  }

  lemma KeepKeysLookupFromZero(ps: seq<string>)
    ensures PiecesAtPositions(KeepKeys(ps, 0), ps)
  {
    forall k: int ensures Lookup(KeepKeys(ps, 0), IntKey(k))
             == if 0 <= k < |ps| && Truthy(Str(ps[k])) then Some(Str(ps[k])) else None {
      KeepKeysLookup(ps, 0, k);
    }
  }

  /**
   * `array_filter(array_map('trim', explode(',', $s)))`, keys kept as PHP
   * keeps them: under each position the trimmed piece there when it is
   * non-empty, nothing under any other key, keys in increasing order.
   */
  function SplitUrisAsWritten(s: string): (v: Value)
    ensures v.Array?
    ensures PiecesAtPositions(v.entries, TrimmedPieces(s))
    ensures KeysIncrease(v.entries)
    ensures forall e :: e in v.entries ==> e.0.IntKey?
  {
    var ps := TrimmedPieces(s);
    KeepKeysOrdered(ps, 0);
    KeepKeysLookupFromZero(ps);
    Array(KeepKeys(ps, 0))
  }

  /** The same list renumbered from 0 (`array_values` around the filter). */
  function SplitUris(s: string): Value {
    List(Kept(TrimmedPieces(s)))
  }

  /** Both splits hold the same URIs in the same order; only the keys differ. */
  lemma {:induction false} SplitsAgreeOnValues(ps: seq<string>, from: nat)
    ensures |KeepKeys(ps, from)| == |Kept(ps)|
    ensures forall i :: 0 <= i < |Kept(ps)| ==> KeepKeys(ps, from)[i].1 == Kept(ps)[i]
  {
    if |ps| > 0 {
      SplitsAgreeOnValues(ps[1..], from + 1);
    }
  }

  /** With the renumbered list, the client's redirect is its first non-empty URI. */
  lemma RedirectIsFirstUri(s: string)
    ensures var uris := Kept(TrimmedPieces(s));
            OAuthClients.Redirect(SplitUris(s)) == if |uris| > 0 then uris[0] else Null
  {
    var uris := Kept(TrimmedPieces(s));
    if |uris| > 0 {
      LookupFirst(List(uris).entries, 0);
    }
  }

  /** Pieces numbered from 1 on leave nothing under key 0. */
  lemma NothingUnderZero(ps: seq<string>, from: nat)
    requires from >= 1
    ensures Lookup(KeepKeys(ps, from), IntKey(0)).None?
  {
    var es := KeepKeys(ps, from);
    forall i | 0 <= i < |es| ensures es[i].0 != IntKey(0) {
      assert es[i] in es;
    }
  }

  /** Key 0 of the kept-keys array holds the first piece when that piece is non-empty, and nothing otherwise. */
  lemma RedirectOfKeptKeys(ps: seq<string>)
    requires |ps| > 0
    ensures OAuthClients.Redirect(Array(KeepKeys(ps, 0))) == if Truthy(Str(ps[0])) then Str(ps[0]) else Null
  {
    if !Truthy(Str(ps[0])) {
      NothingUnderZero(ps[1..], 1);
    }
  }

  /**
   * As written, the client has a redirect only when the first piece is
   * non-empty: an empty first piece leaves no entry under key 0.
   */
  lemma RedirectAsWritten(s: string)
    ensures var ps := TrimmedPieces(s);
            OAuthClients.Redirect(SplitUrisAsWritten(s)) == if Truthy(Str(ps[0])) then Str(ps[0]) else Null
  {
    RedirectOfKeptKeys(TrimmedPieces(s));
  }

  lemma LeadingCommaPieces()
    ensures TrimmedPieces(",a") == ["", "a"]
  {
    ExplodeLeadingComma();
    TrimOfLetter();
    TwoPieces(",a", "", "a");
  }

  /** A string with one comma has the two trimmed sides as its pieces. */
  lemma TwoPieces(s: string, a: string, b: string)
    requires Explode(',', s) == [a, b]
    ensures TrimmedPieces(s) == [Trim(a), Trim(b)]
  {
  }

  lemma ExplodeLeadingComma()
    ensures Explode(',', ",a") == ["", "a"]
  {
    assert ",a"[1..] == "a" && "a"[1..] == "";
    assert Explode(',', "") == [""];
    assert ['a'] + "" == "a";
    assert Explode(',', "a") == ["a"];
  }

  lemma TrimOfLetter()
    ensures Trim("") == "" && Trim("a") == "a"
  {
    assert TrimLeft("a") == "a";
    assert TrimRight("a") == "a";
  }

  lemma KeptOfPieces()
    ensures Kept(["", "a"]) == [Str("a")]
  {
    assert ["", "a"][1..] == ["a"];
    assert ["a"][1..] == [];
  }

  /** A leading comma: ",a" holds the URI "a", yet the stored client has no redirect. */
  lemma LeadingCommaLosesRedirect()
    ensures Kept(TrimmedPieces(",a")) == [Str("a")]
    ensures OAuthClients.Redirect(SplitUrisAsWritten(",a")) == Null
    ensures OAuthClients.Redirect(SplitUris(",a")) == Str("a")
  {
    LeadingCommaPieces();
    KeptOfPieces();
    RedirectAsWritten(",a");
    RedirectIsFirstUri(",a");
  }

  const ClientCredentials := List([Str("client_credentials")])

  /** The shared part of `mutateFormDataBeforeCreate`, with the URI split as a parameter. */
  function MutateForCreate(data: seq<(Key, Value)>, uuid: string, random: string,
                           split: string -> Value): (r: seq<(Key, Value)>)
  {
    SplitAndDefault(Written(data, uuid, random), split)
  }

  /** The four unconditional writes of the create form: id, secret, owner type and provider. */
  function Written(data: seq<(Key, Value)>, uuid: string, random: string): seq<(Key, Value)> {
    var d1 := Put(data, StrKey("id"), Str(uuid));
    var d2 := Put(d1, StrKey("secret"), Str(random));
    var d3 := Put(d2, StrKey("owner_type"), Str("App\\Models\\User"));
    Put(d3, StrKey("provider"), Str("users"))
  }

  /** The rest of the create form: a URI string is split, a grant list that is not an array is defaulted. */
  function SplitAndDefault(d: seq<(Key, Value)>, split: string -> Value): seq<(Key, Value)> {
    var uris := Get(Array(d), "redirect_uris");
    var d5 := if uris.Str? then Put(d, StrKey("redirect_uris"), split(uris.s)) else d;
    var grants := Get(Array(d5), "grant_types");
    if grants.Null? || !grants.Array? then Put(d5, StrKey("grant_types"), ClientCredentials) else d5
  }

  /** `mutateFormDataBeforeCreate` as written (filtered URIs keep their keys). */
  function CreateAsWritten(data: seq<(Key, Value)>, uuid: string, random: string): seq<(Key, Value)> {
    MutateForCreate(data, uuid, random, SplitUrisAsWritten)
  }

  /** `mutateFormDataBeforeCreate` with the URI list renumbered. */
  function Create(data: seq<(Key, Value)>, uuid: string, random: string): seq<(Key, Value)> {
    MutateForCreate(data, uuid, random, SplitUris)
  }

  /** The keys the create form writes. */
  predicate WrittenOnCreate(k: Key) {
    k in {StrKey("id"), StrKey("secret"), StrKey("owner_type"), StrKey("provider"),
          StrKey("redirect_uris"), StrKey("grant_types")}
  }

  /** Any key after the create mutation: what the mutation wrote there, or what was submitted. */
  lemma CreateLookup(data: seq<(Key, Value)>, uuid: string, random: string, split: string -> Value, k: Key)
    ensures var uris := Get(Array(data), "redirect_uris");
            var grants := Get(Array(data), "grant_types");
            Lookup(MutateForCreate(data, uuid, random, split), k)
            == if k == StrKey("grant_types") then (if grants.Array? then Lookup(data, k) else Some(ClientCredentials))
               else if k == StrKey("redirect_uris") then (if uris.Str? then Some(split(uris.s)) else Lookup(data, k))
               else FourWrites(data, uuid, random, k)
  {
    var d := Written(data, uuid, random);
    SplitAndDefaultLookup(d, split, k);
    FourWritesLookup(data, uuid, random, k);
    FourWritesLookup(data, uuid, random, StrKey("redirect_uris"));
    FourWritesLookup(data, uuid, random, StrKey("grant_types"));
  }

  /** Any key after the URI split and the grant default. */
  lemma SplitAndDefaultLookup(d: seq<(Key, Value)>, split: string -> Value, k: Key)
    ensures var uris := Get(Array(d), "redirect_uris");
            var grants := Get(Array(d), "grant_types");
            Lookup(SplitAndDefault(d, split), k)
            == if k == StrKey("grant_types") then (if grants.Array? then Lookup(d, k) else Some(ClientCredentials))
               else if k == StrKey("redirect_uris") then (if uris.Str? then Some(split(uris.s)) else Lookup(d, k))
               else Lookup(d, k)
  {
    var uris := Get(Array(d), "redirect_uris");
    var d5 := if uris.Str? then Put(d, StrKey("redirect_uris"), split(uris.s)) else d;
    if uris.Str? {
      PutLookup(d, StrKey("redirect_uris"), split(uris.s), k);
      PutLookup(d, StrKey("redirect_uris"), split(uris.s), StrKey("grant_types"));
    }
    var grants := Get(Array(d5), "grant_types");
    if grants.Null? || !grants.Array? {
      PutLookup(d5, StrKey("grant_types"), ClientCredentials, k);
    }
  }

  /** A key's value after the four unconditional writes of the create form. */
  function FourWrites(data: seq<(Key, Value)>, uuid: string, random: string, k: Key): Option<Value> {
    if k == StrKey("id") then Some(Str(uuid))
    else if k == StrKey("secret") then Some(Str(random))
    else if k == StrKey("owner_type") then Some(Str("App\\Models\\User"))
    else if k == StrKey("provider") then Some(Str("users"))
    else Lookup(data, k)
  }

  lemma FourWritesLookup(data: seq<(Key, Value)>, uuid: string, random: string, k: Key)
    ensures Lookup(Written(data, uuid, random), k) == FourWrites(data, uuid, random, k)
  {
    var d1 := Put(data, StrKey("id"), Str(uuid));
    var d2 := Put(d1, StrKey("secret"), Str(random));
    var d3 := Put(d2, StrKey("owner_type"), Str("App\\Models\\User"));
    PutLookup(data, StrKey("id"), Str(uuid), k);
    PutLookup(d1, StrKey("secret"), Str(random), k);
    PutLookup(d2, StrKey("owner_type"), Str("App\\Models\\User"), k);
    PutLookup(d3, StrKey("provider"), Str("users"), k);
  }

  /**
   * After the create mutation: a fresh id and the generated secret, the fixed
   * owner type and user provider, a split URI list when a string was given,
   * a grant list that is an array, and every other key as submitted.
   */
  lemma CreateFields(data: seq<(Key, Value)>, uuid: string, random: string, split: string -> Value, k: Key)
    ensures var r := Array(MutateForCreate(data, uuid, random, split));
            && Get(r, "id") == Str(uuid)
            && Get(r, "secret") == Str(random)
            && Get(r, "owner_type") == Str("App\\Models\\User")
            && Get(r, "provider") == Str("users")
            && (Get(Array(data), "redirect_uris").Str? ==>
                  Get(r, "redirect_uris") == split(Get(Array(data), "redirect_uris").s))
            && (!Get(Array(data), "redirect_uris").Str? ==> Get(r, "redirect_uris") == Get(Array(data), "redirect_uris"))
            && (Get(Array(data), "grant_types").Array? ==> Get(r, "grant_types") == Get(Array(data), "grant_types"))
            && (!Get(Array(data), "grant_types").Array? ==> Get(r, "grant_types") == ClientCredentials)
            && (!WrittenOnCreate(k) ==> Lookup(r.entries, k) == Lookup(data, k))
  {
    CreateLookup(data, uuid, random, split, StrKey("id"));
    CreateLookup(data, uuid, random, split, StrKey("secret"));
    CreateLookup(data, uuid, random, split, StrKey("owner_type"));
    CreateLookup(data, uuid, random, split, StrKey("provider"));
    CreateLookup(data, uuid, random, split, StrKey("redirect_uris"));
    CreateLookup(data, uuid, random, split, StrKey("grant_types"));
    CreateLookup(data, uuid, random, split, k);
  }

  /** `mutateFormDataBeforeSave` of the edit form: the grant list is forced to client credentials. */
  function Edit(data: seq<(Key, Value)>): (r: seq<(Key, Value)>)
    ensures Get(Array(r), "grant_types") == ClientCredentials
    ensures forall k :: k != StrKey("grant_types") ==> Lookup(r, k) == Lookup(data, k)
  {
    forall k ensures Lookup(Put(data, StrKey("grant_types"), ClientCredentials), k) ==
                     (if k == StrKey("grant_types") then Some(ClientCredentials) else Lookup(data, k)) {
      PutLookup(data, StrKey("grant_types"), ClientCredentials, k);
    }
    Put(data, StrKey("grant_types"), ClientCredentials)
  }

  /** Saving the edit form twice is saving it once. */
  lemma EditIdempotent(data: seq<(Key, Value)>)
    ensures Edit(Edit(data)) == Edit(data)
  {
    PutTwice(data, StrKey("grant_types"), ClientCredentials);
  }

  /** Two submissions that differ only in their grant list, or in having one at all, are saved alike. */
  lemma EditIgnoresGrants(data: seq<(Key, Value)>, grants: Value)
    ensures Edit(Put(data, StrKey("grant_types"), grants)) == Edit(data)
  {
    PutOverwrite(data, StrKey("grant_types"), grants, ClientCredentials);
  }

  /** Writing a key twice keeps only the second value, whether or not the key was there before. */
  lemma {:induction false} PutOverwrite(entries: seq<(Key, Value)>, k: Key, x: Value, y: Value)
    ensures Put(Put(entries, k, x), k, y) == Put(entries, k, y)
  {
    if |entries| == 0 {
    } else if entries[0].0 != k {
      PutOverwrite(entries[1..], k, x, y);
      assert Put(entries, k, x)[1..] == Put(entries[1..], k, x);
    } else {
      assert Put(entries, k, x)[1..] == entries[1..];
    }
  }
}
