/**
 * The provider registry: provider rows and the `enabled` / `byPriority`
 * scopes over them.
 */
module Registry {
  import opened Wrappers
  import opened Php
  import Seqs
  import Sorting

  datatype Provider = Provider(
    id: int,
    displayName: string,
    capabilities: Value,
    isEnabled: bool,
    priority: int)

  function Priority(p: Provider): int {
    p.priority
  }

  /** `scopeEnabled`: keeps every enabled provider and drops every disabled one, in table order. */
  function Enabled(ps: seq<Provider>): (r: seq<Provider>)
    ensures forall p :: p in ps && p.isEnabled ==> p in r
    ensures forall p :: p in r ==> p in ps && p.isEnabled
  {
    Seqs.Filter(ps, (p: Provider) => p.isEnabled)
  }

  /** `scopeByPriority`: a reordering of the rows by ascending priority. */
  function ByPriority(ps: seq<Provider>): (r: seq<Provider>)
    ensures Sorting.SortedBy(r, Priority)
    ensures multiset(r) == multiset(ps)
  {
    Sorting.SortBy(ps, Priority)
  }

  /** `Provider::where('display_name', name)->first()` */
  function FirstNamed(ps: seq<Provider>, name: string): (r: Option<Provider>)
    ensures r.None? <==> forall i :: 0 <= i < |ps| ==> ps[i].displayName != name
    ensures r.Some? ==> r.value in ps && r.value.displayName == name
  {
    var i := Seqs.FirstIndex(ps, (p: Provider) => p.displayName == name);
    if i < 0 then None else Some(ps[i])
  }

  /** `Provider::find(id)` */
  function FindById(ps: seq<Provider>, id: int): (r: Option<Provider>)
    ensures r.None? <==> forall i :: 0 <= i < |ps| ==> ps[i].id != id
    ensures r.Some? ==> r.value in ps && r.value.id == id
  {
    var i := Seqs.FirstIndex(ps, (p: Provider) => p.id == id);
    if i < 0 then None else Some(ps[i])
  }
}
