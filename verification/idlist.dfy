/**
 * The id-allocating list store: `IdentifiedList` (src/list.rs) and its
 * identical twin `ManagedList` (src/config.rs). Items are looked up by their
 * optional u32 id; `add` allocates one more than the largest id present.
 */
module IdList {
  import opened Wrappers
  import opened Model

  /** The `Identifiable` trait: read an item's id, and overwrite it. */
  datatype Identity<!T> = Identity(get: T -> Option<U32>, assign: (T, U32) -> T)

  /** `set_id(i)` makes `id()` return `Some(i)`. */
  ghost predicate Lawful<T(!new)>(k: Identity<T>) {
    forall x: T, i: U32 :: k.get(k.assign(x, i)) == Some(i)
  }

  /** Every item carries an id (what `add`'s `unwrap` demands). */
  predicate AllIdentified<T>(items: seq<T>, k: Identity<T>) {
    forall i :: 0 <= i < |items| ==> k.get(items[i]).Some?
  }

  /** No two items carry the same id. */
  predicate UniqueIds<T>(items: seq<T>, k: Identity<T>) {
    forall i, j :: 0 <= i < j < |items| && k.get(items[i]).Some? ==> k.get(items[i]) != k.get(items[j])
  }

  /** `items.iter().map(|c| c.id()).fold(0, |a, b| a.max(b.unwrap()))`. */
  function MaxId<T>(items: seq<T>, k: Identity<T>): (m: U32)
    requires AllIdentified(items, k)
    ensures forall i :: 0 <= i < |items| ==> k.get(items[i]).value <= m
    ensures m == 0 || exists i :: 0 <= i < |items| && k.get(items[i]) == Some(m)
  {
    if |items| == 0 then 0
    else
      var init := items[..|items| - 1];
      assert forall i :: 0 <= i < |init| ==> init[i] == items[i];
      var a := MaxId(init, k);
      var b := k.get(items[|items| - 1]).value;
      if a >= b then a else b
  }

  /** `iter().position(|c| c.id() == Some(id))`: the first item carrying `id`. */
  function Position<T>(items: seq<T>, id: U32, k: Identity<T>): (p: Option<nat>)
    ensures p.None? <==> forall i :: 0 <= i < |items| ==> k.get(items[i]) != Some(id)
    ensures p.Some? ==> p.value < |items| && k.get(items[p.value]) == Some(id)
    ensures p.Some? ==> forall i :: 0 <= i < p.value ==> k.get(items[i]) != Some(id)
  {
    if |items| == 0 then None
    else if k.get(items[0]) == Some(id) then Some(0)
    else
      var rest := Position(items[1..], id, k);
      assert forall i :: 0 < i < |items| ==> items[i] == items[1..][i - 1];
      if rest.None? then None else Some(rest.value + 1)
  }

  /** A list after an operation, and the item the operation returned, if any. */
  datatype Outcome<T> = Outcome(items: seq<T>, result: Option<T>)

  /**
   * `add`: the item gets id max + 1 (1 for an empty list), overwriting any
   * id it carried, and is appended; the returned item is the new last one.
   * A max id of u32::MAX would overflow, so it is excluded.
   */
  function Add<T(!new)>(items: seq<T>, item: T, k: Identity<T>): (r: Outcome<T>)
    requires Lawful(k) && AllIdentified(items, k) && MaxId(items, k) < U32_MAX
    ensures r.result == Some(k.assign(item, MaxId(items, k) + 1))
    ensures r.items == items + [r.result.value]
    ensures k.get(r.result.value) == Some(MaxId(items, k) + 1)
    ensures |items| == 0 ==> k.get(r.result.value) == Some(1)
    ensures forall i :: 0 <= i < |items| ==> k.get(items[i]).value < k.get(r.result.value).value
  {
    var owned := k.assign(item, MaxId(items, k) + 1);
    Outcome(items + [owned], Some(owned))
  }

  /** Ids stay unique across `add`, since the new id exceeds every other. */
  lemma AddKeepsIdsUnique<T(!new)>(items: seq<T>, item: T, k: Identity<T>)
    requires Lawful(k) && AllIdentified(items, k) && MaxId(items, k) < U32_MAX
    requires UniqueIds(items, k)
    ensures AllIdentified(Add(items, item, k).items, k)
    ensures UniqueIds(Add(items, item, k).items, k)
  {
    var r := Add(items, item, k);
    assert forall i :: 0 <= i < |items| ==> r.items[i] == items[i];
  }

  /**
   * `update`: with no item carrying `id`, nothing changes and None is
   * returned; otherwise only the first such item is replaced, by `updated`
   * with its id forced to `id`, and that is returned.
   */
  function Update<T(!new)>(items: seq<T>, id: U32, updated: T, k: Identity<T>): (r: Outcome<T>)
    requires Lawful(k)
    ensures r.result.None? <==> forall i :: 0 <= i < |items| ==> k.get(items[i]) != Some(id)
    ensures r.result.None? ==> r.items == items
    ensures r.result.Some? ==> k.get(r.result.value) == Some(id) && |r.items| == |items|
    ensures r.result.Some? ==>
              exists p :: (0 <= p < |items| && k.get(items[p]) == Some(id)
                           && (forall i :: 0 <= i < p ==> k.get(items[i]) != Some(id))
                           && r.items == items[p := r.result.value])
  {
    var owned := k.assign(updated, id);
    match Position(items, id, k)
    case None => Outcome(items, None)
    case Some(p) => Outcome(items[p := owned], Some(owned))
  }

  /**
   * `delete`: the first item carrying `id` is removed, the rest keep their
   * order, and it is returned; with none, nothing changes and None is returned.
   */
  function Delete<T>(items: seq<T>, id: U32, k: Identity<T>): (r: Outcome<T>)
    ensures r.result.None? <==> forall i :: 0 <= i < |items| ==> k.get(items[i]) != Some(id)
    ensures r.result.None? ==> r.items == items
    ensures r.result.Some? ==> |r.items| == |items| - 1
    ensures r.result.Some? ==>
              exists p :: (0 <= p < |items| && k.get(items[p]) == Some(id)
                           && (forall i :: 0 <= i < p ==> k.get(items[i]) != Some(id))
                           && r.result.value == items[p] && r.items == items[..p] + items[p + 1..])
  {
    match Position(items, id, k)
    case None => Outcome(items, None)
    case Some(p) => Outcome(items[..p] + items[p + 1..], Some(items[p]))
  }

  /** Deleting the item `add` just created gives back the original list. */
  lemma DeleteUndoesAdd<T(!new)>(items: seq<T>, item: T, k: Identity<T>)
    requires Lawful(k) && AllIdentified(items, k) && MaxId(items, k) < U32_MAX
    ensures var added := Add(items, item, k);
      Delete(added.items, k.get(added.result.value).value, k) == Outcome(items, added.result)
  {
    var added := Add(items, item, k);
    var id := k.get(added.result.value).value;
    assert forall i :: 0 <= i < |items| ==> added.items[i] == items[i] && k.get(items[i]) != Some(id);
    assert k.get(added.items[|items|]) == Some(id);
    var p := Position(added.items, id, k);
    assert p.Some?;
    assert p.value == |items|;
    assert added.items[..|items|] == items;
  }

  /** Deleting an id and then finding it again fails when ids were unique. */
  lemma DeleteRemovesId<T>(items: seq<T>, id: U32, k: Identity<T>)
    requires UniqueIds(items, k)
    ensures forall i :: 0 <= i < |Delete(items, id, k).items| ==> k.get(Delete(items, id, k).items[i]) != Some(id)
  {
    var r := Delete(items, id, k);
    if r.result.Some? {
      var p := Position(items, id, k).value;
      forall i | 0 <= i < |r.items|
        ensures k.get(r.items[i]) != Some(id)
      {
        if i >= p {
          assert r.items[i] == items[i + 1];
        }
      }
    }
  }

  /** After an update of a present id, looking the id up finds the updated item. */
  lemma UpdateThenFind<T(!new)>(items: seq<T>, id: U32, updated: T, k: Identity<T>)
    requires Lawful(k)
    requires exists i :: 0 <= i < |items| && k.get(items[i]) == Some(id)
    ensures var r := Update(items, id, updated, k);
      r.result == Some(k.assign(updated, id))
      && Position(r.items, id, k) == Position(items, id, k)
      && r.items[Position(items, id, k).value] == k.assign(updated, id)
  {
    var p := Position(items, id, k).value;
    var r := Update(items, id, updated, k);
    assert r.items == items[p := k.assign(updated, id)];
    assert k.get(r.items[p]) == Some(id);
    assert forall i :: 0 <= i < p ==> r.items[i] == items[i];
  }

  /** `Identifiable::set_id` for a client: the id becomes `Some(id)`, nothing else changes. */
  function SetClientId(c: Client, id: U32): (r: Client)
    ensures r.id == Some(id)
    ensures r.ip == c.ip && r.name == c.name && r.rules == c.rules
      && r.leases == c.leases && r.macAddress == c.macAddress
  {
    c.(id := Some(id))
  }

  /** `Identifiable::set_id` for a domain list: the id becomes `Some(id)`, nothing else changes. */
  function SetDomainListId(l: DomainList, id: U32): (r: DomainList)
    ensures r.id == Some(id)
    ensures r.name == l.name && r.domains == l.domains
  {
    l.(id := Some(id))
  }

  function ClientIdentity(): Identity<Client> {
    Identity((c: Client) => c.id, SetClientId)
  }

  function DomainListIdentity(): Identity<DomainList> {
    Identity((l: DomainList) => l.id, SetDomainListId)
  }

  lemma IdentitiesLawful()
    ensures Lawful(ClientIdentity()) && Lawful(DomainListIdentity())
  {
  }
}
