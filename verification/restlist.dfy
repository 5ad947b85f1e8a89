/**
 * `JsonRestList`: the REST face of the id-list store. Every handler works on
 * a freshly loaded list; missing ids become NotFound, and the list is saved
 * only when an operation succeeded. Saving is an abstract effect: the model
 * records whether it was attempted, and `saveError` is what the file system
 * answers (None when the write succeeds).
 */
module RestList {
  import opened Wrappers
  import opened Model
  import opened IdList
  import opened Codec

  /** The handler error kinds. */
  datatype RestError = NotFound | BadRequest(message: string) | Failed(cause: string)

  /** The list after a handler, whether it was saved, and the handler's reply. */
  datatype Reply<T> = Reply(items: seq<T>, saved: bool, body: Result<T, RestError>)

  /** Decodes every element of a JSON array, stopping at the first failure as serde does. */
  function DecodeAll<T>(js: seq<Json>, decode: Json -> Result<T, JsonError>): (r: Result<seq<T>, JsonError>)
    ensures r.Ok? <==> forall i :: 0 <= i < |js| ==> decode(js[i]).Ok?
    ensures r.Ok? ==> |r.value| == |js| && forall i :: 0 <= i < |js| ==> decode(js[i]) == Ok(r.value[i])
    ensures r.Err? ==> exists i :: 0 <= i < |js| && decode(js[i]) == Err(r.error)
  {
    if |js| == 0 then Ok([])
    else
      var first :- decode(js[0]);
      var rest :- DecodeAll(js[1..], decode);
      assert forall i :: 1 <= i < |js| ==> js[i] == js[1..][i - 1];
      Ok([first] + rest)
  }

  /** `save`: the file holds the whole list as one JSON array, element by element. */
  function Save<T>(items: seq<T>, encode: T -> Json): (file: Json)
    ensures file.Arr? && |file.items| == |items|
    ensures forall i :: 0 <= i < |items| ==> file.items[i] == encode(items[i])
  {
    Arr(seq(|items|, i requires 0 <= i < |items| => encode(items[i])))
  }

  /**
   * `load`: a missing file is an empty list; an existing one must hold a JSON
   * array whose every element decodes, and then holds those items in order.
   */
  function Load<T>(file: Option<Json>, decode: Json -> Result<T, JsonError>): (r: Result<seq<T>, JsonError>)
    ensures file.None? ==> r == Ok([])
    ensures file.Some? ==> (r.Ok? <==> file.value.Arr? && forall i :: 0 <= i < |file.value.items| ==> decode(file.value.items[i]).Ok?)
    ensures file.Some? && r.Ok? ==> |r.value| == |file.value.items|
                                    && forall i :: 0 <= i < |r.value| ==> decode(file.value.items[i]) == Ok(r.value[i])
  {
    match file
    case None => Ok([])
    case Some(Arr(js)) => DecodeAll(js, decode)
    case Some(_) => Err(InvalidType("a sequence"))
  }

  /** Loading what `save` wrote gives the list back, whenever each element survives its own codec. */
  lemma LoadAfterSave<T>(items: seq<T>, encode: T -> Json, decode: Json -> Result<T, JsonError>)
    requires forall i :: 0 <= i < |items| ==> decode(encode(items[i])) == Ok(items[i])
    ensures Load(Some(Save(items, encode)), decode) == Ok(items)
  {
    var r := Load(Some(Save(items, encode)), decode);
    assert r.Ok?;
    assert |r.value| == |items|;
    assert forall i :: 0 <= i < |items| ==> r.value[i] == items[i] by {
      forall i | 0 <= i < |items|
        ensures r.value[i] == items[i]
      {
        assert decode(Save(items, encode).items[i]) == Ok(r.value[i]);
      }
    }
    assert r.value == items;
  }

  /** The clients file reloads as the clients that were saved. */
  lemma ClientsLoadAfterSave(clients: seq<Client>)
    ensures Load(Some(Save(clients, EncodeClient)), DecodeClient) == Ok(clients)
  {
    forall i | 0 <= i < |clients|
      ensures DecodeClient(EncodeClient(clients[i])) == Ok(clients[i])
    {
      ClientRoundTrip(clients[i]);
    }
    LoadAfterSave(clients, EncodeClient, DecodeClient);
  }

  /** The domain-lists file reloads as the lists that were saved. */
  lemma DomainListsLoadAfterSave(lists: seq<DomainList>)
    ensures Load(Some(Save(lists, EncodeDomainList)), DecodeDomainList) == Ok(lists)
  {
    forall i | 0 <= i < |lists|
      ensures DecodeDomainList(EncodeDomainList(lists[i])) == Ok(lists[i])
    {
      DomainListRoundTrip(lists[i]);
    }
    LoadAfterSave(lists, EncodeDomainList, DecodeDomainList);
  }

  /** The reply once the list has been saved. */
  function AfterSave<T>(items: seq<T>, value: T, saveError: Option<string>): (r: Reply<T>)
    ensures r.items == items && r.saved
    ensures r.body.Ok? <==> saveError.None?
    ensures r.body.Ok? ==> r.body.value == value
  {
    Reply(items, true, if saveError.None? then Ok(value) else Err(Failed(saveError.value)))
  }

  /** `get`: the first item carrying `id`, else NotFound. */
  function Get<T>(items: seq<T>, id: U32, k: Identity<T>): (r: Result<T, RestError>)
    ensures r.Err? <==> forall i :: 0 <= i < |items| ==> k.get(items[i]) != Some(id)
    ensures r.Err? ==> r.error == NotFound
    ensures r.Ok? ==> exists p :: (0 <= p < |items| && items[p] == r.value && k.get(r.value) == Some(id)
                                   && forall i :: 0 <= i < p ==> k.get(items[i]) != Some(id))
  {
    match Position(items, id, k)
    case None => Err(NotFound)
    case Some(p) => Ok(items[p])
  }

  /** `put`: replace the item carrying `id`; NotFound (and no save) when there is none. */
  function Put<T(!new)>(items: seq<T>, id: U32, item: T, k: Identity<T>, saveError: Option<string>): (r: Reply<T>)
    requires Lawful(k)
    ensures r.saved <==> exists i :: 0 <= i < |items| && k.get(items[i]) == Some(id)
    ensures !r.saved ==> r.items == items && r.body == Err(NotFound)
    ensures r.saved && saveError.None? ==> r.body.Ok? && k.get(r.body.value) == Some(id)
    ensures r.saved ==> r.items == Update(items, id, item, k).items
  {
    var u := Update(items, id, item, k);
    if u.result.Some? then AfterSave(u.items, u.result.value, saveError) else Reply(items, false, Err(NotFound))
  }

  /** `delete`: remove and return the item carrying `id`; NotFound (and no save) when there is none. */
  function Remove<T>(items: seq<T>, id: U32, k: Identity<T>, saveError: Option<string>): (r: Reply<T>)
    ensures r.saved <==> exists i :: 0 <= i < |items| && k.get(items[i]) == Some(id)
    ensures !r.saved ==> r.items == items && r.body == Err(NotFound)
    ensures r.saved ==> |r.items| == |items| - 1
    ensures r.saved && saveError.None? ==> r.body.Ok? && k.get(r.body.value) == Some(id) && r.body.value in items
    ensures r.saved ==> r.items == Delete(items, id, k).items
    ensures r.saved && saveError.None? ==> Some(r.body.value) == Delete(items, id, k).result
  {
    var d := Delete(items, id, k);
    if d.result.Some? then AfterSave(d.items, d.result.value, saveError) else Reply(items, false, Err(NotFound))
  }

  /** `add`: always saves, and replies with the item carrying its freshly allocated id. */
  function Post<T(!new)>(items: seq<T>, item: T, k: Identity<T>, saveError: Option<string>): (r: Reply<T>)
    requires Lawful(k) && AllIdentified(items, k) && MaxId(items, k) < U32_MAX
    ensures r.saved && |r.items| == |items| + 1 && r.items[..|items|] == items
    ensures saveError.None? ==> r.body.Ok? && r.body.value == r.items[|items|]
    ensures r.items[|items|] == k.assign(item, MaxId(items, k) + 1)
    ensures k.get(r.items[|items|]) == Some(MaxId(items, k) + 1)
  {
    var a := Add(items, item, k);
    assert a.items[..|items|] == items;
    AfterSave(a.items, a.result.value, saveError)
  }

  /** A failed put or delete leaves the stored list as it was. */
  lemma NotFoundLeavesListAlone<T(!new)>(items: seq<T>, id: U32, item: T, k: Identity<T>, saveError: Option<string>)
    requires Lawful(k)
    requires forall i :: 0 <= i < |items| ==> k.get(items[i]) != Some(id)
    ensures Put(items, id, item, k, saveError) == Reply(items, false, Err(NotFound))
    ensures Remove(items, id, k, saveError) == Reply(items, false, Err(NotFound))
    ensures Get(items, id, k) == Err(NotFound)
  {
  }

  /** With unique ids, a get after a remove of that id answers NotFound. */
  lemma GetAfterRemove<T>(items: seq<T>, id: U32, k: Identity<T>, saveError: Option<string>)
    requires UniqueIds(items, k)
    ensures Get(Remove(items, id, k, saveError).items, id, k) == Err(NotFound)
  {
    DeleteRemovesId(items, id, k);
  }

  /**
   * Removing an id that only the last item carries takes off that item and
   * replies with it: the inverse of `Post`, whose new id exceeds every other.
   */
  lemma RemoveLast<T>(all: seq<T>, id: U32, k: Identity<T>, saveError: Option<string>)
    requires |all| > 0 && k.get(all[|all| - 1]) == Some(id)
    requires forall i :: 0 <= i < |all| - 1 ==> k.get(all[i]) != Some(id)
    ensures Remove(all, id, k, saveError) == AfterSave(all[..|all| - 1], all[|all| - 1], saveError)
  {
    var p := Position(all, id, k);
    assert p == Some(|all| - 1);
    assert all[|all| - 1 + 1..] == [];
  }

  /** Getting an id right after putting it returns what the put returned. */
  lemma GetAfterPut<T(!new)>(items: seq<T>, id: U32, item: T, k: Identity<T>)
    requires Lawful(k)
    requires exists i :: 0 <= i < |items| && k.get(items[i]) == Some(id)
    ensures Put(items, id, item, k, None).body.Ok?
    ensures Get(Put(items, id, item, k, None).items, id, k) == Put(items, id, item, k, None).body
  {
    UpdateThenFind(items, id, item, k);
  }
}
