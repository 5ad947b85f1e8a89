/**
 * The server's client and domain-list handlers, as far as they hold logic:
 * the duplicate-ip guard on client creation and which handlers ask for the
 * squid configuration to be regenerated.
 */
module Api {
  import opened Wrappers
  import opened Model
  import opened IdList
  import opened RestList

  /** A handler's reply and whether it sent the regenerate event. */
  datatype Handled<T> = Handled(reply: Reply<T>, regenerate: bool)

  predicate IpTaken(clients: seq<Client>, ip: string) {
    exists i :: 0 <= i < |clients| && clients[i].ip == ip
  }

  /** No two clients share an ip address. */
  predicate UniqueIps(clients: seq<Client>) {
    forall i, j :: 0 <= i < j < |clients| ==> clients[i].ip != clients[j].ip
  }

  function DuplicateIpMessage(ip: string): string {
    "A client with ip address '" + ip + "' already exists."
  }

  /**
   * `clients::post`: a client whose ip is already taken is refused with
   * BadRequest, nothing saved and no regeneration; otherwise it is added with
   * a fresh id and regeneration is requested.
   */
  function PostClient(clients: seq<Client>, client: Client, saveError: Option<string>): (h: Handled<Client>)
    requires !IpTaken(clients, client.ip) ==>
      AllIdentified(clients, ClientIdentity()) && MaxId(clients, ClientIdentity()) < U32_MAX
    ensures h.regenerate <==> !IpTaken(clients, client.ip)
    ensures !h.regenerate ==> h.reply == Reply(clients, false, Err(BadRequest(DuplicateIpMessage(client.ip))))
    ensures h.regenerate ==> h.reply.saved && |h.reply.items| == |clients| + 1
    ensures h.regenerate ==> h.reply.items[..|clients|] == clients && h.reply.items[|clients|].ip == client.ip
    ensures h.regenerate ==> h.reply.items[|clients|] == SetClientId(client, MaxId(clients, ClientIdentity()) + 1)
  {
    if IpTaken(clients, client.ip) then
      Handled(Reply(clients, false, Err(BadRequest(DuplicateIpMessage(client.ip)))), false)
    else
      IdentitiesLawful();
      Handled(Post(clients, client, ClientIdentity(), saveError), true)
  }

  /** `clients::put`: regeneration is requested whether or not the id was found. */
  function PutClient(clients: seq<Client>, id: U32, client: Client, saveError: Option<string>): (h: Handled<Client>)
    ensures h.regenerate
    ensures h.reply.saved <==> exists i :: 0 <= i < |clients| && clients[i].id == Some(id)
    ensures h.reply.saved ==> h.reply.items == Update(clients, id, client, ClientIdentity()).items
    ensures !h.reply.saved ==> h.reply.items == clients && h.reply.body == Err(NotFound)
  {
    IdentitiesLawful();
    Handled(Put(clients, id, client, ClientIdentity(), saveError), true)
  }

  /** `clients::delete`: regeneration is requested whether or not the id was found. */
  function DeleteClient(clients: seq<Client>, id: U32, saveError: Option<string>): (h: Handled<Client>)
    ensures h.regenerate
    ensures h.reply.saved <==> exists i :: 0 <= i < |clients| && clients[i].id == Some(id)
    ensures h.reply.saved ==> h.reply.items == Delete(clients, id, ClientIdentity()).items
    ensures h.reply.saved && saveError.None? ==> h.reply.body.Ok? && Some(h.reply.body.value) == Delete(clients, id, ClientIdentity()).result
    ensures !h.reply.saved ==> h.reply.items == clients && h.reply.body == Err(NotFound)
  {
    Handled(Remove(clients, id, ClientIdentity(), saveError), true)
  }

  /** `domains::post`: no uniqueness check and no regeneration. */
  function PostDomainList(lists: seq<DomainList>, list: DomainList, saveError: Option<string>): (h: Handled<DomainList>)
    requires AllIdentified(lists, DomainListIdentity()) && MaxId(lists, DomainListIdentity()) < U32_MAX
    ensures !h.regenerate && h.reply.saved && |h.reply.items| == |lists| + 1
    ensures h.reply.items[|lists|] == SetDomainListId(list, MaxId(lists, DomainListIdentity()) + 1)
  {
    IdentitiesLawful();
    Handled(Post(lists, list, DomainListIdentity(), saveError), false)
  }

  /** `domains::put`: never requests regeneration. */
  function PutDomainList(lists: seq<DomainList>, id: U32, list: DomainList, saveError: Option<string>): (h: Handled<DomainList>)
    ensures !h.regenerate
    ensures h.reply.saved <==> exists i :: 0 <= i < |lists| && lists[i].id == Some(id)
    ensures h.reply.saved ==> h.reply.items == Update(lists, id, list, DomainListIdentity()).items
    ensures !h.reply.saved ==> h.reply.items == lists && h.reply.body == Err(NotFound)
  {
    IdentitiesLawful();
    Handled(Put(lists, id, list, DomainListIdentity(), saveError), false)
  }

  /** `domains::delete`: never requests regeneration. */
  function DeleteDomainList(lists: seq<DomainList>, id: U32, saveError: Option<string>): (h: Handled<DomainList>)
    ensures !h.regenerate
    ensures h.reply.saved <==> exists i :: 0 <= i < |lists| && lists[i].id == Some(id)
    ensures h.reply.saved ==> h.reply.items == Delete(lists, id, DomainListIdentity()).items
    ensures h.reply.saved && saveError.None? ==> h.reply.body.Ok? && Some(h.reply.body.value) == Delete(lists, id, DomainListIdentity()).result
    ensures !h.reply.saved ==> h.reply.items == lists && h.reply.body == Err(NotFound)
  {
    Handled(Remove(lists, id, DomainListIdentity(), saveError), false)
  }

  /** Creating clients only through `post` keeps ip addresses unique. */
  lemma PostKeepsIpsUnique(clients: seq<Client>, client: Client, saveError: Option<string>)
    requires !IpTaken(clients, client.ip) ==>
      AllIdentified(clients, ClientIdentity()) && MaxId(clients, ClientIdentity()) < U32_MAX
    requires UniqueIps(clients)
    ensures UniqueIps(PostClient(clients, client, saveError).reply.items)
  {
    var h := PostClient(clients, client, saveError);
    if h.regenerate {
      assert h.reply.items[..|clients|] == clients;
      forall i, j | 0 <= i < j < |h.reply.items|
        ensures h.reply.items[i].ip != h.reply.items[j].ip
      {
        if j == |clients| {
          assert h.reply.items[i] == clients[i];
        } else {
          assert h.reply.items[i] == clients[i] && h.reply.items[j] == clients[j];
        }
      }
    }
  }
}
