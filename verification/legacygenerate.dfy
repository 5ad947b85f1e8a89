/**
 * The older `generate_squid_config`: kinds are compared as raw strings, the
 * client acl carries a host mask, and each domain list gets its own `.txt`
 * file that `domains.conf` points to. With no domain lists nothing is
 * written for them at all, and there is no dummy client file.
 */
module LegacyGenerate {
  import opened Wrappers
  import opened Text
  import opened LegacyModel
  import Model
  import Generate

  const HostMask: string := "/255.255.255.255"

  /** The ids of every allow-kind lease whose end is strictly after `now`, lease by lease. */
  function ExemptIds(leases: seq<Lease>, now: int): seq<Model.U32>
  {
    if |leases| == 0 then []
    else
      var rest := ExemptIds(leases[1..], now);
      if leases[0].rule.kind == AllowRule && leases[0].endDate > now then leases[0].rule.domainlists + rest else rest
  }

  /** The ids of every deny-kind rule, in rule then list order. */
  function DenyCandidates(rules: seq<Rule>): seq<Model.U32>
  {
    if |rules| == 0 then []
    else
      var rest := DenyCandidates(rules[1..]);
      if rules[0].kind == DenyRule then rules[0].domainlists + rest else rest
  }

  function BlockedIds(c: Client, now: int): seq<Model.U32> {
    Generate.Surviving(DenyCandidates(c.rules), ExemptIds(c.leases, now))
  }

  /** The content of `client_NNNN.conf`. */
  function ClientConf(c: Client, now: int): seq<string>
    requires c.id.Some?
  {
    var name := Generate.ClientName(c.id.value);
    [Generate.AclLine(name, c.ip + HostMask)] + Generate.DenyLines(name, BlockedIds(c, now))
  }

  /** The client files, written in client order by `render`; clients without rules are skipped, later ids overwrite. */
  function WriteConfs(clients: seq<Client>, render: Client --> seq<string>): Generate.Files
    requires forall i :: 0 <= i < |clients| && |clients[i].rules| > 0 ==> clients[i].id.Some? && render.requires(clients[i])
  {
    if |clients| == 0 then map[]
    else
      var c := clients[|clients| - 1];
      var earlier := WriteConfs(clients[..|clients| - 1], render);
      if |c.rules| == 0 then earlier else earlier[Generate.ClientFileName(c.id.value) := render(c)]
  }

  function ClientFiles(clients: seq<Client>, now: int): Generate.Files
    requires forall i :: 0 <= i < |clients| && |clients[i].rules| > 0 ==> clients[i].id.Some?
  {
    WriteConfs(clients, (c: Client) requires c.id.Some? => ClientConf(c, now))
  }

  function TxtName(id: Model.U32): string {
    Generate.DomainsName(id) + ".txt"
  }

  /** The `domains.conf` line pointing squid at a list's `.txt` file. */
  function DomainRef(l: Model.DomainList): string
    requires l.id.Some?
  {
    var name := Generate.DomainsName(l.id.value);
    "acl " + name + " dstdomain \"./" + name + ".txt\""
  }

  function DomainRefs(lists: seq<Model.DomainList>): (r: seq<string>)
    requires forall j :: 0 <= j < |lists| ==> lists[j].id.Some?
    ensures |r| == |lists|
    ensures forall j :: 0 <= j < |lists| ==> r[j] == DomainRef(lists[j])
  {
    if |lists| == 0 then [] else [DomainRef(lists[0])] + DomainRefs(lists[1..])
  }

  /** `files` with one more file per item, written in order: a repeated name is overwritten. */
  function WriteEach<T>(files: Generate.Files, items: seq<T>, name: T --> string, body: T --> seq<string>): Generate.Files
    requires forall j :: 0 <= j < |items| ==> name.requires(items[j]) && body.requires(items[j])
  {
    if |items| == 0 then files
    else
      var last := items[|items| - 1];
      WriteEach(files, items[..|items| - 1], name, body)[name(last) := body(last)]
  }

  function ListTxtName(l: Model.DomainList): string
    requires l.id.Some?
  {
    TxtName(l.id.value)
  }

  /** A list's `.txt` file is one write of its domains joined by newlines. */
  function ListTxt(l: Model.DomainList): seq<string> {
    [Join(l.domains, "\n")]
  }

  /** The `.txt` files, one per list in order (a repeated id overwrites). */
  function TxtFiles(files: Generate.Files, lists: seq<Model.DomainList>): Generate.Files
    requires forall j :: 0 <= j < |lists| ==> lists[j].id.Some?
  {
    WriteEach(files, lists, ListTxtName, ListTxt)
  }

  function GenerateSquidConfig(clients: seq<Client>, lists: seq<Model.DomainList>, now: int): Generate.Files
    requires forall i :: 0 <= i < |clients| && |clients[i].rules| > 0 ==> clients[i].id.Some?
    requires forall j :: 0 <= j < |lists| ==> lists[j].id.Some?
  {
    var files := ClientFiles(clients, now);
    if |lists| == 0 then files
    else TxtFiles(files[Generate.DomainsFile := DomainRefs(lists)], lists)
  }

  /** List `m` is named by some rule whose kind is exactly "deny_http_access". */
  ghost predicate DeniedByRule(c: Client, m: Model.U32) {
    exists r :: r in c.rules && r.kind == DenyRule && m in r.domainlists
  }

  /** Some lease of kind exactly "allow_http_access" names `m` and ends strictly after `now`. */
  ghost predicate ExemptedByLease(c: Client, m: Model.U32, now: int) {
    exists l :: l in c.leases && l.rule.kind == AllowRule && l.endDate > now && m in l.rule.domainlists
  }

  lemma {:induction false} ExemptIdsMembers(leases: seq<Lease>, now: int, m: Model.U32)
    ensures m in ExemptIds(leases, now) <==>
      exists l :: l in leases && l.rule.kind == AllowRule && l.endDate > now && m in l.rule.domainlists
  {
    if |leases| > 0 {
      ExemptIdsMembers(leases[1..], now, m);
      assert leases == [leases[0]] + leases[1..];
    }
  }

  lemma {:induction false} DenyCandidatesMembers(rules: seq<Rule>, m: Model.U32)
    ensures m in DenyCandidates(rules) <==> exists r :: r in rules && r.kind == DenyRule && m in r.domainlists
  {
    if |rules| > 0 {
      DenyCandidatesMembers(rules[1..], m);
      assert rules == [rules[0]] + rules[1..];
    }
  }

  /**
   * A deny line for list `m` is written iff a rule of kind exactly
   * "deny_http_access" names `m` and no lease of kind exactly
   * "allow_http_access" ending strictly after `now` names it.
   */
  lemma DenyLineIff(c: Client, now: int, m: Model.U32)
    requires c.id.Some?
    ensures Generate.DenyLine(Generate.ClientName(c.id.value), m) in ClientConf(c, now)
      <==> DeniedByRule(c, m) && !ExemptedByLease(c, m, now)
  {
    var name := Generate.ClientName(c.id.value);
    DenyCandidatesMembers(c.rules, m);
    ExemptIdsMembers(c.leases, now, m);
    Generate.SurvivingMembers(DenyCandidates(c.rules), ExemptIds(c.leases, now));
    Generate.DenyLinesMembers(name, BlockedIds(c, now), m);
    assert "http_access deny "[0] == 'h' && "acl "[0] == 'a';
    assert Generate.DenyLine(name, m)[0] != ClientConf(c, now)[0][0];
  }

  /** A rule whose kind is not exactly "deny_http_access" ("Deny_http_access", say) changes nothing. */
  lemma OtherRuleKindIgnored(c: Client, now: int, r: Rule)
    requires c.id.Some? && r.kind != DenyRule
    ensures ClientConf(c.(rules := c.rules + [r]), now) == ClientConf(c, now)
  {
    DenyCandidatesAppend(c.rules, [r]);
    assert DenyCandidates([r]) == [];
    assert c.rules + [r] == c.(rules := c.rules + [r]).rules;
    assert DenyCandidates(c.rules) + [] == DenyCandidates(c.rules);
  }

  /** A lease whose kind is not exactly "allow_http_access", or that ends by `now`, changes nothing. */
  lemma InertLease(c: Client, now: int, l: Lease)
    requires c.id.Some? && (l.rule.kind != AllowRule || l.endDate <= now)
    ensures ClientConf(c.(leases := c.leases + [l]), now) == ClientConf(c, now)
  {
    var c' := c.(leases := c.leases + [l]);
    forall m: Model.U32 ensures m in ExemptIds(c'.leases, now) <==> m in ExemptIds(c.leases, now) {
      ExemptIdsMembers(c'.leases, now, m);
      ExemptIdsMembers(c.leases, now, m);
    }
    SurvivingSameMembers(DenyCandidates(c.rules), ExemptIds(c'.leases, now), ExemptIds(c.leases, now));
  }

  lemma {:induction false} SurvivingSameMembers(candidates: seq<Model.U32>, a: seq<Model.U32>, b: seq<Model.U32>)
    requires forall m :: m in a <==> m in b
    ensures Generate.Surviving(candidates, a) == Generate.Surviving(candidates, b)
  {
    if |candidates| > 0 {
      SurvivingSameMembers(candidates[1..], a, b);
    }
  }

  lemma {:induction false} DenyCandidatesAppend(a: seq<Rule>, b: seq<Rule>)
    ensures DenyCandidates(a + b) == DenyCandidates(a) + DenyCandidates(b)
  {
    if |a| == 0 {
      assert a + b == b;
    } else {
      DenyCandidatesAppend(a[1..], b);
      assert (a + b)[0] == a[0];
      assert (a + b)[1..] == a[1..] + b;
      if a[0].kind == DenyRule {
        Assoc(a[0].domainlists, DenyCandidates(a[1..]), DenyCandidates(b));
      }
    }
  }

  /** The acl line splits into `acl`, the client's name, `src` and the ip with its host mask. */
  lemma AclLineSplits(c: Client, now: int)
    requires c.id.Some? && IsToken(c.ip)
    ensures SplitWhitespace(ClientConf(c, now)[0])
      == ["acl", Generate.ClientName(c.id.value), "src", c.ip + "/255.255.255.255"]
  {
    var name := Generate.ClientName(c.id.value);
    VisibleIsToken(HostMask);
    TokensAppend(c.ip, HostMask);
    Generate.IdStringIsToken("client", c.id.value);
    Generate.AclLineSplits(name, c.ip + HostMask);
  }

  predicate UniqueClientIds(clients: seq<Client>) {
    forall i, j :: 0 <= i < j < |clients| && clients[i].id.Some? ==> clients[i].id != clients[j].id
  }

  predicate UniqueListIds(lists: seq<Model.DomainList>) {
    forall i, j :: 0 <= i < j < |lists| && lists[i].id.Some? ==> lists[i].id != lists[j].id
  }

  lemma {:induction false} WriteConfsNames(clients: seq<Client>, render: Client --> seq<string>, f: string)
    requires forall i :: 0 <= i < |clients| && |clients[i].rules| > 0 ==> clients[i].id.Some? && render.requires(clients[i])
    ensures f in WriteConfs(clients, render) <==>
      exists i :: 0 <= i < |clients| && |clients[i].rules| > 0 && f == Generate.ClientFileName(clients[i].id.value)
  {
    if |clients| > 0 {
      var last := |clients| - 1;
      var init := clients[..last];
      assert forall i :: 0 <= i < |init| ==> init[i] == clients[i];
      WriteConfsNames(init, render, f);
      assert clients == init + [clients[last]];
    }
  }

  lemma {:induction false} WriteConfsAt(clients: seq<Client>, render: Client --> seq<string>, i: nat)
    requires forall k :: 0 <= k < |clients| && |clients[k].rules| > 0 ==> clients[k].id.Some? && render.requires(clients[k])
    requires UniqueClientIds(clients)
    requires i < |clients| && |clients[i].rules| > 0
    ensures Generate.ClientFileName(clients[i].id.value) in WriteConfs(clients, render)
    ensures WriteConfs(clients, render)[Generate.ClientFileName(clients[i].id.value)] == render(clients[i])
  {
    var last := |clients| - 1;
    if i < last {
      var init := clients[..last];
      assert init[i] == clients[i];
      assert forall k :: 0 <= k < |init| ==> init[k] == clients[k];
      WriteConfsAt(init, render, i);
      if |clients[last].rules| > 0 {
        Generate.ClientFileNameInjective(clients[i].id.value, clients[last].id.value);
      }
    }
  }

  lemma TxtNameInjective(a: Model.U32, b: Model.U32)
    ensures TxtName(a) == TxtName(b) ==> a == b
  {
    if TxtName(a) == TxtName(b) {
      assert Generate.DomainsName(a) == TxtName(a)[..|TxtName(a)| - 4];
      assert Generate.DomainsName(b) == TxtName(b)[..|TxtName(b)| - 4];
      Generate.IdStringInjective("domains", a, b);
    }
  }

  /** A `.txt` name is neither `domains.conf` nor any client's conf. */
  lemma TxtNameReserved(id: Model.U32, other: Model.U32)
    ensures TxtName(id) != Generate.DomainsFile
    ensures TxtName(id) != Generate.ClientFileName(other)
  {
    Generate.IdStringPrefix("domains", id);
    Generate.IdStringPrefix("client", other);
    assert TxtName(id)[0] == Generate.DomainsName(id)[0] == 'd';
    assert Generate.ClientFileName(other)[0] == Generate.ClientName(other)[0] == 'c';
    assert TxtName(id)[7] == Generate.DomainsName(id)[7] == '_';
    assert Generate.DomainsFile[7] == '.';
  }

  lemma {:induction false} WriteEachNames<T>(files: Generate.Files, items: seq<T>, name: T --> string, body: T --> seq<string>, f: string)
    requires forall j :: 0 <= j < |items| ==> name.requires(items[j]) && body.requires(items[j])
    ensures f in WriteEach(files, items, name, body) <==> f in files || exists j :: 0 <= j < |items| && f == name(items[j])
  {
    if |items| > 0 {
      var init := items[..|items| - 1];
      WriteEachNames(files, init, name, body, f);
      assert forall j :: 0 <= j < |init| ==> init[j] == items[j];
    }
  }

  lemma {:induction false} WriteEachKeep<T>(files: Generate.Files, items: seq<T>, name: T --> string, body: T --> seq<string>, f: string)
    requires forall j :: 0 <= j < |items| ==> name.requires(items[j]) && body.requires(items[j])
    requires forall j :: 0 <= j < |items| ==> f != name(items[j])
    ensures f in WriteEach(files, items, name, body) <==> f in files
    ensures f in files ==> WriteEach(files, items, name, body)[f] == files[f]
  {
    if |items| > 0 {
      var init := items[..|items| - 1];
      assert forall j :: 0 <= j < |init| ==> init[j] == items[j];
      WriteEachKeep(files, init, name, body, f);
    }
  }

  lemma {:induction false} WriteEachAt<T>(files: Generate.Files, items: seq<T>, name: T --> string, body: T --> seq<string>, j: nat)
    requires forall k :: 0 <= k < |items| ==> name.requires(items[k]) && body.requires(items[k])
    requires forall i, k :: 0 <= i < k < |items| ==> name(items[i]) != name(items[k])
    requires j < |items|
    ensures name(items[j]) in WriteEach(files, items, name, body)
    ensures WriteEach(files, items, name, body)[name(items[j])] == body(items[j])
  {
    var last := |items| - 1;
    if j < last {
      var init := items[..last];
      assert init[j] == items[j];
      assert forall k :: 0 <= k < |init| ==> init[k] == items[k];
      WriteEachAt(files, init, name, body, j);
    }
  }

  /** The written files are the given ones and one `.txt` per list. */
  lemma TxtFilesNames(files: Generate.Files, lists: seq<Model.DomainList>, f: string)
    requires forall j :: 0 <= j < |lists| ==> lists[j].id.Some?
    ensures f in TxtFiles(files, lists) <==> f in files || exists j :: 0 <= j < |lists| && f == TxtName(lists[j].id.value)
  {
    WriteEachNames(files, lists, ListTxtName, ListTxt, f);
  }

  /** A file no list's `.txt` name hits is passed through untouched. */
  lemma TxtFilesKeep(files: Generate.Files, lists: seq<Model.DomainList>, f: string)
    requires forall j :: 0 <= j < |lists| ==> lists[j].id.Some?
    requires forall j :: 0 <= j < |lists| ==> f != TxtName(lists[j].id.value)
    ensures f in TxtFiles(files, lists) <==> f in files
    ensures f in files ==> TxtFiles(files, lists)[f] == files[f]
  {
    WriteEachKeep(files, lists, ListTxtName, ListTxt, f);
  }

  /** With unique ids, each list's `.txt` file holds its domains joined by newlines. */
  lemma TxtFilesAt(files: Generate.Files, lists: seq<Model.DomainList>, j: nat)
    requires forall k :: 0 <= k < |lists| ==> lists[k].id.Some?
    requires UniqueListIds(lists)
    requires j < |lists|
    ensures TxtName(lists[j].id.value) in TxtFiles(files, lists)
    ensures TxtFiles(files, lists)[TxtName(lists[j].id.value)] == [Join(lists[j].domains, "\n")]
  {
    forall i, k | 0 <= i < k < |lists|
      ensures ListTxtName(lists[i]) != ListTxtName(lists[k])
    {
      TxtNameInjective(lists[i].id.value, lists[k].id.value);
    }
    WriteEachAt(files, lists, ListTxtName, ListTxt, j);
  }

  /**
   * With no domain lists, neither `domains.conf` nor any `.txt` file is
   * written: the output is the client files alone.
   */
  lemma NoListsNoDomainFiles(clients: seq<Client>, lists: seq<Model.DomainList>, now: int, f: string)
    requires forall i :: 0 <= i < |clients| && |clients[i].rules| > 0 ==> clients[i].id.Some?
    requires |lists| == 0
    ensures Generate.DomainsFile !in GenerateSquidConfig(clients, lists, now)
    ensures f in GenerateSquidConfig(clients, lists, now) <==>
      exists i :: 0 <= i < |clients| && |clients[i].rules| > 0 && f == Generate.ClientFileName(clients[i].id.value)
  {
    WriteConfsNames(clients, (c: Client) requires c.id.Some? => ClientConf(c, now), f);
    WriteConfsNames(clients, (c: Client) requires c.id.Some? => ClientConf(c, now), Generate.DomainsFile);
    if Generate.DomainsFile in ClientFiles(clients, now) {
      var i :| 0 <= i < |clients| && |clients[i].rules| > 0 && Generate.DomainsFile == Generate.ClientFileName(clients[i].id.value);
      Generate.ClientFileNameReserved(clients[i].id.value);
    }
  }

  /**
   * With lists, `domains.conf` holds one line per list pointing at
   * `./domains_NNNN.txt`, in collection order, and (ids being unique) each
   * list's `.txt` file holds its domains joined by newlines.
   */
  lemma DomainFiles(clients: seq<Client>, lists: seq<Model.DomainList>, now: int, j: nat)
    requires forall i :: 0 <= i < |clients| && |clients[i].rules| > 0 ==> clients[i].id.Some?
    requires forall k :: 0 <= k < |lists| ==> lists[k].id.Some?
    requires UniqueListIds(lists) && j < |lists|
    ensures Generate.DomainsFile in GenerateSquidConfig(clients, lists, now)
    ensures |GenerateSquidConfig(clients, lists, now)[Generate.DomainsFile]| == |lists|
    ensures GenerateSquidConfig(clients, lists, now)[Generate.DomainsFile][j]
      == "acl " + Generate.DomainsName(lists[j].id.value) + " dstdomain \"./" + Generate.DomainsName(lists[j].id.value) + ".txt\""
    ensures TxtName(lists[j].id.value) in GenerateSquidConfig(clients, lists, now)
    ensures GenerateSquidConfig(clients, lists, now)[TxtName(lists[j].id.value)] == [Join(lists[j].domains, "\n")]
  {
    var files := ClientFiles(clients, now)[Generate.DomainsFile := DomainRefs(lists)];
    TxtFilesAt(files, lists, j);
    forall k | 0 <= k < |lists| ensures Generate.DomainsFile != TxtName(lists[k].id.value) {
      TxtNameReserved(lists[k].id.value, 0);
    }
    TxtFilesKeep(files, lists, Generate.DomainsFile);
  }

  /** Generation only ever adds `.txt` files to what the client confs and `domains.conf` hold. */
  lemma ClientFilesKept(clients: seq<Client>, lists: seq<Model.DomainList>, now: int, i: nat)
    requires forall k :: 0 <= k < |clients| && |clients[k].rules| > 0 ==> clients[k].id.Some?
    requires forall k :: 0 <= k < |lists| ==> lists[k].id.Some?
    requires UniqueClientIds(clients)
    requires i < |clients| && |clients[i].rules| > 0
    ensures Generate.ClientFileName(clients[i].id.value) in GenerateSquidConfig(clients, lists, now)
    ensures GenerateSquidConfig(clients, lists, now)[Generate.ClientFileName(clients[i].id.value)] == ClientConf(clients[i], now)
  {
    var name := Generate.ClientFileName(clients[i].id.value);
    WriteConfsAt(clients, (c: Client) requires c.id.Some? => ClientConf(c, now), i);
    Generate.ClientFileNameReserved(clients[i].id.value);
    if |lists| > 0 {
      var files := ClientFiles(clients, now)[Generate.DomainsFile := DomainRefs(lists)];
      forall k | 0 <= k < |lists| ensures name != TxtName(lists[k].id.value) {
        TxtNameReserved(lists[k].id.value, clients[i].id.value);
      }
      TxtFilesKeep(files, lists, name);
    }
  }

  /**
   * Against the server's generator: upgrading the kinds to the enum
   * (dropping unknown ones) and the naive end to the UTC end blocks the
   * same lists in the same order, so the two confs differ only in the acl
   * line's host mask.
   */
  lemma AgreesWithServer(c: Client, now: int)
    requires c.id.Some?
    ensures Generate.Renderable(Upgrade(c))
    ensures BlockedIds(c, now) == Generate.BlockedIds(Upgrade(c), now)
    ensures ClientConf(c, now)[1..] == Generate.ClientConf(Upgrade(c), now)[1..]
  {
    DenyCandidatesUpgrade(c.rules);
    ExemptIdsUpgrade(c.leases, now);
  }

  lemma {:induction false} DenyCandidatesUpgrade(rules: seq<Rule>)
    ensures DenyCandidates(rules) == Generate.DenyCandidates(UpgradeRules(rules))
  {
    if |rules| > 0 {
      DenyCandidatesUpgrade(rules[1..]);
      var rest := UpgradeRules(rules[1..]);
      match UpgradeRule(rules[0])
      case Some(r) =>
        assert UpgradeRules(rules) == [r] + rest;
        assert ([r] + rest)[1..] == rest;
      case None =>
    }
  }

  lemma {:induction false} ExemptIdsUpgrade(leases: seq<Lease>, now: int)
    ensures Generate.AllowLeasesDated(UpgradeLeases(leases))
    ensures ExemptIds(leases, now) == Generate.ExemptIds(UpgradeLeases(leases), now)
  {
    if |leases| > 0 {
      ExemptIdsUpgrade(leases[1..], now);
      var rest := UpgradeLeases(leases[1..]);
      match UpgradeRule(leases[0].rule)
      case Some(r) =>
        var l := Model.Lease(Some(leases[0].endDate), None, r);
        assert UpgradeLeases(leases) == [l] + rest;
        assert ([l] + rest)[1..] == rest;
      case None =>
    }
  }
}
