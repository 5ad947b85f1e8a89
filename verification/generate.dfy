/**
 * The squid access-policy renderer of the server: for every client with
 * rules, one `client_NNNN.conf` holding its source acl and one deny line per
 * blocked domain list; one `domains.conf` holding a dstdomain acl per list.
 * A generated directory is modelled as a map from file name to the lines
 * written to it, in order.
 */
module Generate {
  import opened Wrappers
  import opened Text
  import opened Model

  /** Generated configuration: file name to the lines written into it. */
  type Files = map<string, seq<string>>

  /** `id_string`: the type name, an underscore, and the id left-padded with '0' to width 4. */
  function IdString(typeName: string, id: U32): string
  {
    typeName + "_" + PadZeros(Decimal(id), 4)
  }

  /**
   * An id string is the type name and an underscore followed by at least
   * four decimal digits whose value is the id: the id can be read back.
   */
  lemma IdStringParts(typeName: string, id: U32)
    ensures |IdString(typeName, id)| >= |typeName| + 5
    ensures IdString(typeName, id)[..|typeName| + 1] == typeName + "_"
    ensures AllDigits(IdString(typeName, id)[|typeName| + 1..])
    ensures DigitsValue(IdString(typeName, id)[|typeName| + 1..]) == id
  {
    var digits := Decimal(id);
    var zeros := if |digits| < 4 then 4 - |digits| else 0;
    DecimalRoundTrip(id);
    LeadingZeros(zeros, digits);
    assert PadZeros(digits, 4) == Repeat('0', zeros) + digits;
    var r := IdString(typeName, id);
    assert r[|typeName| + 1..] == PadZeros(digits, 4);
  }

  /** An id string starts with the type name, an underscore and a digit. */
  lemma IdStringPrefix(typeName: string, id: U32)
    ensures |IdString(typeName, id)| > |typeName| + 1
    ensures forall i :: 0 <= i < |typeName| ==> IdString(typeName, id)[i] == typeName[i]
    ensures IdString(typeName, id)[|typeName|] == '_'
    ensures IsDigit(IdString(typeName, id)[|typeName| + 1])
  {
    var digits := PadZeros(Decimal(id), 4);
    assert IsDigit(digits[0]);
    assert IdString(typeName, id) == typeName + "_" + digits;
  }

  /** Distinct ids give distinct names. */
  lemma IdStringInjective(typeName: string, a: U32, b: U32)
    ensures IdString(typeName, a) == IdString(typeName, b) ==> a == b
  {
    IdStringParts(typeName, a);
    IdStringParts(typeName, b);
  }

  /** An id string contains no whitespace, so it is a single token. */
  lemma IdStringIsToken(typeName: string, id: U32)
    requires forall i :: 0 <= i < |typeName| ==> !IsWhitespace(typeName[i])
    ensures IsToken(IdString(typeName, id))
  {
    var r := IdString(typeName, id);
    IdStringParts(typeName, id);
    forall i | 0 <= i < |r|
      ensures !IsWhitespace(r[i])
    {
      if i < |typeName| {
        assert r[i] == r[..|typeName| + 1][i];
      } else if i == |typeName| {
        assert r[i] == r[..|typeName| + 1][i];
      } else {
        assert r[i] == r[|typeName| + 1..][i - |typeName| - 1];
      }
    }
  }

  function ClientName(id: U32): string { IdString("client", id) }

  function DomainsName(id: U32): string { IdString("domains", id) }

  function ClientFileName(id: U32): string { ClientName(id) + ".conf" }

  const DummyFile: string := "client_dummy.conf"
  const DummyLine: string := "# This file is intentionally left blank."
  const DomainsFile: string := "domains.conf"
  const NoDomainsLine: string := "# This file will be populated with penguin domains"

  function AclLine(clientName: string, ip: string): string {
    "acl " + clientName + " src " + ip
  }

  function DenyLine(clientName: string, list: U32): string {
    "http_access deny " + clientName + " " + DomainsName(list)
  }

  /** Every allow-kind lease has its UTC expiry, which the filter unwraps. */
  predicate AllowLeasesDated(leases: seq<Lease>) {
    forall i :: 0 <= i < |leases| && leases[i].rule.kind == AllowHttpAccess ==> leases[i].endDateUtc.Some?
  }

  /** Rendering a client panics unless it has an id and its allow leases are dated. */
  predicate Renderable(c: Client) {
    c.id.Some? && AllowLeasesDated(c.leases)
  }

  /** What `generate_squid_config` unwraps: renderable clients with rules, and every list's id. */
  predicate GenerationReady(clients: seq<Client>, lists: seq<DomainList>) {
    && (forall i :: 0 <= i < |clients| && |clients[i].rules| > 0 ==> Renderable(clients[i]))
    && (forall j :: 0 <= j < |lists| ==> lists[j].id.Some?)
  }

  /** List `m` is named by some deny rule of the client. */
  ghost predicate DeniedByRule(c: Client, m: U32) {
    exists r :: r in c.rules && r.kind == DenyHttpAccess && m in r.domainlists
  }

  /** Some allow lease of the client names list `m` and expires strictly after `now`. */
  ghost predicate ExemptedByLease(c: Client, m: U32, now: int) {
    exists l :: l in c.leases && l.rule.kind == AllowHttpAccess && l.endDateUtc.Some?
      && l.endDateUtc.value > now && m in l.rule.domainlists
  }

  /** The ids of every in-force allow lease, lease by lease (`allowed_domains`). */
  function ExemptIds(leases: seq<Lease>, now: int): seq<U32>
    requires AllowLeasesDated(leases)
  {
    if |leases| == 0 then []
    else
      var l := leases[0];
      var rest := ExemptIds(leases[1..], now);
      if l.rule.kind == AllowHttpAccess && l.endDateUtc.value > now
      then l.rule.domainlists + rest
      else rest
  }

  /** An id is exempt iff some allow lease in force at `now` names it. */
  lemma {:induction false} ExemptIdsMembers(leases: seq<Lease>, now: int, m: U32)
    requires AllowLeasesDated(leases)
    ensures m in ExemptIds(leases, now) <==>
      exists i :: 0 <= i < |leases| && leases[i].rule.kind == AllowHttpAccess
        && leases[i].endDateUtc.value > now && m in leases[i].rule.domainlists
  {
    if |leases| > 0 {
      ExemptIdsMembers(leases[1..], now, m);
      assert forall i :: 0 < i < |leases| ==> leases[i] == leases[1..][i - 1];
      if m in ExemptIds(leases[1..], now) {
        var i :| 0 <= i < |leases[1..]| && leases[1..][i].rule.kind == AllowHttpAccess
          && leases[1..][i].endDateUtc.value > now && m in leases[1..][i].rule.domainlists;
        assert leases[i + 1] == leases[1..][i];
      }
    }
  }

  /** The ids named by deny rules, in rule order then list order, duplicates kept. */
  function DenyCandidates(rules: seq<Rule>): seq<U32>
  {
    if |rules| == 0 then []
    else
      var rest := DenyCandidates(rules[1..]);
      if rules[0].kind == DenyHttpAccess then rules[0].domainlists + rest else rest
  }

  /** An id is a candidate iff some deny rule names it. */
  lemma {:induction false} DenyCandidatesMembers(rules: seq<Rule>, m: U32)
    ensures m in DenyCandidates(rules) <==>
      exists i :: 0 <= i < |rules| && rules[i].kind == DenyHttpAccess && m in rules[i].domainlists
  {
    if |rules| > 0 {
      DenyCandidatesMembers(rules[1..], m);
      assert forall i :: 0 < i < |rules| ==> rules[i] == rules[1..][i - 1];
      if m in DenyCandidates(rules[1..]) {
        var i :| 0 <= i < |rules[1..]| && rules[1..][i].kind == DenyHttpAccess && m in rules[1..][i].domainlists;
        assert rules[i + 1] == rules[1..][i];
      }
    }
  }

  /** The candidates that are not exempt, in order. */
  function Surviving(candidates: seq<U32>, exempt: seq<U32>): seq<U32>
  {
    if |candidates| == 0 then []
    else
      var rest := Surviving(candidates[1..], exempt);
      if candidates[0] in exempt then rest else [candidates[0]] + rest
  }

  /**
   * A candidate survives iff it is not exempt, and it survives exactly as
   * many times as it was a candidate: duplicates are kept.
   */
  lemma {:induction false} SurvivingMembers(candidates: seq<U32>, exempt: seq<U32>)
    ensures forall m :: m in Surviving(candidates, exempt) <==> m in candidates && m !in exempt
    ensures forall m ::
              multiset(Surviving(candidates, exempt))[m] == if m in exempt then 0 else multiset(candidates)[m]
  {
    if |candidates| > 0 {
      SurvivingMembers(candidates[1..], exempt);
      assert candidates == [candidates[0]] + candidates[1..];
    }
  }

  /** The lists blocked for client `c` at `now`, in the order their deny lines are written. */
  function BlockedIds(c: Client, now: int): seq<U32>
    requires AllowLeasesDated(c.leases)
  {
    Surviving(DenyCandidates(c.rules), ExemptIds(c.leases, now))
  }

  function DenyLines(clientName: string, ids: seq<U32>): (r: seq<string>)
    ensures |r| == |ids|
    ensures forall k :: 0 <= k < |ids| ==> r[k] == DenyLine(clientName, ids[k])
  {
    if |ids| == 0 then [] else [DenyLine(clientName, ids[0])] + DenyLines(clientName, ids[1..])
  }

  /** The content of `client_NNNN.conf`. */
  function ClientConf(c: Client, now: int): seq<string>
    requires Renderable(c)
  {
    var name := ClientName(c.id.value);
    [AclLine(name, c.ip)] + DenyLines(name, BlockedIds(c, now))
  }

  /** The content of `domains.conf`. */
  function DomainsConf(lists: seq<DomainList>): seq<string>
    requires forall j :: 0 <= j < |lists| ==> lists[j].id.Some?
  {
    if |lists| == 0 then [NoDomainsLine] else DomainAcls(lists)
  }

  function DomainAcl(l: DomainList): string
    requires l.id.Some?
  {
    "acl " + DomainsName(l.id.value) + " dstdomain " + Join(l.domains, " ")
  }

  function DomainAcls(lists: seq<DomainList>): (r: seq<string>)
    requires forall j :: 0 <= j < |lists| ==> lists[j].id.Some?
    ensures |r| == |lists|
    ensures forall j :: 0 <= j < |lists| ==> r[j] == DomainAcl(lists[j])
  {
    if |lists| == 0 then [] else [DomainAcl(lists[0])] + DomainAcls(lists[1..])
  }

  /**
   * The client files, written in client order by `render`; a client without
   * rules is skipped, and a later client with the same id overwrites.
   */
  function WriteConfs(clients: seq<Client>, render: Client --> seq<string>): Files
    requires forall i :: 0 <= i < |clients| && |clients[i].rules| > 0 ==> clients[i].id.Some? && render.requires(clients[i])
  {
    if |clients| == 0 then map[]
    else
      var c := clients[|clients| - 1];
      var earlier := WriteConfs(clients[..|clients| - 1], render);
      if |c.rules| == 0 then earlier else earlier[ClientFileName(c.id.value) := render(c)]
  }

  function ClientFiles(clients: seq<Client>, now: int): Files
    requires forall i :: 0 <= i < |clients| && |clients[i].rules| > 0 ==> Renderable(clients[i])
  {
    WriteConfs(clients, c requires Renderable(c) => ClientConf(c, now))
  }

  /**
   * `generate_squid_config` at instant `now`. `dummyExists` says whether
   * `client_dummy.conf` is already in the output directory.
   */
  function GenerateSquidConfig(clients: seq<Client>, lists: seq<DomainList>, now: int, dummyExists: bool): Files
    requires GenerationReady(clients, lists)
  {
    var files := ClientFiles(clients, now);
    var files := if dummyExists then files else files[DummyFile := [DummyLine]];
    files[DomainsFile := DomainsConf(lists)]
  }

  /** No two clients share an assigned id (what the store's `add` maintains). */
  predicate UniqueClientIds(clients: seq<Client>) {
    forall i, j :: 0 <= i < j < |clients| && clients[i].id.Some? ==> clients[i].id != clients[j].id
  }

  lemma DenyLineInjective(clientName: string, a: U32, b: U32)
    ensures DenyLine(clientName, a) == DenyLine(clientName, b) ==> a == b
  {
    var p := "http_access deny " + clientName + " ";
    if DenyLine(clientName, a) == DenyLine(clientName, b) {
      assert DenyLine(clientName, a) == p + DomainsName(a);
      assert DenyLine(clientName, a)[|p|..] == DomainsName(a);
      assert DenyLine(clientName, b)[|p|..] == DomainsName(b);
      IdStringInjective("domains", a, b);
    }
  }

  /**
   * The central policy property: the conf of client `c` holds a deny line for
   * list `m` iff some deny rule names `m` and no allow lease in force at
   * `now` names it. Lists missing from the domain-list collection are still
   * denied: the collection plays no part.
   */
  lemma DenyLineIff(c: Client, now: int, m: U32)
    requires Renderable(c)
    ensures DenyLine(ClientName(c.id.value), m) in ClientConf(c, now)
        <==> DeniedByRule(c, m) && !ExemptedByLease(c, m, now)
  {
    var name := ClientName(c.id.value);
    var blocked := BlockedIds(c, now);
    DenyLinesMembers(name, blocked, m);
    assert DenyLine(name, m)[0] == 'h' && AclLine(name, c.ip)[0] == 'a';
    assert DenyLine(name, m) in ClientConf(c, now) <==> DenyLine(name, m) in DenyLines(name, blocked);
    SurvivingMembers(DenyCandidates(c.rules), ExemptIds(c.leases, now));
    DenyCandidatesMembers(c.rules, m);
    ExemptIdsMembers(c.leases, now, m);
    RuleWitness(c, m);
    LeaseWitness(c, now, m);
  }

  lemma RuleWitness(c: Client, m: U32)
    ensures DeniedByRule(c, m) <==>
      exists i :: 0 <= i < |c.rules| && c.rules[i].kind == DenyHttpAccess && m in c.rules[i].domainlists
  {
    if DeniedByRule(c, m) {
      var r :| r in c.rules && r.kind == DenyHttpAccess && m in r.domainlists;
      var i :| 0 <= i < |c.rules| && c.rules[i] == r;
    }
  }

  lemma LeaseWitness(c: Client, now: int, m: U32)
    requires AllowLeasesDated(c.leases)
    ensures ExemptedByLease(c, m, now) <==>
      exists i :: 0 <= i < |c.leases| && c.leases[i].rule.kind == AllowHttpAccess
        && c.leases[i].endDateUtc.value > now && m in c.leases[i].rule.domainlists
  {
    if ExemptedByLease(c, m, now) {
      var l :| l in c.leases && l.rule.kind == AllowHttpAccess && l.endDateUtc.Some?
        && l.endDateUtc.value > now && m in l.rule.domainlists;
      var i :| 0 <= i < |c.leases| && c.leases[i] == l;
    }
  }

  /** A deny line for `m` is among the rendered lines iff `m` is among the ids. */
  lemma DenyLinesMembers(name: string, ids: seq<U32>, m: U32)
    ensures DenyLine(name, m) in DenyLines(name, ids) <==> m in ids
  {
    var lines := DenyLines(name, ids);
    if DenyLine(name, m) in lines {
      var k :| 0 <= k < |lines| && lines[k] == DenyLine(name, m);
      DenyLineInjective(name, m, ids[k]);
    }
    if m in ids {
      var k :| 0 <= k < |ids| && ids[k] == m;
      assert lines[k] == DenyLine(name, m);
    }
  }

  /**
   * A client conf is its source acl line followed by one line per blocked
   * list; the acl line splits into `acl`, the client's name, `src` and its ip.
   */
  lemma ClientConfStartsWithAcl(c: Client, now: int)
    requires Renderable(c) && IsToken(c.ip)
    ensures |ClientConf(c, now)| == 1 + |BlockedIds(c, now)|
    ensures SplitWhitespace(ClientConf(c, now)[0]) == ["acl", ClientName(c.id.value), "src", c.ip]
  {
    var name := ClientName(c.id.value);
    IdStringIsToken("client", c.id.value);
    AclLineSplits(name, c.ip);
  }

  /** An acl line splits into `acl`, the acl's name, `src` and the address. */
  lemma AclLineSplits(name: string, ip: string)
    requires IsToken(name) && IsToken(ip)
    ensures SplitWhitespace(AclLine(name, ip)) == ["acl", name, "src", ip]
  {
    KeywordsAreTokens();
    SplitThreeThenJoin("acl", name, "src", [ip]);
    assert Join([ip], " ") == ip;
    assert "acl" + " " == "acl " && " " + "src" + " " == " src ";
    ThreeThenOne("acl", name, "src", ip);
  }

  lemma ThreeThenOne<T>(a: T, b: T, c: T, d: T)
    ensures [a, b, c] + [d] == [a, b, c, d]
  {
  }

  /** With no allow lease in force, every deny-rule id is emitted, in rule then list order, duplicates kept. */
  lemma {:induction false} NothingInForceBlocksAll(c: Client, now: int)
    requires Renderable(c)
    requires forall i :: 0 <= i < |c.leases| && c.leases[i].rule.kind == AllowHttpAccess ==>
               c.leases[i].endDateUtc.value <= now
    ensures BlockedIds(c, now) == DenyCandidates(c.rules)
  {
    NoneInForce(c.leases, now);
    SurvivingNothingExempt(DenyCandidates(c.rules));
  }

  lemma {:induction false} NoneInForce(leases: seq<Lease>, now: int)
    requires AllowLeasesDated(leases)
    requires forall i :: 0 <= i < |leases| && leases[i].rule.kind == AllowHttpAccess ==>
               leases[i].endDateUtc.value <= now
    ensures ExemptIds(leases, now) == []
  {
    if |leases| > 0 {
      assert forall i :: 0 < i < |leases| ==> leases[i] == leases[1..][i - 1];
      NoneInForce(leases[1..], now);
    }
  }

  lemma {:induction false} SurvivingNothingExempt(candidates: seq<U32>)
    ensures Surviving(candidates, []) == candidates
  {
    if |candidates| > 0 {
      SurvivingNothingExempt(candidates[1..]);
    }
  }

  /** An allow rule placed among the rules (outside any lease) changes nothing. */
  lemma {:induction false} AllowRuleInert(c: Client, now: int, ids: seq<U32>)
    requires Renderable(c)
    ensures ClientConf(c.(rules := c.rules + [Rule(AllowHttpAccess, ids)]), now) == ClientConf(c, now)
  {
    var extra := [Rule(AllowHttpAccess, ids)];
    DenyCandidatesAppend(c.rules, extra);
    assert DenyCandidates(extra) == [];
    assert DenyCandidates(c.rules + extra) == DenyCandidates(c.rules);
    assert BlockedIds(c.(rules := c.rules + extra), now) == BlockedIds(c, now);
  }

  lemma {:induction false} DenyCandidatesAppend(a: seq<Rule>, b: seq<Rule>)
    ensures DenyCandidates(a + b) == DenyCandidates(a) + DenyCandidates(b)
  {
    if |a| == 0 {
      assert a + b == b;
    } else {
      DenyCandidatesAppend(a[1..], b);
      assert (a + b)[0] == a[0];
      assert (a + b)[1..] == a[1..] + b;
      var head := if a[0].kind == DenyHttpAccess then a[0].domainlists else [];
      assert DenyCandidates(a) == head + DenyCandidates(a[1..]);
      assert DenyCandidates(a + b) == head + DenyCandidates(a[1..] + b);
      Assoc(head, DenyCandidates(a[1..]), DenyCandidates(b));
    }
  }

  lemma {:induction false} ExemptIdsAppend(a: seq<Lease>, b: seq<Lease>, now: int)
    requires AllowLeasesDated(a) && AllowLeasesDated(b)
    ensures AllowLeasesDated(a + b)
    ensures ExemptIds(a + b, now) == ExemptIds(a, now) + ExemptIds(b, now)
  {
    if |a| == 0 {
      assert a + b == b;
    } else {
      ExemptIdsAppend(a[1..], b, now);
      assert (a + b)[0] == a[0];
      assert (a + b)[1..] == a[1..] + b;
      if a[0].rule.kind == AllowHttpAccess && a[0].endDateUtc.value > now {
        Assoc(a[0].rule.domainlists, ExemptIds(a[1..], now), ExemptIds(b, now));
      }
    }
  }

  /**
   * A lease that is deny-kind, or that expires at or before `now`, exempts
   * nothing: adding it leaves the conf unchanged. In particular a lease whose
   * end equals `now` is already inactive.
   */
  lemma InertLease(c: Client, now: int, l: Lease)
    requires Renderable(c)
    requires l.rule.kind == DenyHttpAccess || (l.endDateUtc.Some? && l.endDateUtc.value <= now)
    ensures Renderable(c.(leases := c.leases + [l]))
    ensures ClientConf(c.(leases := c.leases + [l]), now) == ClientConf(c, now)
  {
    ExemptIdsAppend(c.leases, [l], now);
    assert ExemptIds([l], now) == [];
    assert ExemptIds(c.leases + [l], now) == ExemptIds(c.leases, now);
    assert BlockedIds(c.(leases := c.leases + [l]), now) == BlockedIds(c, now);
  }

  /** One in-force allow lease naming `m` removes every deny line for `m`, whatever other leases say. */
  lemma OneLeaseSuffices(c: Client, now: int, l: Lease, m: U32)
    requires Renderable(c)
    requires l.rule.kind == AllowHttpAccess && l.endDateUtc.Some? && l.endDateUtc.value > now
    requires m in l.rule.domainlists
    ensures Renderable(c.(leases := c.leases + [l]))
    ensures DenyLine(ClientName(c.id.value), m) !in ClientConf(c.(leases := c.leases + [l]), now)
  {
    var c' := c.(leases := c.leases + [l]);
    ExemptIdsAppend(c.leases, [l], now);
    assert l in c'.leases;
    DenyLineIff(c', now, m);
  }

  lemma ClientFileNameInjective(a: U32, b: U32)
    ensures ClientFileName(a) == ClientFileName(b) ==> a == b
  {
    if ClientFileName(a) == ClientFileName(b) {
      assert |ClientName(a)| == |ClientName(b)|;
      assert ClientFileName(a)[..|ClientName(a)|] == ClientName(a);
      assert ClientFileName(b)[..|ClientName(b)|] == ClientName(b);
      IdStringInjective("client", a, b);
    }
  }

  /** No client file is named like the dummy file or `domains.conf`. */
  lemma ClientFileNameReserved(id: U32)
    ensures ClientFileName(id) != DummyFile && ClientFileName(id) != DomainsFile
  {
    IdStringPrefix("client", id);
    assert ClientFileName(id)[0] == ClientName(id)[0] == 'c';
    assert ClientFileName(id)[7] == ClientName(id)[7];
    assert DomainsFile[0] == 'd' && DummyFile[7] == 'd';
  }

  lemma {:induction false} WriteConfsNames(clients: seq<Client>, render: Client --> seq<string>, f: string)
    requires forall i :: 0 <= i < |clients| && |clients[i].rules| > 0 ==> clients[i].id.Some? && render.requires(clients[i])
    ensures f in WriteConfs(clients, render) <==>
      exists i :: 0 <= i < |clients| && |clients[i].rules| > 0 && f == ClientFileName(clients[i].id.value)
  {
    if |clients| > 0 {
      var last := |clients| - 1;
      var init := clients[..last];
      assert forall i :: 0 <= i < |init| ==> init[i] == clients[i];
      WriteConfsNames(init, render, f);
      assert clients == init + [clients[last]];
    }
  }

  lemma {:induction false} WriteConfsAt(clients: seq<Client>, render: Client --> seq<string>, i: nat)
    requires forall k :: 0 <= k < |clients| && |clients[k].rules| > 0 ==> clients[k].id.Some? && render.requires(clients[k])
    requires UniqueClientIds(clients)
    requires i < |clients| && |clients[i].rules| > 0 && clients[i].id.Some?
    ensures ClientFileName(clients[i].id.value) in WriteConfs(clients, render)
    ensures WriteConfs(clients, render)[ClientFileName(clients[i].id.value)] == render(clients[i])
  {
    var last := |clients| - 1;
    if i < last {
      var init := clients[..last];
      assert init[i] == clients[i];
      assert forall k :: 0 <= k < |init| ==> init[k] == clients[k];
      WriteConfsAt(init, render, i);
      if |clients[last].rules| > 0 {
        ClientFileNameInjective(clients[i].id.value, clients[last].id.value);
      }
    }
  }

  /**
   * Each client with rules (ids being unique) gets `client_NNNN.conf` whose
   * content is its rendered conf: the acl line, then the deny lines.
   */
  lemma GenerateClientFile(clients: seq<Client>, lists: seq<DomainList>, now: int, dummyExists: bool, i: nat)
    requires GenerationReady(clients, lists) && UniqueClientIds(clients)
    requires i < |clients| && |clients[i].rules| > 0
    ensures ClientFileName(clients[i].id.value) in GenerateSquidConfig(clients, lists, now, dummyExists)
    ensures GenerateSquidConfig(clients, lists, now, dummyExists)[ClientFileName(clients[i].id.value)]
      == ClientConf(clients[i], now)
  {
    WriteConfsAt(clients, c requires Renderable(c) => ClientConf(c, now), i);
    ClientFileNameReserved(clients[i].id.value);
  }

  /**
   * The generated file names: `domains.conf` always, `client_dummy.conf`
   * unless it already existed, and one conf per client with rules; a client
   * without rules gets no conf.
   */
  lemma GenerateFileNames(clients: seq<Client>, lists: seq<DomainList>, now: int, dummyExists: bool, f: string)
    requires GenerationReady(clients, lists)
    ensures DomainsFile in GenerateSquidConfig(clients, lists, now, dummyExists)
    ensures (DummyFile in GenerateSquidConfig(clients, lists, now, dummyExists)) == !dummyExists
    ensures f != DomainsFile && f != DummyFile ==>
      (f in GenerateSquidConfig(clients, lists, now, dummyExists) <==>
        exists i :: 0 <= i < |clients| && |clients[i].rules| > 0 && f == ClientFileName(clients[i].id.value))
  {
    WriteConfsNames(clients, c requires Renderable(c) => ClientConf(c, now), f);
    WriteConfsNames(clients, c requires Renderable(c) => ClientConf(c, now), DummyFile);
    if exists i :: 0 <= i < |clients| && |clients[i].rules| > 0 && DummyFile == ClientFileName(clients[i].id.value) {
      var i :| 0 <= i < |clients| && |clients[i].rules| > 0 && DummyFile == ClientFileName(clients[i].id.value);
      ClientFileNameReserved(clients[i].id.value);
    }
  }

  /** A client without rules, whose id no client with rules shares, gets no conf. */
  lemma NoRulesNoFile(clients: seq<Client>, lists: seq<DomainList>, now: int, dummyExists: bool, i: nat)
    requires GenerationReady(clients, lists) && UniqueClientIds(clients)
    requires i < |clients| && clients[i].id.Some? && |clients[i].rules| == 0
    ensures ClientFileName(clients[i].id.value) !in GenerateSquidConfig(clients, lists, now, dummyExists)
  {
    var f := ClientFileName(clients[i].id.value);
    ClientFileNameReserved(clients[i].id.value);
    WriteConfsNames(clients, c requires Renderable(c) => ClientConf(c, now), f);
    if f in ClientFiles(clients, now) {
      var j :| 0 <= j < |clients| && |clients[j].rules| > 0 && f == ClientFileName(clients[j].id.value);
      assert clients[i].id != clients[j].id;
      ClientFileNameInjective(clients[i].id.value, clients[j].id.value);
    }
  }

  /**
   * `domains.conf` holds one line per list, in collection order, or the
   * single comment line when there are no lists. Splitting line `j` on
   * whitespace gives back `acl`, the list's name, `dstdomain` and the list's
   * domains.
   */
  lemma DomainsConfLines(lists: seq<DomainList>, j: nat)
    requires forall k :: 0 <= k < |lists| ==> lists[k].id.Some?
    requires j < |lists|
    requires forall k :: 0 <= k < |lists[j].domains| ==> IsToken(lists[j].domains[k])
    ensures |DomainsConf(lists)| == |lists|
    ensures SplitWhitespace(DomainsConf(lists)[j])
      == ["acl", DomainsName(lists[j].id.value), "dstdomain"] + lists[j].domains
  {
    assert DomainsConf(lists)[j] == DomainAcl(lists[j]);
    DomainAclSplits(lists[j]);
  }

  lemma DomainAclSplits(l: DomainList)
    requires l.id.Some?
    requires forall k :: 0 <= k < |l.domains| ==> IsToken(l.domains[k])
    ensures SplitWhitespace(DomainAcl(l)) == ["acl", DomainsName(l.id.value), "dstdomain"] + l.domains
  {
    IdStringIsToken("domains", l.id.value);
    KeywordsAreTokens();
    var name := DomainsName(l.id.value);
    assert "acl" + " " == "acl " && " " + "dstdomain" + " " == " dstdomain ";
    SplitThreeThenJoin("acl", name, "dstdomain", l.domains);
  }

  lemma KeywordsAreTokens()
    ensures IsToken("acl") && IsToken("dstdomain") && IsToken("src")
  {
  }

  /**
   * A keyword and a space, a token, a space-surrounded keyword and a
   * space-joined tail split back into the three words and the tail.
   */
  lemma SplitThreeThenJoin(a: string, b: string, c: string, rest: seq<string>)
    requires IsToken(a) && IsToken(b) && IsToken(c)
    requires forall k :: 0 <= k < |rest| ==> IsToken(rest[k])
    ensures SplitWhitespace((a + " ") + b + (" " + c + " ") + Join(rest, " ")) == [a, b, c] + rest
  {
    var tail := Join(rest, " ");
    RegroupSpaced(a, b, c, tail);
    SplitThree(a, b, c, tail);
    SplitJoinRoundTrip(rest, ' ');
  }

  lemma SplitThree(a: string, b: string, c: string, tail: string)
    requires IsToken(a) && IsToken(b) && IsToken(c)
    ensures SplitWhitespace(a + (" " + (b + (" " + (c + (" " + tail))))))
      == [a, b, c] + SplitWhitespace(tail)
  {
    var s3 := c + (" " + tail);
    var s2 := b + (" " + s3);
    SplitSpaced(c, tail);
    SplitSpaced(b, s3);
    SplitSpaced(a, s2);
    ConsThree(a, b, c, SplitWhitespace(tail));
  }

  lemma ConsThree<T>(a: T, b: T, c: T, xs: seq<T>)
    ensures [a] + ([b] + ([c] + xs)) == [a, b, c] + xs
  {
  }

  lemma RegroupSpaced(a: string, b: string, c: string, t: string)
    ensures (a + " ") + b + (" " + c + " ") + t == a + (" " + (b + (" " + (c + (" " + t)))))
  {
    var r3 := " " + t;
    var r2 := " " + (c + r3);
    var r1 := " " + (b + r2);
    var x := (a + " ") + b;
    calc {
      x + (" " + c + " ") + t;
      { Assoc(x, " " + c + " ", t); }
      x + ((" " + c + " ") + t);
      { Assoc(" " + c, " ", t); }
      x + ((" " + c) + r3);
      { Assoc(" ", c, r3); }
      x + r2;
      { Assoc(a + " ", b, r2); }
      (a + " ") + (b + r2);
      { Assoc(a, " ", b + r2); }
      a + r1;
    }
  }

  lemma DomainsConfEmpty(lists: seq<DomainList>)
    requires |lists| == 0
    ensures DomainsConf(lists) == ["# This file will be populated with penguin domains"]
  {
  }
}
