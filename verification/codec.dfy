/**
 * How the server's entities are stored as JSON by their serde derives:
 * fields in declaration order, `rules`, `leases`, `domainlists` and
 * `domains` left out when empty and read back as empty when absent,
 * `mac_address` left out when absent, rule kinds as snake-case strings and
 * the lease's UTC end as epoch milliseconds. JSON is a value tree here;
 * the text syntax is not modelled.
 */
module Codec {
  import opened Wrappers
  import opened Model

  datatype Json =
    | Null
    | Bool(b: bool)
    | Num(n: int)
    | Str(s: string)
    | Arr(items: seq<Json>)
    | Obj(members: seq<(string, Json)>)

  /** Why decoding failed, as serde reports it. */
  datatype JsonError =
    | MissingField(field: string)
    | DuplicateField(field: string)
    | InvalidType(expected: string)
    | UnknownVariant(variant: string)
    | OutOfRange(n: int)

  /** A key of an object: not there, there once with a value, or there more than once. */
  datatype Lookup = Absent | Found(value: Json) | Duplicate

  function Find(members: seq<(string, Json)>, key: string): Lookup
  {
    if |members| == 0 then Absent
    else
      var rest := Find(members[1..], key);
      if members[0].0 != key then rest
      else if rest.Absent? then Found(members[0].1)
      else Duplicate
  }

  /** A field every value must have. */
  function Required(members: seq<(string, Json)>, key: string): Result<Json, JsonError> {
    match Find(members, key)
    case Absent => Err(MissingField(key))
    case Duplicate => Err(DuplicateField(key))
    case Found(v) => Ok(v)
  }

  const AllowKind: string := "allow_http_access"
  const DenyKind: string := "deny_http_access"

  function EncodeKind(k: RuleKind): Json {
    match k
    case AllowHttpAccess => Str(AllowKind)
    case DenyHttpAccess => Str(DenyKind)
  }

  /** The kind a variant name stands for. */
  function KindNamed(name: string): Result<RuleKind, JsonError> {
    if name == AllowKind then Ok(AllowHttpAccess)
    else if name == DenyKind then Ok(DenyHttpAccess)
    else Err(UnknownVariant(name))
  }

  /**
   * A unit variant reads from its name as a string, or from serde_json's
   * externally tagged form: an object whose single key is the name and
   * whose value is null. In that form the name is checked first, then the
   * null, then that no second key follows.
   */
  function DecodeKind(j: Json): (r: Result<RuleKind, JsonError>)
    ensures r.Ok? <==>
      j in {Str(AllowKind), Str(DenyKind), Obj([(AllowKind, Null)]), Obj([(DenyKind, Null)])}
    ensures r.Ok? ==> (r.value == AllowHttpAccess <==> j in {Str(AllowKind), Obj([(AllowKind, Null)])})
  {
    match j
    case Str(s) => KindNamed(s)
    case Obj(ms) =>
      if |ms| == 0 then Err(InvalidType("enum RuleKind"))
      else
        var kind :- KindNamed(ms[0].0);
        if ms[0].1 != Null then Err(InvalidType("unit variant"))
        else if |ms| > 1 then Err(InvalidType("map with a single key"))
        else
          assert ms == [(ms[0].0, Null)];
          Ok(kind)
    case _ => Err(InvalidType("enum RuleKind"))
  }

  function DecodeU32(j: Json): (r: Result<U32, JsonError>)
    ensures r.Ok? <==> j.Num? && 0 <= j.n <= U32_MAX
  {
    if !j.Num? then Err(InvalidType("u32"))
    else if 0 <= j.n <= U32_MAX then Ok(j.n)
    else Err(OutOfRange(j.n))
  }

  function DecodeString(j: Json): Result<string, JsonError> {
    if j.Str? then Ok(j.s) else Err(InvalidType("string"))
  }

  function EncodeId(id: Option<U32>): Json {
    match id
    case None => Null
    case Some(n) => Num(n)
  }

  /** An `Option<u32>` field: absent or null is None. */
  function DecodeId(members: seq<(string, Json)>, key: string): Result<Option<U32>, JsonError> {
    match Find(members, key)
    case Absent => Ok(None)
    case Duplicate => Err(DuplicateField(key))
    case Found(Null) => Ok(None)
    case Found(v) =>
      var n :- DecodeU32(v);
      Ok(Some(n))
  }

  /** An `Option<String>` field: absent or null is None. */
  function DecodeOptString(members: seq<(string, Json)>, key: string): Result<Option<string>, JsonError> {
    match Find(members, key)
    case Absent => Ok(None)
    case Duplicate => Err(DuplicateField(key))
    case Found(Null) => Ok(None)
    case Found(v) =>
      var s :- DecodeString(v);
      Ok(Some(s))
  }

  /**
   * `end_date_utc` goes through `ts_milliseconds_option`, so serde's
   * "absent means None" does not apply: the key must be there, null or a
   * number.
   */
  function DecodeMillis(members: seq<(string, Json)>, key: string): Result<Option<int>, JsonError> {
    var v :- Required(members, key);
    if v.Null? then Ok(None)
    else if v.Num? then Ok(Some(v.n))
    else Err(InvalidType("timestamp in milliseconds"))
  }

  /** A member that is written only when `present`. */
  function OmitUnless(present: bool, key: string, value: Json): seq<(string, Json)> {
    if present then [(key, value)] else []
  }

  /** A `#[serde(default)]` list field: absent is the empty list. */
  function DefaultedItems(members: seq<(string, Json)>, key: string): Result<seq<Json>, JsonError> {
    match Find(members, key)
    case Absent => Ok([])
    case Duplicate => Err(DuplicateField(key))
    case Found(Arr(items)) => Ok(items)
    case Found(_) => Err(InvalidType("sequence"))
  }

  function EncodeIds(ids: seq<U32>): (r: seq<Json>)
    ensures |r| == |ids|
  {
    if |ids| == 0 then [] else [Num(ids[0])] + EncodeIds(ids[1..])
  }

  function DecodeIds(items: seq<Json>): Result<seq<U32>, JsonError> {
    if |items| == 0 then Ok([])
    else
      var n :- DecodeU32(items[0]);
      var rest :- DecodeIds(items[1..]);
      Ok([n] + rest)
  }

  function EncodeStrings(ss: seq<string>): (r: seq<Json>)
    ensures |r| == |ss|
  {
    if |ss| == 0 then [] else [Str(ss[0])] + EncodeStrings(ss[1..])
  }

  function DecodeStrings(items: seq<Json>): Result<seq<string>, JsonError> {
    if |items| == 0 then Ok([])
    else
      var s :- DecodeString(items[0]);
      var rest :- DecodeStrings(items[1..]);
      Ok([s] + rest)
  }

  function EncodeRule(r: Rule): Json {
    Obj([("kind", EncodeKind(r.kind))]
      + OmitUnless(|r.domainlists| > 0, "domainlists", Arr(EncodeIds(r.domainlists))))
  }

  function DecodeRule(j: Json): Result<Rule, JsonError> {
    if !j.Obj? then Err(InvalidType("struct Rule"))
    else
      var kind :- Required(j.members, "kind");
      var kind :- DecodeKind(kind);
      var ids :- DefaultedItems(j.members, "domainlists");
      var ids :- DecodeIds(ids);
      Ok(Rule(kind, ids))
  }

  function EncodeRules(rs: seq<Rule>): (r: seq<Json>)
    ensures |r| == |rs|
  {
    if |rs| == 0 then [] else [EncodeRule(rs[0])] + EncodeRules(rs[1..])
  }

  function DecodeRules(items: seq<Json>): Result<seq<Rule>, JsonError> {
    if |items| == 0 then Ok([])
    else
      var r :- DecodeRule(items[0]);
      var rest :- DecodeRules(items[1..]);
      Ok([r] + rest)
  }

  function EncodeOptString(s: Option<string>): Json {
    match s
    case None => Null
    case Some(t) => Str(t)
  }

  function EncodeMillis(ms: Option<int>): Json {
    match ms
    case None => Null
    case Some(n) => Num(n)
  }

  /** Both dates are always written, as null when absent. */
  function EncodeLease(l: Lease): Json {
    Obj([("end_date_utc", EncodeMillis(l.endDateUtc)), ("end_date", EncodeOptString(l.endDate)),
         ("rule", EncodeRule(l.rule))])
  }

  function DecodeLease(j: Json): Result<Lease, JsonError> {
    if !j.Obj? then Err(InvalidType("struct Lease"))
    else
      var utc :- DecodeMillis(j.members, "end_date_utc");
      var naive :- DecodeOptString(j.members, "end_date");
      var rule :- Required(j.members, "rule");
      var rule :- DecodeRule(rule);
      Ok(Lease(utc, naive, rule))
  }

  function EncodeLeases(ls: seq<Lease>): (r: seq<Json>)
    ensures |r| == |ls|
  {
    if |ls| == 0 then [] else [EncodeLease(ls[0])] + EncodeLeases(ls[1..])
  }

  function DecodeLeases(items: seq<Json>): Result<seq<Lease>, JsonError> {
    if |items| == 0 then Ok([])
    else
      var l :- DecodeLease(items[0]);
      var rest :- DecodeLeases(items[1..]);
      Ok([l] + rest)
  }

  function EncodeClient(c: Client): Json {
    Obj([("id", EncodeId(c.id)), ("ip", Str(c.ip)), ("name", Str(c.name))]
      + OmitUnless(|c.rules| > 0, "rules", Arr(EncodeRules(c.rules)))
      + OmitUnless(|c.leases| > 0, "leases", Arr(EncodeLeases(c.leases)))
      + OmitUnless(c.macAddress.Some?, "mac_address", EncodeOptString(c.macAddress)))
  }

  function DecodeClient(j: Json): Result<Client, JsonError> {
    if !j.Obj? then Err(InvalidType("struct Client"))
    else
      var id :- DecodeId(j.members, "id");
      var ip :- Required(j.members, "ip");
      var ip :- DecodeString(ip);
      var name :- Required(j.members, "name");
      var name :- DecodeString(name);
      var rules :- DefaultedItems(j.members, "rules");
      var rules :- DecodeRules(rules);
      var leases :- DefaultedItems(j.members, "leases");
      var leases :- DecodeLeases(leases);
      var mac :- DecodeOptString(j.members, "mac_address");
      Ok(Client(id, ip, name, rules, leases, mac))
  }

  function EncodeDomainList(l: DomainList): Json {
    Obj([("id", EncodeId(l.id)), ("name", Str(l.name))]
      + OmitUnless(|l.domains| > 0, "domains", Arr(EncodeStrings(l.domains))))
  }

  function DecodeDomainList(j: Json): Result<DomainList, JsonError> {
    if !j.Obj? then Err(InvalidType("struct DomainList"))
    else
      var id :- DecodeId(j.members, "id");
      var name :- Required(j.members, "name");
      var name :- DecodeString(name);
      var domains :- DefaultedItems(j.members, "domains");
      var domains :- DecodeStrings(domains);
      Ok(DomainList(id, name, domains))
  }

  /** Looking a key up in two runs of members combines the two lookups. */
  function Both(a: Lookup, b: Lookup): Lookup {
    if a.Absent? then b else if b.Absent? then a else Duplicate
  }

  lemma {:induction false} FindAppend(a: seq<(string, Json)>, b: seq<(string, Json)>, key: string)
    ensures Find(a + b, key) == Both(Find(a, key), Find(b, key))
  {
    if |a| == 0 {
      assert a + b == b;
    } else {
      FindAppend(a[1..], b, key);
      assert (a + b)[1..] == a[1..] + b;
    }
  }

  function FindOne(m: (string, Json), key: string): Lookup {
    if m.0 == key then Found(m.1) else Absent
  }

  lemma FindThree(a: (string, Json), b: (string, Json), c: (string, Json), key: string)
    ensures Find([a, b, c], key) == Both(Both(FindOne(a, key), FindOne(b, key)), FindOne(c, key))
  {
    assert [a, b, c] == [a] + [b] + [c];
    FindAppend([a] + [b], [c], key);
    FindAppend([a], [b], key);
  }

  /** An optional member is found exactly when it was written. */
  lemma FindOptional(present: bool, k: string, v: Json, key: string)
    ensures Find(OmitUnless(present, k, v), key) == if present && k == key then Found(v) else Absent
  {
    if present {
      assert OmitUnless(present, k, v)[1..] == [];
    }
  }

  lemma {:induction false} IdsRoundTrip(ids: seq<U32>)
    ensures DecodeIds(EncodeIds(ids)) == Ok(ids)
  {
    if |ids| > 0 {
      IdsRoundTrip(ids[1..]);
      assert EncodeIds(ids)[1..] == EncodeIds(ids[1..]);
      assert [ids[0]] + ids[1..] == ids;
    }
  }

  lemma {:induction false} StringsRoundTrip(ss: seq<string>)
    ensures DecodeStrings(EncodeStrings(ss)) == Ok(ss)
  {
    if |ss| > 0 {
      StringsRoundTrip(ss[1..]);
      assert EncodeStrings(ss)[1..] == EncodeStrings(ss[1..]);
      assert [ss[0]] + ss[1..] == ss;
    }
  }

  /** Each kind is written as its snake-case name and read back; no other JSON value is a kind. */
  lemma KindRoundTrip(k: RuleKind)
    ensures DecodeKind(EncodeKind(k)) == Ok(k)
    ensures EncodeKind(k) == Str("allow_http_access") <==> k == AllowHttpAccess
    ensures EncodeKind(k) == Str("deny_http_access") <==> k == DenyHttpAccess
  {
  }

  lemma RuleFields(r: Rule)
    ensures Find(EncodeRule(r).members, "kind") == Found(EncodeKind(r.kind))
    ensures Find(EncodeRule(r).members, "domainlists")
      == if |r.domainlists| > 0 then Found(Arr(EncodeIds(r.domainlists))) else Absent
  {
    var opt := OmitUnless(|r.domainlists| > 0, "domainlists", Arr(EncodeIds(r.domainlists)));
    FindAppend([("kind", EncodeKind(r.kind))], opt, "kind");
    FindAppend([("kind", EncodeKind(r.kind))], opt, "domainlists");
    FindOptional(|r.domainlists| > 0, "domainlists", Arr(EncodeIds(r.domainlists)), "kind");
    FindOptional(|r.domainlists| > 0, "domainlists", Arr(EncodeIds(r.domainlists)), "domainlists");
  }

  lemma RuleRoundTrip(r: Rule)
    ensures DecodeRule(EncodeRule(r)) == Ok(r)
  {
    RuleFields(r);
    IdsRoundTrip(r.domainlists);
  }

  lemma {:induction false} RulesRoundTrip(rs: seq<Rule>)
    ensures DecodeRules(EncodeRules(rs)) == Ok(rs)
  {
    if |rs| > 0 {
      RuleRoundTrip(rs[0]);
      RulesRoundTrip(rs[1..]);
      assert EncodeRules(rs)[1..] == EncodeRules(rs[1..]);
      assert [rs[0]] + rs[1..] == rs;
    }
  }

  lemma LeaseFields(l: Lease)
    ensures Find(EncodeLease(l).members, "end_date_utc") == Found(EncodeMillis(l.endDateUtc))
    ensures Find(EncodeLease(l).members, "end_date") == Found(EncodeOptString(l.endDate))
    ensures Find(EncodeLease(l).members, "rule") == Found(EncodeRule(l.rule))
  {
    var ms := EncodeLease(l).members;
    FindThree(ms[0], ms[1], ms[2], "end_date_utc");
    FindThree(ms[0], ms[1], ms[2], "end_date");
    FindThree(ms[0], ms[1], ms[2], "rule");
  }

  lemma LeaseRoundTrip(l: Lease)
    ensures DecodeLease(EncodeLease(l)) == Ok(l)
  {
    LeaseFields(l);
    RuleRoundTrip(l.rule);
    var ms := EncodeLease(l).members;
    assert DecodeMillis(ms, "end_date_utc") == Ok(l.endDateUtc);
    assert DecodeOptString(ms, "end_date") == Ok(l.endDate);
  }

  lemma {:induction false} LeasesRoundTrip(ls: seq<Lease>)
    ensures DecodeLeases(EncodeLeases(ls)) == Ok(ls)
  {
    if |ls| > 0 {
      LeaseRoundTrip(ls[0]);
      LeasesRoundTrip(ls[1..]);
      assert EncodeLeases(ls)[1..] == EncodeLeases(ls[1..]);
      assert [ls[0]] + ls[1..] == ls;
    }
  }

  /**
   * The members written for a client: `id`, `ip` and `name` always, then
   * `rules`, `leases` and `mac_address` exactly when non-empty / present.
   */
  lemma ClientFields(c: Client)
    ensures Find(EncodeClient(c).members, "id") == Found(EncodeId(c.id))
    ensures Find(EncodeClient(c).members, "ip") == Found(Str(c.ip))
    ensures Find(EncodeClient(c).members, "name") == Found(Str(c.name))
    ensures Find(EncodeClient(c).members, "rules")
      == if |c.rules| > 0 then Found(Arr(EncodeRules(c.rules))) else Absent
    ensures Find(EncodeClient(c).members, "leases")
      == if |c.leases| > 0 then Found(Arr(EncodeLeases(c.leases))) else Absent
    ensures Find(EncodeClient(c).members, "mac_address")
      == if c.macAddress.Some? then Found(Str(c.macAddress.value)) else Absent
  {
    ClientFind(c, "id");
    ClientFind(c, "ip");
    ClientFind(c, "name");
    ClientFind(c, "rules");
    ClientFind(c, "leases");
    ClientFind(c, "mac_address");
  }

  lemma ClientFind(c: Client, key: string)
    ensures Find(EncodeClient(c).members, key)
      == Both(Both(Both(Both(Both(FindOne(("id", EncodeId(c.id)), key), FindOne(("ip", Str(c.ip)), key)),
                             FindOne(("name", Str(c.name)), key)),
                        if |c.rules| > 0 && key == "rules" then Found(Arr(EncodeRules(c.rules))) else Absent),
                   if |c.leases| > 0 && key == "leases" then Found(Arr(EncodeLeases(c.leases))) else Absent),
              if c.macAddress.Some? && key == "mac_address" then Found(EncodeOptString(c.macAddress)) else Absent)
  {
    var fixed := [("id", EncodeId(c.id)), ("ip", Str(c.ip)), ("name", Str(c.name))];
    var r := OmitUnless(|c.rules| > 0, "rules", Arr(EncodeRules(c.rules)));
    var l := OmitUnless(|c.leases| > 0, "leases", Arr(EncodeLeases(c.leases)));
    var m := OmitUnless(c.macAddress.Some?, "mac_address", EncodeOptString(c.macAddress));
    FindAppend(fixed + r + l, m, key);
    FindAppend(fixed + r, l, key);
    FindAppend(fixed, r, key);
    FindThree(fixed[0], fixed[1], fixed[2], key);
    FindOptional(|c.rules| > 0, "rules", Arr(EncodeRules(c.rules)), key);
    FindOptional(|c.leases| > 0, "leases", Arr(EncodeLeases(c.leases)), key);
    FindOptional(c.macAddress.Some?, "mac_address", EncodeOptString(c.macAddress), key);
  }

  /** A client is read back exactly as it was written. */
  lemma ClientRoundTrip(c: Client)
    ensures DecodeClient(EncodeClient(c)) == Ok(c)
  {
    ClientMembersDecode(c);
    DecodeClientFrom(EncodeClient(c).members, c);
  }

  lemma ClientMembersDecode(c: Client)
    ensures var ms := EncodeClient(c).members;
      && DecodeId(ms, "id") == Ok(c.id)
      && Required(ms, "ip") == Ok(Str(c.ip))
      && Required(ms, "name") == Ok(Str(c.name))
      && DefaultedItems(ms, "rules") == Ok(EncodeRules(c.rules))
      && DefaultedItems(ms, "leases") == Ok(EncodeLeases(c.leases))
      && DecodeOptString(ms, "mac_address") == Ok(c.macAddress)
  {
    ClientFields(c);
  }

  lemma DecodeClientFrom(ms: seq<(string, Json)>, c: Client)
    requires DecodeId(ms, "id") == Ok(c.id)
    requires Required(ms, "ip") == Ok(Str(c.ip)) && Required(ms, "name") == Ok(Str(c.name))
    requires DefaultedItems(ms, "rules") == Ok(EncodeRules(c.rules))
    requires DefaultedItems(ms, "leases") == Ok(EncodeLeases(c.leases))
    requires DecodeOptString(ms, "mac_address") == Ok(c.macAddress)
    ensures DecodeClient(Obj(ms)) == Ok(c)
  {
    RulesRoundTrip(c.rules);
    LeasesRoundTrip(c.leases);
  }

  lemma DomainListFields(l: DomainList)
    ensures Find(EncodeDomainList(l).members, "id") == Found(EncodeId(l.id))
    ensures Find(EncodeDomainList(l).members, "name") == Found(Str(l.name))
    ensures Find(EncodeDomainList(l).members, "domains")
      == if |l.domains| > 0 then Found(Arr(EncodeStrings(l.domains))) else Absent
  {
    var fixed := [("id", EncodeId(l.id)), ("name", Str(l.name))];
    var d := OmitUnless(|l.domains| > 0, "domains", Arr(EncodeStrings(l.domains)));
    FindAppend(fixed, d, "id");
    FindAppend(fixed, d, "name");
    FindAppend(fixed, d, "domains");
    FindOptional(|l.domains| > 0, "domains", Arr(EncodeStrings(l.domains)), "id");
    FindOptional(|l.domains| > 0, "domains", Arr(EncodeStrings(l.domains)), "name");
    FindOptional(|l.domains| > 0, "domains", Arr(EncodeStrings(l.domains)), "domains");
  }

  lemma DomainListRoundTrip(l: DomainList)
    ensures DecodeDomainList(EncodeDomainList(l)) == Ok(l)
  {
    DomainListFields(l);
    StringsRoundTrip(l.domains);
    var ms := EncodeDomainList(l).members;
    assert DecodeId(ms, "id") == Ok(l.id);
    assert DefaultedItems(ms, "domains") == Ok(EncodeStrings(l.domains));
  }

  /** A stored client without `rules` or `leases` keys reads back with none. */
  lemma ClientDefaultsEmpty(members: seq<(string, Json)>)
    requires DecodeClient(Obj(members)).Ok?
    ensures Find(members, "rules").Absent? ==> DecodeClient(Obj(members)).value.rules == []
    ensures Find(members, "leases").Absent? ==> DecodeClient(Obj(members)).value.leases == []
    ensures Find(members, "id").Absent? ==> DecodeClient(Obj(members)).value.id == None
  {
  }

  /**
   * A stored lease without `end_date_utc` cannot be read: the millisecond
   * adapter makes the key mandatory even though its value may be null.
   */
  lemma LeaseNeedsUtcKey(members: seq<(string, Json)>)
    requires Find(members, "end_date_utc").Absent?
    ensures DecodeLease(Obj(members)) == Err(MissingField("end_date_utc"))
  {
  }
}
