/**
 * The entities of the older standalone program: the same shape as the
 * server's, but a rule's kind is free text and a lease has only a mandatory
 * naive end timestamp (here: UTC milliseconds, since `now` is read as
 * `Utc::now().naive_local()`, the UTC wall time).
 */
module LegacyModel {
  import opened Wrappers
  import Model

  /** The only two kinds generation reacts to; any other text is representable and ignored. */
  const DenyRule: string := "deny_http_access"
  const AllowRule: string := "allow_http_access"

  datatype Rule = Rule(kind: string, domainlists: seq<Model.U32>)

  datatype Lease = Lease(endDate: int, rule: Rule)

  datatype Client = Client(
    id: Option<Model.U32>,
    ip: string,
    name: string,
    rules: seq<Rule>,
    leases: seq<Lease>)

  /**
   * The server's rule for a legacy one: the two known kinds map to the
   * enum; any other kind has no server counterpart.
   */
  function UpgradeRule(r: Rule): (u: Option<Model.Rule>)
    ensures u.Some? <==> r.kind == DenyRule || r.kind == AllowRule
    ensures u.Some? ==> u.value.domainlists == r.domainlists
    ensures u.Some? ==> (u.value.kind == Model.DenyHttpAccess <==> r.kind == DenyRule)
  {
    if r.kind == DenyRule then Some(Model.Rule(Model.DenyHttpAccess, r.domainlists))
    else if r.kind == AllowRule then Some(Model.Rule(Model.AllowHttpAccess, r.domainlists))
    else None
  }

  /** Rules of known kinds, upgraded, in order. */
  function UpgradeRules(rules: seq<Rule>): (u: seq<Model.Rule>)
    ensures |u| <= |rules|
  {
    if |rules| == 0 then []
    else
      var rest := UpgradeRules(rules[1..]);
      match UpgradeRule(rules[0])
      case Some(r) => [r] + rest
      case None => rest
  }

  /** Leases of known kinds, with the naive end becoming the UTC end (the local zone is taken as UTC). */
  function UpgradeLeases(leases: seq<Lease>): (u: seq<Model.Lease>)
    ensures |u| <= |leases|
    ensures forall i :: 0 <= i < |u| ==> u[i].endDateUtc.Some?
  {
    if |leases| == 0 then []
    else
      var rest := UpgradeLeases(leases[1..]);
      match UpgradeRule(leases[0].rule)
      case Some(r) => [Model.Lease(Some(leases[0].endDate), None, r)] + rest
      case None => rest
  }

  function Upgrade(c: Client): Model.Client {
    Model.Client(c.id, c.ip, c.name, UpgradeRules(c.rules), UpgradeLeases(c.leases), None)
  }
}
