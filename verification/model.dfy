/**
 * The server's persisted entities: clients with their rules and leases, and
 * domain lists. Ids are Rust `u32`; instants are UTC milliseconds.
 */
module Model {
  import opened Wrappers

  const U32_MAX: int := 0xFFFF_FFFF

  /** A Rust `u32`. */
  type U32 = x: int | 0 <= x <= U32_MAX

  /** The two rule kinds; serialised as "allow_http_access" / "deny_http_access". */
  datatype RuleKind = AllowHttpAccess | DenyHttpAccess

  /** A policy statement naming domain lists by id, in the order they were added. */
  datatype Rule = Rule(kind: RuleKind, domainlists: seq<U32>)

  /**
   * A temporary override. `endDateUtc` is the expiry instant in UTC
   * milliseconds; `endDate` is the deprecated naive timestamp, kept as the
   * text it was stored as.
   */
  datatype Lease = Lease(endDateUtc: Option<int>, endDate: Option<string>, rule: Rule)

  /** A managed device. `id` is None until the store assigns one. */
  datatype Client = Client(
    id: Option<U32>,
    ip: string,
    name: string,
    rules: seq<Rule>,
    leases: seq<Lease>,
    macAddress: Option<string>)

  /** A named, ordered collection of domains. `id` is None until assigned. */
  datatype DomainList = DomainList(id: Option<U32>, name: string, domains: seq<string>)

  /** Every lease carries its UTC expiry, so code that unwraps it cannot panic. */
  predicate LeasesDated(c: Client) {
    forall i :: 0 <= i < |c.leases| ==> c.leases[i].endDateUtc.Some?
  }

  /** A lease is in force at `now` iff its expiry is strictly after `now`. */
  predicate InForce(l: Lease, now: int)
    requires l.endDateUtc.Some?
  {
    l.endDateUtc.value > now
  }
}
