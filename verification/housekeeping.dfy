/**
 * The server's periodic housekeeping: pruning expired leases (and deciding
 * whether to save and regenerate), the daily proxy window, and the start-up
 * repair of leases stored with only a naive end date.
 */
module Housekeeping {
  import opened Wrappers
  import opened Model
  import opened Generate
  import Text

  /** The leases still current at `now` (`now <= end`), in their original order. */
  function KeepCurrent(leases: seq<Lease>, now: int): seq<Lease>
    requires forall i :: 0 <= i < |leases| ==> leases[i].endDateUtc.Some?
  {
    if |leases| == 0 then []
    else
      var rest := KeepCurrent(leases[1..], now);
      if now <= leases[0].endDateUtc.value then [leases[0]] + rest else rest
  }

  /**
   * Pruning keeps exactly the leases with `now <= end` and removes something
   * iff some lease ended strictly before `now`. Order and multiplicity are
   * the subject of `KeepCurrentOrder`.
   */
  lemma {:induction false} KeepCurrentSpec(leases: seq<Lease>, now: int)
    requires forall i :: 0 <= i < |leases| ==> leases[i].endDateUtc.Some?
    ensures forall l :: l in KeepCurrent(leases, now) <==> l in leases && now <= l.endDateUtc.value
    ensures |KeepCurrent(leases, now)| <= |leases|
    ensures |KeepCurrent(leases, now)| == |leases| <==>
      forall i :: 0 <= i < |leases| ==> now <= leases[i].endDateUtc.value
    ensures (forall i :: 0 <= i < |leases| ==> now <= leases[i].endDateUtc.value) ==>
      KeepCurrent(leases, now) == leases
  {
    if |leases| > 0 {
      KeepCurrentSpec(leases[1..], now);
      assert leases == [leases[0]] + leases[1..];
      assert forall i :: 0 < i < |leases| ==> leases[i] == leases[1..][i - 1];
    }
  }

  /**
   * `retain` is a filter that keeps order and multiplicity: pruning a
   * concatenation prunes each part in place, and a single lease is kept
   * whole or dropped.
   */
  lemma {:induction false} KeepCurrentOrder(a: seq<Lease>, b: seq<Lease>, l: Lease, now: int)
    requires forall i :: 0 <= i < |a| ==> a[i].endDateUtc.Some?
    requires forall i :: 0 <= i < |b| ==> b[i].endDateUtc.Some?
    requires l.endDateUtc.Some?
    ensures forall i :: 0 <= i < |a + b| ==> (a + b)[i].endDateUtc.Some?
    ensures KeepCurrent(a + b, now) == KeepCurrent(a, now) + KeepCurrent(b, now)
    ensures KeepCurrent([l], now) == if now <= l.endDateUtc.value then [l] else []
  {
    assert forall i :: 0 <= i < |a + b| ==> (a + b)[i] == if i < |a| then a[i] else b[i - |a|];
    if |a| == 0 {
      assert a + b == b;
    } else {
      KeepCurrentOrder(a[1..], b, l, now);
      assert (a + b)[0] == a[0];
      assert (a + b)[1..] == a[1..] + b;
      if now <= a[0].endDateUtc.value {
        Text.Assoc([a[0]], KeepCurrent(a[1..], now), KeepCurrent(b, now));
      }
    }
    assert [l][1..] == [];
  }

  /** `client.leases.retain(|l| now <= l.end_date_utc.unwrap())`. */
  function PruneClient(c: Client, now: int): Client
    requires LeasesDated(c)
  {
    c.(leases := KeepCurrent(c.leases, now))
  }

  predicate AllLeasesDated(clients: seq<Client>) {
    forall i :: 0 <= i < |clients| ==> LeasesDated(clients[i])
  }

  /** Some lease of `c` ended strictly before `now`. */
  ghost predicate HasExpired(c: Client, now: int)
    requires LeasesDated(c)
  {
    exists j :: 0 <= j < |c.leases| && c.leases[j].endDateUtc.value < now
  }

  /** Some lease of some client ended strictly before `now`. */
  ghost predicate SomeLeaseExpired(clients: seq<Client>, now: int)
    requires AllLeasesDated(clients)
  {
    exists i :: 0 <= i < |clients| && HasExpired(clients[i], now)
  }

  /**
   * The pruning loop of `possibly_regenerate_config`: every client loses its
   * expired leases and nothing else; `leaseFound` says whether any client's
   * lease count changed.
   */
  method PruneExpired(clients: seq<Client>, now: int) returns (pruned: seq<Client>, leaseFound: bool)
    requires AllLeasesDated(clients)
    ensures |pruned| == |clients|
    ensures forall i :: 0 <= i < |clients| ==> pruned[i] == PruneClient(clients[i], now)
    ensures leaseFound <==> SomeLeaseExpired(clients, now)
    ensures !leaseFound ==> pruned == clients
  {
    pruned := [];
    leaseFound := false;
    var k := 0;
    while k < |clients|
      invariant 0 <= k <= |clients|
      invariant |pruned| == k
      invariant forall i :: 0 <= i < k ==> pruned[i] == PruneClient(clients[i], now)
      invariant leaseFound <==> exists i :: 0 <= i < k && HasExpired(clients[i], now)
      invariant !leaseFound ==> pruned == clients[..k]
    {
      var c := clients[k];
      KeepCurrentSpec(c.leases, now);
      var p := PruneClient(c, now);
      if |p.leases| != |c.leases| {
        leaseFound := true;
      } else {
        assert p == c;
      }
      pruned := pruned + [p];
      k := k + 1;
    }
    assert clients[..k] == clients;
  }

  /**
   * What `possibly_regenerate_config` does after pruning: nothing, a save of
   * the pruned clients that failed (the `?` returns before regenerating), or
   * a save followed by regeneration.
   */
  datatype Housekeeping =
    | Unchanged
    | SaveFailed(clients: seq<Client>, cause: string)
    | SaveAndRegenerate(clients: seq<Client>)

  /**
   * Saving the pruned clients is attempted exactly when some lease expired,
   * and regeneration follows only a successful save. `saveError` is what the
   * file system answers (None when the write succeeds).
   */
  method PossiblyRegenerateConfig(clients: seq<Client>, now: int, saveError: Option<string>) returns (outcome: Housekeeping)
    requires AllLeasesDated(clients)
    ensures outcome.Unchanged? <==> !SomeLeaseExpired(clients, now)
    ensures outcome.SaveAndRegenerate? <==> SomeLeaseExpired(clients, now) && saveError.None?
    ensures outcome.SaveFailed? ==> saveError == Some(outcome.cause)
    ensures !outcome.Unchanged? ==>
      |outcome.clients| == |clients|
      && forall i :: 0 <= i < |clients| ==> outcome.clients[i] == PruneClient(clients[i], now)
  {
    var pruned, leaseFound := PruneExpired(clients, now);
    if !leaseFound {
      outcome := Unchanged;
    } else if saveError.Some? {
      outcome := SaveFailed(pruned, saveError.value);
    } else {
      outcome := SaveAndRegenerate(pruned);
    }
  }

  /** All clients pruned at `now`. */
  function PruneAll(clients: seq<Client>, now: int): (r: seq<Client>)
    requires AllLeasesDated(clients)
    ensures |r| == |clients|
  {
    seq(|clients|, i requires 0 <= i < |clients| => PruneClient(clients[i], now))
  }

  /** A lease is only pruned after it has stopped exempting anything. */
  lemma {:induction false} PruneKeepsExemptions(leases: seq<Lease>, now: int)
    requires forall i :: 0 <= i < |leases| ==> leases[i].endDateUtc.Some?
    ensures AllowLeasesDated(leases) && AllowLeasesDated(KeepCurrent(leases, now))
    ensures ExemptIds(KeepCurrent(leases, now), now) == ExemptIds(leases, now)
  {
    KeepCurrentSpec(leases, now);
    if |leases| > 0 {
      assert forall i :: 0 < i < |leases| ==> leases[i] == leases[1..][i - 1];
      PruneKeepsExemptions(leases[1..], now);
      var rest := KeepCurrent(leases[1..], now);
      KeepCurrentSpec(leases[1..], now);
      if now <= leases[0].endDateUtc.value {
        assert KeepCurrent(leases, now) == [leases[0]] + rest;
        assert ([leases[0]] + rest)[1..] == rest;
      }
    }
  }

  lemma PruneClientConf(c: Client, now: int)
    requires Renderable(c) && LeasesDated(c)
    ensures Renderable(PruneClient(c, now))
    ensures ClientConf(PruneClient(c, now), now) == ClientConf(c, now)
  {
    PruneKeepsExemptions(c.leases, now);
    assert BlockedIds(PruneClient(c, now), now) == BlockedIds(c, now);
  }

  lemma {:induction false} PruneClientFiles(clients: seq<Client>, now: int)
    requires AllLeasesDated(clients)
    requires forall i :: 0 <= i < |clients| && |clients[i].rules| > 0 ==> Renderable(clients[i])
    ensures forall i :: 0 <= i < |clients| && |PruneAll(clients, now)[i].rules| > 0 ==>
              Renderable(PruneAll(clients, now)[i])
    ensures ClientFiles(PruneAll(clients, now), now) == ClientFiles(clients, now)
  {
    var pruned := PruneAll(clients, now);
    forall i | 0 <= i < |clients| && |clients[i].rules| > 0
      ensures Renderable(pruned[i]) && ClientConf(pruned[i], now) == ClientConf(clients[i], now)
    {
      PruneClientConf(clients[i], now);
    }
    if |clients| > 0 {
      var last := |clients| - 1;
      var init := clients[..last];
      assert forall i :: 0 <= i < |init| ==> init[i] == clients[i];
      PruneClientFiles(init, now);
      assert PruneAll(init, now) == pruned[..last];
    }
  }

  /**
   * Pruning at `now` never changes what generation emits at the same `now`:
   * every removed lease ended strictly before `now`, so it exempted nothing.
   */
  lemma PruneKeepsGeneration(clients: seq<Client>, lists: seq<DomainList>, now: int, dummyExists: bool)
    requires AllLeasesDated(clients) && GenerationReady(clients, lists)
    ensures GenerationReady(PruneAll(clients, now), lists)
    ensures GenerateSquidConfig(PruneAll(clients, now), lists, now, dummyExists)
      == GenerateSquidConfig(clients, lists, now, dummyExists)
  {
    PruneClientFiles(clients, now);
  }

  /**
   * A lease ending exactly at `now` survives pruning although generation
   * already treats it as lapsed.
   */
  lemma EndingNowSurvivesButLapsed(l: Lease, now: int)
    requires l.endDateUtc == Some(now)
    ensures KeepCurrent([l], now) == [l]
    ensures ExemptIds([l], now) == []
  {
  }

  /** `proxy_up`: the proxy runs from 07:00 up to, not including, 21:30 local time. */
  function ProxyUp(hour: nat, minute: nat): (up: bool)
    requires hour < 24 && minute < 60
    ensures up <==> 7 * 60 <= hour * 60 + minute < 21 * 60 + 30
  {
    hour >= 7 && (hour < 21 || (hour == 21 && minute < 30))
  }

  /**
   * One run of `proxy_schedule`: the argument `set_running` is called with,
   * or None when the proxy is already in the desired state.
   */
  function ProxySchedule(hour: nat, minute: nat, currentlyUp: bool): (call: Option<bool>)
    requires hour < 24 && minute < 60
    ensures call.Some? <==> currentlyUp != ProxyUp(hour, minute)
    ensures (if call.Some? then call.value else currentlyUp) == ProxyUp(hour, minute)
  {
    var up := ProxyUp(hour, minute);
    if up != currentlyUp then Some(up) else None
  }

  /** A JSON object key: absent, holding a value of the expected shape, or holding anything else. */
  datatype Slot<T> = Absent | Other | Holds(value: T)

  /** A stored lease object, reduced to its two date keys (other keys are left untouched). */
  datatype RawLease = LeaseObject(endDate: Slot<string>, endDateUtc: Slot<int>) | NotAnObject

  /** A stored client: an object whose "leases" key may hold an array. */
  datatype RawClient = ClientObject(leases: Slot<seq<RawLease>>) | OtherValue

  /** The lease needs repair: it has "end_date" and no "end_date_utc" key at all. */
  predicate NeedsRepair(l: RawLease) {
    l.LeaseObject? && !l.endDate.Absent? && l.endDateUtc.Absent?
  }

  /** The naive date of a lease needing repair can be read (a string `parse` accepts). */
  predicate Readable(l: RawLease, parse: string -> Option<int>)
    requires NeedsRepair(l)
  {
    l.endDate.Holds? && parse(l.endDate.value).Some?
  }

  function RepairLease(l: RawLease, parse: string -> Option<int>): Option<RawLease>
  {
    if NeedsRepair(l) then
      if Readable(l, parse) then Some(l.(endDateUtc := Holds(parse(l.endDate.value).value))) else None
    else Some(l)
  }

  function RepairLeases(ls: seq<RawLease>, parse: string -> Option<int>): (r: Option<seq<RawLease>>)
    ensures r.Some? <==> forall k :: 0 <= k < |ls| && NeedsRepair(ls[k]) ==> Readable(ls[k], parse)
    ensures r.Some? ==> |r.value| == |ls| && forall k :: 0 <= k < |ls| ==> Some(r.value[k]) == RepairLease(ls[k], parse)
  {
    if |ls| == 0 then Some([])
    else
      var rest := RepairLeases(ls[1..], parse);
      assert forall k :: 0 < k < |ls| ==> ls[k] == ls[1..][k - 1];
      match RepairLease(ls[0], parse)
      case None => None
      case Some(l) => if rest.None? then None else Some([l] + rest.value)
  }

  function RepairClient(c: RawClient, parse: string -> Option<int>): Option<RawClient>
  {
    if c.ClientObject? && c.leases.Holds? then
      match RepairLeases(c.leases.value, parse)
      case None => None
      case Some(ls) => Some(ClientObject(Holds(ls)))
    else Some(c)
  }

  function RepairClients(cs: seq<RawClient>, parse: string -> Option<int>): (r: Option<seq<RawClient>>)
    ensures r.Some? <==> forall i :: 0 <= i < |cs| ==> RepairClient(cs[i], parse).Some?
    ensures r.Some? ==> |r.value| == |cs| && forall i :: 0 <= i < |cs| ==> Some(r.value[i]) == RepairClient(cs[i], parse)
  {
    if |cs| == 0 then Some([])
    else
      var rest := RepairClients(cs[1..], parse);
      assert forall i :: 0 < i < |cs| ==> cs[i] == cs[1..][i - 1];
      match RepairClient(cs[0], parse)
      case None => None
      case Some(c) => if rest.None? then None else Some([c] + rest.value)
  }

  /** Some lease of some client object needs repair. */
  predicate AnyNeedsRepair(cs: seq<RawClient>) {
    exists i, k :: 0 <= i < |cs| && cs[i].ClientObject? && cs[i].leases.Holds?
      && 0 <= k < |cs[i].leases.value| && NeedsRepair(cs[i].leases.value[k])
  }

  /** The outcome of the repair: the patched clients and whether the file is rewritten. */
  datatype Repair = Repair(clients: seq<RawClient>, rewrite: bool)

  /**
   * `repair_client_json` on a clients file that exists and holds an array:
   * fails if a lease needing repair has an unreadable naive date; otherwise
   * fills the missing "end_date_utc" keys and rewrites the file iff it filled any.
   */
  function RepairClientJson(cs: seq<RawClient>, parse: string -> Option<int>): Option<Repair>
  {
    match RepairClients(cs, parse)
    case None => None
    case Some(fixed) => Some(Repair(fixed, AnyNeedsRepair(cs)))
  }

  /**
   * Repair only ever fills an absent "end_date_utc", from the lease's own
   * naive date; every other lease (including one whose "end_date_utc" is
   * null) is left exactly as it was.
   */
  lemma RepairFillsOnlyMissing(cs: seq<RawClient>, parse: string -> Option<int>, i: nat, k: nat)
    requires RepairClientJson(cs, parse).Some?
    requires i < |cs| && cs[i].ClientObject? && cs[i].leases.Holds? && k < |cs[i].leases.value|
    ensures var out := RepairClientJson(cs, parse).value.clients;
      && |out| == |cs| && out[i].ClientObject? && out[i].leases.Holds?
      && |out[i].leases.value| == |cs[i].leases.value|
      && var before := cs[i].leases.value[k];
         var after := out[i].leases.value[k];
         if NeedsRepair(before)
         then after == before.(endDateUtc := Holds(parse(before.endDate.value).value))
         else after == before
  {
    var r := RepairClients(cs, parse);
    assert Some(r.value[i]) == RepairClient(cs[i], parse);
    var ls := RepairLeases(cs[i].leases.value, parse);
    assert Some(ls.value[k]) == RepairLease(cs[i].leases.value[k], parse);
  }

  /** The repair fails iff some lease needing repair has an unreadable naive date. */
  lemma RepairFailsIff(cs: seq<RawClient>, parse: string -> Option<int>)
    ensures RepairClientJson(cs, parse).None? <==>
      exists i, k :: 0 <= i < |cs| && cs[i].ClientObject? && cs[i].leases.Holds?
        && 0 <= k < |cs[i].leases.value| && NeedsRepair(cs[i].leases.value[k])
        && !Readable(cs[i].leases.value[k], parse)
  {
    if RepairClientJson(cs, parse).None? {
      var i :| 0 <= i < |cs| && RepairClient(cs[i], parse).None?;
      var k :| 0 <= k < |cs[i].leases.value| && NeedsRepair(cs[i].leases.value[k])
        && !Readable(cs[i].leases.value[k], parse);
    }
  }

  /** The file is rewritten iff the repair changed something. */
  lemma RepairRewritesIffChanged(cs: seq<RawClient>, parse: string -> Option<int>)
    requires RepairClientJson(cs, parse).Some?
    ensures RepairClientJson(cs, parse).value.rewrite <==> RepairClientJson(cs, parse).value.clients != cs
  {
    var out := RepairClientJson(cs, parse).value.clients;
    if AnyNeedsRepair(cs) {
      var i, k :| 0 <= i < |cs| && cs[i].ClientObject? && cs[i].leases.Holds?
        && 0 <= k < |cs[i].leases.value| && NeedsRepair(cs[i].leases.value[k]);
      RepairFillsOnlyMissing(cs, parse, i, k);
      assert out[i].leases.value[k] != cs[i].leases.value[k];
    } else {
      forall i | 0 <= i < |cs|
        ensures out[i] == cs[i]
      {
        assert Some(out[i]) == RepairClient(cs[i], parse);
        if cs[i].ClientObject? && cs[i].leases.Holds? {
          var ls := cs[i].leases.value;
          var fixed := RepairLeases(ls, parse).value;
          forall k | 0 <= k < |ls|
            ensures fixed[k] == ls[k]
          {
            assert Some(fixed[k]) == RepairLease(ls[k], parse);
          }
          assert fixed == ls;
        }
      }
      assert out == cs;
    }
  }
}
