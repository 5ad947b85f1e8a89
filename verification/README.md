# penguin access policy: a Dafny model

penguin manages per-device web filtering for a home network. It stores
clients (devices identified by ip address) and domain lists. A client has
deny rules that name lists, and it may have time-limited allow leases. From
these the program renders squid configuration: one `client_NNNN.conf` per
client with rules, and a `domains.conf` that defines each list. A list is
blocked for a client unless an allow lease naming it is still in force.

This project models that renderer and the components around it:

- the server's renderer and its older standalone twin;
- lease housekeeping: pruning expired leases, the proxy's daily window, and
  the one-off repair of leases stored without a UTC end;
- the id-allocating list store and the REST wrapper over it;
- the duplicate-ip guard on client creation;
- the squid access-log line parser;
- the web client's small `Result` class;
- the JSON shape of the stored entities.

Modules:

- `Wrappers` holds Option and Result.
- `Text` covers whitespace splitting, decimal digits and joins.
- `Model` holds the server's entities.
- `Generate` is `generate_squid_config`.
- `Housekeeping` covers pruning, the proxy schedule and the JSON lease repair.
- `IdList` is `IdentifiedList` in src/list.rs. `ManagedList` in
  src/config.rs has the same `add`, `update` and `delete`, line for line,
  so both are modelled once, generically over an `Identity` of get-id and
  set-id functions.
- `RestList` is `JsonRestList`.
- `Api` covers the client and domain-list handlers.
- `SquidLog` is `LogEntry::parse`.
- `JsResult` is client/src/result.ts.
- `LegacyModel` and `LegacyGenerate` are src/model.rs and src/generate.rs.
- `Codec` is the serde derives of server/src/model.rs.

Conventions:

- A Rust `u32` is the subset type `U32`. Instants are integer milliseconds.
- A place where the source panics (an `unwrap` on a missing id or lease
  end, the `u32` overflow of `max_id + 1` in a debug build) becomes a
  precondition. Examples are `Generate.Renderable` and `IdList.Add`'s
  `MaxId(items, k) < U32_MAX`.
- Generated output is a map from file name to the sequence of `writeln`
  arguments. A later write to the same name replaces the earlier one, as
  `File::create` truncates.
- Whether `client_dummy.conf` already exists is a parameter.
- Saving to disk is an abstract effect. The model records that a save was
  attempted, and its possible failure message is a parameter.
- Parsing naive dates and squid's log date format are parameters: partial
  functions from text to milliseconds.

Two behaviours worth knowing:

- Only allow-kind leases exempt a list (server/src/generate.rs:44).
  Deny-kind leases have no effect.
- The output is deny lines per list id, not a set of domains. Duplicates are
  kept, and an id that names no list is still emitted, without any warning.

## Model

| member | source | states |
|---|---|---|
| Text.SplitWhitespaceSound | server/src/squid.rs:38 | every token of `split_whitespace` is non-empty and free of Unicode whitespace, and the tokens concatenated are the line with its whitespace removed |
| Text.SplitJoinRoundTrip | server/src/squid.rs:38 | whitespace-free tokens joined by one whitespace character split back into exactly those tokens |
| Text.SplitAppend | server/src/squid.rs:38 | splitting at a whitespace character splits each side independently |
| Text.DecimalRoundTrip | server/src/generate.rs:24 | the decimal rendering of a number reads back as that number |
| Generate.IdStringParts | server/src/generate.rs:23-25 | `id_string` is the type name, `_`, then at least four digits (zero-padded) whose value is the id |
| Generate.IdStringInjective | server/src/generate.rs:23-25 | distinct ids give distinct names |
| Generate.ExemptIdsMembers | server/src/generate.rs:41-46 | an id is in `allowed_domains` iff some allow-kind lease ending strictly after now names it |
| Generate.DenyCandidatesMembers | server/src/generate.rs:49-53 | an id is iterated iff some deny-kind rule names it |
| Generate.SurvivingMembers | server/src/generate.rs:49-61 | an id survives iff it is a candidate and not exempt, and as many times as it is a candidate (duplicates kept) |
| Generate.DenyLineIff | server/src/generate.rs:40-61 | the deny line for list M is in the client conf iff a deny rule names M and no allow lease in force at now names M |
| Generate.InertLease | server/src/generate.rs:44 | adding a deny-kind lease, or one whose end is not after now (end == now included), leaves the conf unchanged |
| Generate.AllowRuleInert | server/src/generate.rs:52 | an allow-kind entry among the rules leaves the conf unchanged |
| Generate.OneLeaseSuffices | server/src/generate.rs:44-55 | one in-force allow lease naming M removes M's deny line, whatever other leases exist |
| Generate.NothingInForceBlocksAll | server/src/generate.rs:41-61 | with no allow lease in force, every deny-rule id is emitted in rule then list order |
| Generate.AclLineSplits | server/src/generate.rs:48 | an acl line for a whitespace-free name and ip splits back into `acl`, the name, `src` and the ip |
| Generate.ClientConfStartsWithAcl | server/src/generate.rs:48 | a conf has one line more than there are blocked ids, and its first line splits into `acl`, the client name, `src`, the ip |
| Generate.GenerateClientFile | server/src/generate.rs:35-62 | with unique client ids, each client with rules gets `client_NNNN.conf` holding its acl and deny lines |
| Generate.GenerateFileNames | server/src/generate.rs:35-73 | the output holds `domains.conf`, `client_dummy.conf` exactly when it did not exist, and a conf exactly for each client with rules |
| Generate.NoRulesNoFile | server/src/generate.rs:35 | a client without rules gets no conf |
| Generate.DomainsConfLines | server/src/generate.rs:74-82 | `domains.conf` has one line per list in collection order, and line j splits into `acl`, the list name, `dstdomain`, then its domains |
| Generate.DomainsConfEmpty | server/src/generate.rs:83-87 | with no lists, `domains.conf` is the single comment line |
| Housekeeping.KeepCurrentSpec | server/src/main.rs:98 | `retain` keeps exactly the leases with now <= end, and removes none iff none has expired |
| Housekeeping.KeepCurrentOrder | server/src/main.rs:98 | `retain` is an order-keeping filter: pruning a concatenation prunes each part in place, and a single lease is kept whole or dropped |
| Housekeeping.PruneExpired | server/src/main.rs:96-103 | each client keeps only its unexpired leases, and `lease_found` holds iff some lease was removed |
| Housekeeping.PossiblyRegenerateConfig | server/src/main.rs:90-113 | a save of the pruned clients is attempted iff some lease expired, and regeneration follows only a successful save (a failed save returns early) |
| Housekeeping.PruneClientConf | server/src/main.rs:98 | pruning a client at now leaves its conf at the same now unchanged |
| Housekeeping.PruneKeepsGeneration | server/src/main.rs:96-110 | the whole generated output at now is the same before and after pruning at now |
| Housekeeping.EndingNowSurvivesButLapsed | server/src/main.rs:98 | a lease ending exactly at now survives pruning, yet exempts nothing at now |
| Housekeeping.ProxyUp | server/src/main.rs:267 | the proxy should be up iff the local time is in [07:00, 21:30) |
| Housekeeping.ProxySchedule | server/src/main.rs:273-282 | `set_running` is called iff the current state differs from the desired one, and then with the desired state |
| Housekeeping.RepairLeases | server/src/main.rs:324-339 | the lease array is repaired iff every lease needing repair has a readable naive date, and then lease by lease |
| Housekeeping.RepairFillsOnlyMissing | server/src/main.rs:326-338 | only a lease with `end_date` and no `end_date_utc` key gains one, computed from its own naive date; every other lease is unchanged |
| Housekeeping.RepairFailsIff | server/src/main.rs:333 | the repair fails iff a lease needing repair has an unreadable naive date |
| Housekeeping.RepairRewritesIffChanged | server/src/main.rs:348-351 | the file is rewritten iff the repair changed something |
| IdList.MaxId | src/list.rs:24 | the fold's result bounds every id and is 0 or some item's id |
| IdList.Add | src/list.rs:21-29 | the list grows by exactly the given item with its id set to max + 1 (1 for an empty list), greater than every other id, and that item is returned |
| IdList.AddKeepsIdsUnique | src/config.rs:23-31 | if ids were present and unique before `add`, they still are |
| IdList.Update | src/list.rs:31-40 | an absent id gives None and no change; otherwise only the first match is replaced, with its id forced |
| IdList.UpdateThenFind | src/config.rs:33-42 | after a successful update, the first item with that id is the updated one |
| IdList.Delete | src/list.rs:42-48 | the first match is removed and returned, with the rest kept in order; an absent id gives None and no change |
| IdList.DeleteRemovesId | src/config.rs:44-50 | with unique ids, no item carries the id after a delete |
| IdList.DeleteUndoesAdd | src/list.rs:21-48 | deleting the id `add` just assigned gives back the original list and the added item |
| IdList.SetClientId | src/config.rs:55-63 | `set_id` on a client sets `id = Some(id)` and nothing else |
| IdList.SetDomainListId | src/config.rs:65-73 | `set_id` on a domain list sets `id = Some(id)` and nothing else |
| IdList.IdentitiesLawful | src/list.rs:52-70 | reading an id back after setting it gives that id, for clients and domain lists |
| RestList.DecodeAll | src/restlist.rs:24 | an array reads iff every element decodes, and then gives each element's value in order |
| RestList.Save | src/restlist.rs:35-44 | the file holds one JSON array with each item's encoding in list order |
| RestList.Load | src/restlist.rs:19-33 | a missing file loads as the empty list; an existing one loads iff it is an array whose every element decodes, and then gives those values in order |
| RestList.LoadAfterSave | src/restlist.rs:19-44 | loading what `save` wrote gives the same list back when each element survives its codec |
| RestList.ClientsLoadAfterSave | src/restlist.rs:19-44 | a saved clients file reloads as the same clients |
| RestList.DomainListsLoadAfterSave | src/restlist.rs:19-44 | a saved domain-lists file reloads as the same lists |
| RestList.Get | src/restlist.rs:50-59 | the reply is the first item with the id, or NotFound iff none has it |
| RestList.Put | src/restlist.rs:61-70 | a save happens iff the id exists; the stored item then carries the path id; otherwise NotFound with no change |
| RestList.Remove | src/restlist.rs:72-80 | a save happens iff the id exists; the list then loses exactly its first item with that id, which is the reply unless the save failed; otherwise NotFound with no change |
| RestList.GetAfterRemove | src/restlist.rs:50-80 | with unique ids, a get after a remove of that id answers NotFound |
| RestList.RemoveLast | src/restlist.rs:72-86 | removing an id that only the last item carries (as after a post, whose new id exceeds every other) saves and leaves exactly the earlier items, replying with the last one unless the save failed |
| RestList.Post | src/restlist.rs:82-86 | always saves, appending exactly the given item with its id set to max + 1, and replies with it unless the save failed |
| RestList.NotFoundLeavesListAlone | src/restlist.rs:50-80 | for an absent id, get, put and delete all answer NotFound and neither save nor change the list |
| RestList.GetAfterPut | src/restlist.rs:50-70 | a get after a successful put returns what the put returned |
| Api.PostClient | server/src/api.rs:59-70 | a taken ip fails with the BadRequest message and no change or regeneration; otherwise the given client is appended with its id set to max + 1 and regeneration is requested; the id bound is demanded only when the ip is free |
| Api.PutClient | server/src/api.rs:44-50 | regeneration is requested whether or not the id was found; a save happens iff the id exists and the list becomes the update's list; otherwise NotFound with no change |
| Api.DeleteClient | server/src/api.rs:52-57 | regeneration is requested whether or not the id was found; a save happens iff the id exists, the first client with it is removed and returned; otherwise NotFound with no change |
| Api.PostDomainList | server/src/api.rs:108-113 | the given domain list is always appended with its id set to max + 1, with no uniqueness check, and regeneration is not requested |
| Api.PutDomainList | server/src/api.rs:100-102 | no regeneration is requested; a save happens iff the id exists and the list becomes the update's list; otherwise NotFound with no change |
| Api.DeleteDomainList | server/src/api.rs:104-106 | no regeneration is requested; a save happens iff the id exists, the first list with it is removed and returned; otherwise NotFound with no change |
| Api.PostKeepsIpsUnique | server/src/api.rs:62-66 | if client ips were unique before a post, they are after it |
| SquidLog.ParseU64 | server/src/squid.rs:42 | `parse::<u64>` succeeds iff the text is one or more decimal digits, optionally after one '+', with value at most u64::MAX, and then yields that value; empty text and a '-' sign fail |
| SquidLog.ParseU64LeadingZeros | server/src/squid.rs:42 | leading zeros are accepted and do not change the value |
| SquidLog.ParseU64RejectsNonDigit | server/src/squid.rs:42 | any non-digit other than a leading '+' makes the text unreadable |
| SquidLog.ParseU64RoundTrip | server/src/squid.rs:42-46 | every u64 in decimal, with or without a '+', parses back to itself |
| SquidLog.ParseOkIff | server/src/squid.rs:37-66 | a line parses iff it has at least 11 tokens, the first is a date and the 2nd and 6th are u64s |
| SquidLog.ParseFields | server/src/squid.rs:51-65 | a parsed entry's fields are the first 11 tokens in order, with the date and the two numbers read from tokens 1, 2 and 6 |
| SquidLog.ParseElevenTokens | server/src/squid.rs:37-66 | a line of a date and ten more tokens, whose numbers read, parses to exactly those tokens |
| SquidLog.ShortLineNamesMissingField | server/src/squid.rs:40-51 | a short line whose tokens read correctly fails with "Missing <label>" for the first absent field, with the label `client_up` for the ip |
| SquidLog.ExtraTokensIgnored | server/src/squid.rs:51-65 | tokens beyond the 11th do not change the result |
| SquidLog.SampleTokens | server/src/squid.rs:76 | the test line, with three spaces after the date, splits into its 11 fields |
| SquidLog.SampleLineParses | server/src/squid.rs:74-96 | the test line parses to the expected entry, including the "-" username and mime type |
| JsResult.Ok | client/src/result.ts:10-12 | `Ok` sets the result and leaves the error undefined |
| JsResult.Err | client/src/result.ts:14-16 | `Err` sets the error and leaves the result undefined |
| JsResult.Unwrap | client/src/result.ts:33-38 | `unwrap` throws "Unhandled error: <e>" iff the error is set, and otherwise returns the result |
| JsResult.MatchDispatch | client/src/result.ts:48-54 | `match` calls the ok handler iff `isOk`, with the unwrapped value, and otherwise the err handler with the error |
| JsResult.IfOk | client/src/result.ts:40-46 | the callback is called, with the value, iff `isOk`, and `ifOk` returns exactly that |
| JsResult.AndThen | client/src/result.ts:18-23 | as written: `op` is called iff `isOk` |
| JsResult.AndThenFixed | client/src/result.ts:18-23 | corrected: `op` is called iff `isOk`, and a result is always returned |
| JsResult.OkAndErrClassify | client/src/result.ts:10-31 | `Ok(v)` with v defined is ok and not an error; `Err(e)` is an error and not ok |
| JsResult.OkUndefinedIsNeither | client/src/result.ts:25-31 | `Ok(undefined)` is neither ok nor an error, and `match` gives it to `err` |
| JsResult.ConstructorsNeverBoth | client/src/result.ts:5-16 | no constructor sets both halves |
| JsResult.UnwrapInvertsConstructors | client/src/result.ts:33-38 | `unwrap` returns what `Ok` got, and throws "Unhandled error: e" for `Err(e)` |
| JsResult.MatchCallsOneHandler | client/src/result.ts:48-54 | `match` runs exactly one handler, `ok(v)` for `Ok(v)` and `err(e)` for `Err(e)`, and returns its value |
| JsResult.IfOkOnConstructors | client/src/result.ts:40-46 | `ifOk` runs the callback and returns true for `Ok(v)`, and returns false without running it for `Err(e)` |
| JsResult.AndThenSkipsOpOnErr | client/src/result.test.ts:11-20 | `andThen` on an error never calls `op` |
| JsResult.AndThenLosesResult | client/src/result.ts:18-23 | as written, `andThen` returns undefined even for `Ok(v)`, after calling `op(v)` |
| JsResult.AndThenFixedChains | client/src/result.test.ts:3-21 | corrected, `andThen` returns `op(v)` for `Ok(v)` and the same error for `Err(e)` |
| JsResult.FishExample | client/src/result.test.ts:4-9 | `Ok("Fish").andThen(Ok)` unwraps to "Fish" with the corrected version, but gives undefined as written |
| LegacyModel.UpgradeRule | src/model.rs:16-21 | a free-text kind maps to the server's enum iff it is exactly one of the two known strings |
| LegacyGenerate.ExemptIdsMembers | src/generate.rs:37-40 | an id is allowed iff a lease of kind exactly "allow_http_access" ending strictly after now names it |
| LegacyGenerate.DenyCandidatesMembers | src/generate.rs:43 | an id is iterated iff a rule of kind exactly "deny_http_access" names it |
| LegacyGenerate.DenyLineIff | src/generate.rs:36-47 | the deny line for M is written iff a deny rule names M and no in-force allow lease names M |
| LegacyGenerate.OtherRuleKindIgnored | src/generate.rs:43 | a rule of any other kind text changes nothing |
| LegacyGenerate.InertLease | src/generate.rs:38 | a lease of any other kind text, or ending by now, changes nothing |
| LegacyGenerate.AclLineSplits | src/generate.rs:42 | the acl line splits into `acl`, the client name, `src`, and the ip followed by `/255.255.255.255` |
| LegacyGenerate.ClientFilesKept | src/generate.rs:31-48 | with unique client ids, each client with rules gets its conf, untouched by the domain files |
| LegacyGenerate.NoListsNoDomainFiles | src/generate.rs:50 | with no lists, neither `domains.conf` nor any `.txt` file is written |
| LegacyGenerate.TxtFilesNames | src/generate.rs:50-59 | the `.txt` step writes the files it was given plus one `domains_NNNN.txt` per list, and nothing else |
| LegacyGenerate.TxtFilesKeep | src/generate.rs:50-59 | a file whose name is no list's `.txt` name comes through the `.txt` step untouched |
| LegacyGenerate.TxtFilesAt | src/generate.rs:56-57 | with unique list ids, each list's `.txt` file holds its domains joined by newlines |
| LegacyGenerate.DomainFiles | src/generate.rs:50-59 | with lists, `domains.conf` line j points at `./domains_NNNN.txt`, which holds the list's domains joined by newlines |
| LegacyGenerate.AgreesWithServer | src/generate.rs:27-48 | upgrading kinds and dates, the legacy and server renderers block the same ids in the same order, and differ only in the acl line |
| Codec.DecodeKind | server/src/model.rs:28-34 | a rule kind reads iff it is the string "allow_http_access" or "deny_http_access", or a one-key object mapping one of those names to null, and reads as allow exactly for the allow forms |
| Codec.DecodeU32 | server/src/model.rs:17 | an id reads iff it is a number in u32 range |
| Codec.KindRoundTrip | server/src/model.rs:28-34 | each kind is written as its snake-case name and read back |
| Codec.RuleRoundTrip | server/src/model.rs:36-42 | a rule reads back as written |
| Codec.LeaseRoundTrip | server/src/model.rs:44-52 | a lease reads back as written |
| Codec.ClientFields | server/src/model.rs:16-26 | a client is written with `id`, `ip` and `name`; `rules`, `leases` and `mac_address` are written iff non-empty or present |
| Codec.ClientRoundTrip | server/src/model.rs:14-26 | a client reads back as written |
| Codec.DomainListFields | server/src/model.rs:56-61 | a domain list is written with `id` and `name`, and `domains` iff non-empty |
| Codec.DomainListRoundTrip | server/src/model.rs:54-61 | a domain list reads back as written |
| Codec.ClientDefaultsEmpty | server/src/model.rs:17-23 | a stored client with no `rules`, `leases` or `id` key reads with empty rules, empty leases, and no id |
| Codec.LeaseNeedsUtcKey | server/src/model.rs:47-48 | a stored lease with no `end_date_utc` key cannot be read, which is why the repair exists |

## Left out

- File and network I/O is not modelled. This covers creating directories and
  files, `fs::exists`, the actual JSON text, `sudo pkill -HUP squid`,
  systemd status, and reqwest.
- Async tasks, cron scheduling, channels and the HTTP routing are not
  modelled: none of them change the computed values.
- Clocks are not modelled. `now` is a parameter, and the proxy schedule
  takes the local hour and minute. Both generators read the clock afresh
  for each client inside their loop (server/src/generate.rs:40,
  src/generate.rs:36), so two clients in one run can see different times;
  `Generate.GenerateSquidConfig` and `LegacyGenerate.GenerateSquidConfig`
  take one `now` for the whole run. The legacy `Utc::now().naive_local()`
  is the UTC wall time, so the legacy naive end date is compared as UTC
  milliseconds.
- Date parsing is a parameter. This covers chrono's naive and
  `%Y-%m-%dT%H:%M:%S%.3f%z` formats, and its range limits on millisecond
  timestamps.
- Codec: the JSON text syntax is not modelled. When several fields are
  wrong, the model may report a different error from serde, which reports
  in input order. The legacy src/model.rs serde derives follow the same
  default and omission rules, but are not modelled separately.
- `get_all` is not modelled, because it returns the list unchanged.
- RestList.Load: JSON text syntax and I/O errors are not modelled. The model
  receives the parsed JSON value, or None when the file is missing.
- Codec.DecodeLease: `end_date` is kept as text and not checked as a chrono
  `NaiveDateTime`. A lease whose naive date does not parse fails the load in
  the source but is accepted by the model.
- A failing `load` in the API handlers returns before anything else. The
  handlers are modelled for a successful load only.
- The server-side list and restlist modules that server/src/api.rs calls
  are not part of this model. The API is modelled over `IdList` and
  `RestList`.
- src/config.rs `Config::load`/`save` and `write_file` are file I/O. Its
  `load_file` is the same missing-file rule as `RestList.Load`.
- The authentication, UniFi net-access, squid status and UI code is outside
  the modelled core. This includes the domain validator, pause/resume and
  the list-name generator on the client side.
- Async `op` callbacks in the `andThen` tests are modelled as synchronous
  functions.
- IdList.Add: requires max id < 0xFFFF_FFFF. The source's `max_id + 1`
  panics on overflow in a debug build and wraps to 0 in a release build,
  and the model does not follow either of those.
- Housekeeping.RepairLeases: the lease object is reduced to its two date
  keys. The other keys are carried unchanged by the source and are not
  represented.
- Housekeeping.RepairFailsIff: only the case where the top-level value is an
  array of clients is modelled. Any other value is left alone by the source
  and never written.
- SquidLog.ParseFields: the parsed `DateTime` is the integer the date
  parameter returns.
- JsResult.AndThen: only which callback ran and the returned value are
  modelled. The value produced by the discarded `match` is not modelled.

## Findings

| source | as written | input that shows it | evidently intended | confidence | as-written member | corrected member |
|---|---|---|---|---|---|---|
| client/src/result.ts:18-23 | `andThen` calls `this.match(...)` without `return`, so it always returns `undefined` | `Result.Ok("Fish").andThen(v => Result.Ok(v))`: the test then calls `.unwrap()` on undefined | `return this.match(...)`, giving `op(v)` for Ok and `Err(e)` for Err, as the unit tests in client/src/result.test.ts:4-20 expect | high, from reading; not executed | JsResult.AndThenLosesResult | JsResult.AndThenFixedChains |
