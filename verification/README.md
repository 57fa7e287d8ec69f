# Dynamic DNS updater: a Dafny model of its reconciliation core

The updater keeps one or more Cloudflare DNS "A" records pointed at the caller's
public IP address. Each cycle reads three settings (`DOMAIN`, `API_KEY`,
`EMAIL_KEY`) and asks an IP-echo service for the current address. It parses
`DOMAIN` into targets `name;zoneId;recordId` separated by `|`. For each target it
lists the zone's records and updates every record that is the target's address
record but holds a different address.

This project models that core in Dafny:

- `go_strings.dfy` (module `GoStrings`): the Go `strings` functions the code calls:
  `Split`, `TrimSpace` (with Go's `unicode.IsSpace` set) and
  `Replace(s, "\n", "", 1)`. `strings.Contains` is Dafny's `in`. `Count` and `Join`
  are not called by the code; they state how many pieces `Split` returns and read a
  split back.
- `cloudflare.dfy` (module `Cloudflare`): the client's records (`Domain`,
  `DNSRecord`, `DNSRecordsResponse`, `DNSRecordUpdate`) and the pure parts of its
  calls. These are the request paths, the update payload, the status-to-result
  mapping of `GetDomainDNS` and `UpdateDNSRecord`, and the normalisation of the
  echo reply in `GetIP`. Each network exchange is an outcome value passed in
  (transport failure, status, body as read and decoded).
- `targets.dfy` (module `Targets`): `getDomainList`, both as a function and as a
  method that runs the Go loop. `target_examples.dfy` holds worked settings.
- `reconciler.dfy` (module `Reconciler`): `updateIP` as the ordered list of calls
  it makes (`ResolveIP`, `Fetch(target)`, `Update(record, ip)`). It takes the
  settings, the resolved IP, and a listing oracle from target to records (empty
  when the listing failed). It comes as a function `Cycle` and as methods that
  run the Go loops.
- `cycle_laws.dfy` (module `CycleLaws`): what a cycle promises. It states
  selectivity, completeness, order and fetch isolation against an independent
  (target, record)-pair definition. It also proves the idempotent steady state:
  once the provider has applied a cycle's writes, the next cycle writes nothing.
- `resolved_cycle.dfy` (module `ResolvedCycle`): the cycle fed from the echo
  reply, with the status check `GetIP` lacks (see Findings).
- `wrappers.dfy` (module `Wrappers`): the `Option` type.
- `seq_facts.dfy` (module `SeqFacts`): a sequence fact the proofs cite by name.
- `cycle_examples.dfy` (module `CycleExamples`): one target with an outdated
  record, updated once and then left alone.

The provider's side of a write is an explicit assumption, `Cloudflare.ApplyPayload`:
a successful PATCH stores every field the payload carries into the record with the
same zone and identifier. The "second cycle writes nothing" law rests on it.

Where the code and its description differ, the model follows the code:

- The client treats only status 200 as success, not any 2xx status.
- A target entry may have empty fields. Only the number of fields is checked.
- If JSON decoding hits a type mismatch, `json.Unmarshal` keeps the fields it did
  decode. `GetDomainDNS` returns that partial response, so it is not always empty
  after a decode error. Only a syntax error gives the empty response.
- The code updates every matching record in a listing, not exactly one.
- The update payload does not copy the proxied flag, comment or tags. It sends
  `proxied = false`, an empty comment and no tags.
- `GetIP` does not check the reply's status (see Findings).

## Model

| member | source | states |
|---|---|---|
| GoStrings.Split | main.go:87-89 | the number of pieces is one more than the number of separators, and no piece contains the separator |
| GoStrings.JoinSplit | main.go:87-89 | joining the pieces of a split with the separator gives back the input |
| GoStrings.SplitJoin | main.go:87-89 | splitting a join of a non-empty list of separator-free pieces gives back exactly those pieces (the empty list joins to "", which splits into [""]) |
| GoStrings.TrimSpace | cloudflare/cloudflare.go:90 | the result has no white space at either end, and it is empty exactly when the input is all white space |
| GoStrings.TrimSpacePadding | cloudflare/cloudflare.go:90 | trimming any white-space padding around an already trimmed text gives back that text |
| GoStrings.RemoveFirst | cloudflare/cloudflare.go:91 | the text is unchanged when it has no newline; otherwise it loses one character and exactly one newline, and a first or last character that is not a newline stays in place |
| GoStrings.RemoveFirstDeletesFirst | cloudflare/cloudflare.go:91 | with a newline present, the result is the text with its first newline cut out and everything before and after it kept in order |
| Cloudflare.RecordPathExtendsRecordsPath | cloudflare/cloudflare.go:100 | the update path is the zone's listing path followed by "/" and the record identifier |
| Cloudflare.RecordPathInjective | cloudflare/cloudflare.go:100 | when zone identifiers contain no '/', two different (zone, record) pairs never get the same update path |
| Cloudflare.RecordsPathInjective | cloudflare/cloudflare.go:36 | when zone identifiers contain no '/', two different zones never get the same listing path |
| Cloudflare.UpdateReplacesOnlyContent | cloudflare/cloudflare.go:103-109 | the payload carries the new IP as content and copies name, type, TTL and id unchanged; proxied, comment and tags are zero values, so writing it back differs from the record only in those fields and the content |
| Cloudflare.GetDomainDNS | cloudflare/cloudflare.go:47-68 | a transport error, a non-200 status, an unreadable body or a syntax error gives the empty response; a decoded 200 body is returned as decoded; a 200 body that decodes with a type mismatch returns the partial decode; anything non-empty comes from a 200 reply |
| Cloudflare.UpdateDNSRecord | cloudflare/cloudflare.go:110-135 | the write is reported applied exactly when the provider answered 200; marshal, request and transport errors report false |
| Cloudflare.NormaliseIP | cloudflare/cloudflare.go:90-91 | the address has no white space at either end and is empty exactly when the reply body is all white space |
| Cloudflare.NormaliseIPPadded | cloudflare/cloudflare.go:90-91 | a one-line text with no white space at either end, surrounded by white space, such as an address followed by a newline, comes back unchanged |
| Cloudflare.GetIP | cloudflare/cloudflare.go:71-93 | a failed request gives ""; otherwise the result is empty exactly when the body is all white space, and it has no white space at either end |
| Cloudflare.GetIPIgnoresStatus | cloudflare/cloudflare.go:77-92 | any reply `text + "\n"`, whatever its status, yields `text` as the address, for a `text` with no white space at either end and no newline |
| Cloudflare.GetIPChecked | cloudflare/cloudflare.go:71-93 | only a 200 reply yields a non-empty address, the same one `GetIP` gives for it |
| Targets.ParseEntry | main.go:89-98 | an entry is accepted exactly when it holds two ';'; its three fields then contain no ';' and rejoin to the entry |
| Targets.ParseEntries | main.go:87-99 | the entries parse exactly when every one is well formed; the targets then correspond one to one, in order |
| Targets.DomainList | main.go:84-113 | the list is non-empty exactly when every '|'-entry has three fields; it then holds one target per entry, in input order, and its length is the number of '|' plus one |
| Targets.GetDomainList | main.go:84-113 | the Go loop, which stops at the first malformed entry and returns nil, computes the same list |
| Targets.DomainListIsParseOfEntries | main.go:86-111 | the branch for a setting without '|' gives the same result as parsing its only entry |
| Targets.SingleEntry | main.go:100-110 | without '|', the setting is accepted exactly when it splits into three ';'-fields, giving one target from fields 0, 1 and 2 |
| Targets.MalformedEntryRejectsAll | main.go:88-93 | one entry without exactly three fields rejects the whole setting, not just itself |
| Targets.AcceptedInOrder | main.go:87-98 | an accepted setting has one target per entry, the i-th built from the i-th entry's fields |
| Targets.RejectionIsEmpty | main.go:84-113 | the result is empty exactly when some entry is malformed |
| Targets.RenderRoundTrip | main.go:84-113 | a non-empty target list whose fields hold no separator is read back unchanged from the setting that lists it |
| TargetExamples.ShortSecondEntryRejected | main.go:88-93 | a second entry with the wrong number of fields, as in "a;1;2\|b;3", rejects the first one too |
| TargetExamples.EmptySettingRejected | main.go:100-105 | the empty setting gives no targets |
| TargetExamples.TrailingBarRejected | main.go:86-93 | "a;b;c\|" gives no targets, because the trailing empty entry is malformed |
| TargetExamples.OneAccepted | main.go:100-110 | "home;zoneA;rec1" gives the single target (home, zoneA, rec1) |
| TargetExamples.TwoAccepted | main.go:86-99 | "home;zoneA;rec1\|work;zoneB;rec2" gives the two targets in that order |
| TargetExamples.EmptyFieldsAccepted | main.go:100-110 | "a;;" gives the target (a, "", "") |
| Reconciler.RecordCalls | main.go:66-77 | the inner loop issues only updates of `ip`, each for a listed record that is the target's address record and holds something else |
| Reconciler.TargetCalls | main.go:64-80 | the outer loop issues no IP lookup, and every update carries `ip` to an "A" record holding something else |
| Reconciler.Cycle | main.go:36-82 | no call at all when a setting is empty; otherwise the IP lookup first; nothing more when the IP is empty or the target list is rejected; every update carries the resolved IP to an "A" record holding something else |
| Reconciler.UpdateRecords | main.go:66-77 | the Go inner loop computes the inner-loop calls |
| Reconciler.UpdateTargets | main.go:64-80 | the Go outer loop computes the outer-loop calls |
| Reconciler.UpdateIP | main.go:36-82 | the Go function, with its early returns and both loops, computes the cycle's calls |
| CycleLaws.CycleWrites | main.go:64-80 | for a cycle with complete settings and a non-empty IP, the updates are exactly one write of the IP per (target, record) pair whose record is the target's stale address record, ordered by target and then by listing order; each target's listing is the one the cycle fetched for it, taken as fixed for the whole cycle (see Left out) |
| CycleLaws.CycleFetchesEveryTarget | main.go:64-66 | for a cycle with complete settings and a non-empty IP, every target is listed once, in order, whatever earlier listings returned |
| CycleLaws.EmptyListingContributesNothing | main.go:64-66 | a target whose listing failed contributes its listing call only, and the targets after it still run |
| CycleLaws.UpdateOnlySelected | main.go:67-73 | every updated record comes from the listing of a configured target whose record id, zone and type "A" it matches, and it held something other than the IP |
| CycleLaws.StaleRecordUpdated | main.go:67-73 | for a cycle with complete settings and a non-empty IP, every listed record that is its target's address record and holds something other than the IP is updated to the IP |
| CycleLaws.SettledCycleWritesNothing | main.go:68-71 | when every address record already holds the IP, the cycle writes nothing |
| CycleLaws.StoppedCycleWritesNothing | main.go:47-62 | a cycle that stops at a missing setting, an empty IP or a rejected target list lists nothing and writes nothing |
| CycleLaws.ApplyWritesEffect | cloudflare/cloudflare.go:100-109 | when every write carries the IP to an "A" record, writes addressed by zone and record id keep the record's zone and id; a written record ends up holding the IP as an "A" record, and an unwritten one is unchanged |
| CycleLaws.CycleSettles | main.go:67-73 | for a cycle with complete settings and a non-empty IP, once the provider applies the cycle's writes, every address record of every target holds the IP |
| CycleLaws.SecondCycleWritesNothing | main.go:36-82 | a second cycle with the same settings and IP, run after the first cycle's writes are applied, writes nothing |
| ResolvedCycle.RunCycle | main.go:53-57 | with the status-checking resolver, a failed or non-200 echo reply stops the cycle after the lookup; every write carries the normalised body of a 200 reply |
| ResolvedCycle.FailedEchoWritesNothing | main.go:53-57 | with the status-checking resolver, a failed or non-200 echo reply leads to no listing and no write |
| ResolvedCycle.ErrorPageWrittenAsAddress | main.go:53-73 | with `GetIP` as written and complete settings, an error reply `text + "\n"` of any status makes the cycle write `text` into every stale address record, for a non-empty `text` with no white space at either end and no newline |
| CycleExamples.HomeTargets | main.go:47-62 | the settings "home;zoneA;rec1", "key", "admin@example.com" are complete and name one target |
| CycleExamples.OutdatedRecordUpdatedOnce | main.go:64-80 | a record holding 203.0.113.1 gets exactly one update to 203.0.113.9, after the lookup and the listing; that update is a PATCH of record rec1 in zone zoneA whose payload carries 203.0.113.9 |
| CycleExamples.NextCycleQuiet | main.go:68-71 | the next cycle sees 203.0.113.9 in the record and writes nothing |

## Left out

- HTTP transport, request headers, the client timeout and `io.ReadAll` (cloudflare/cloudflare.go:20-29, 39-52, 115-128). These are network I/O. They appear only as outcome values: transport error, status code, body read or not.
- JSON encoding and decoding and the struct tags. The decoder is an oracle: decoded, syntax error, or type mismatch with a partial result. The payload is modelled as the record it would encode.
- The `Meta` and `ResultInfo` fields. The logic never reads them.
- Listings that change during a cycle. The listing oracle gives each target one fixed listing for the whole cycle, so a listing does not see the cycle's own earlier writes. In the program, each `GetDomainDNS` call (main.go:65) comes after the PATCHes for earlier targets (main.go:73). So a target named twice in `DOMAIN` is written once by the program when the provider has applied the first write, because its second listing then already holds the IP (main.go:68-71). The model writes it twice. `CycleLaws.CycleWrites` and the cycle laws built on it hold for this fixed-listing reading.
- The URL scheme, the host, and path escaping by `url.URL.String`. The paths are the `Path` values the code formats.
- A failed `http.NewRequest` in `GetDomainDNS` (cloudflare/cloudflare.go:39-42). The Go code logs the error and goes on with the nil request, and `req.Header.Set` at cloudflare/cloudflare.go:43 would then panic on it. The request is a GET of the URL that `url.URL.String` builds, so it is not expected to fail. The model always treats the listing request as built.
- Cron scheduling, the default interval, signal handling and overlapping cycles (main.go:18-34). These are process lifecycle and timing.
- `godotenv.Load` and `os.Getenv` (main.go:38-45). The three settings are the `Env` input.
- All logging. The boolean `UpdateDNSRecord` returns is only logged, so it does not appear in the cycle's calls.
- The conversion of the body's bytes to a string. Bodies are strings of Unicode scalar values, and invalid UTF-8 is not modelled.
- GoStrings.Split: only one-character separators are modelled, which is the only kind the code uses.
- A nil `Tags` slice and an empty one are not distinguished. `Comment *string` is an `Option<string>`. TTL is an unbounded integer because the code only copies it.

## Findings

| source | as written | input that shows it | evidently intended | confidence | as-written member | corrected member |
|---|---|---|---|---|---|---|
| cloudflare/cloudflare.go:71-93 | `GetIP` returns the trimmed reply body whatever the response status | an echo reply with status 503 and body "Service Unavailable\n" gives the address "Service Unavailable", which the cycle then writes into every stale record | a non-200 reply is a resolution failure and gives "", as the client's other calls treat non-200 replies | medium, not executed | Cloudflare.GetIPIgnoresStatus | Cloudflare.GetIPChecked |

`ResolvedCycle.ErrorPageWrittenAsAddress` shows what the as-written resolver does to a whole cycle. `ResolvedCycle.RunCycle` uses the corrected resolver, and `ResolvedCycle.FailedEchoWritesNothing` proves it writes nothing on a failed reply.
