/**
  One update cycle (`updateIP`) as the ordered list of calls it makes: the IP
  lookup, one record listing per target, and one record update per stale record.
  The listing is an oracle from target to the records `GetDomainDNS` returned
  (empty when the listing failed). The update outcomes are only logged, so they
  never change which calls follow.
 */
module Reconciler {
  import opened SeqFacts
  import opened GoStrings
  import opened Cloudflare
  import opened Targets

  /** The three settings the cycle reads from the environment. */
  datatype Env = Env(domain: string, apiKey: string, emailKey: string)

  /** A call the cycle makes to the outside. */
  datatype Call =
    | ResolveIP
    | Fetch(target: Domain)
    | Update(record: DNSRecord, ip: string)

  predicate EnvComplete(env: Env)
  {
    env.apiKey != "" && env.domain != "" && env.emailKey != ""
  }

  /** The record is the target's address record: same record, same zone, type "A". */
  predicate Selected(d: Domain, r: DNSRecord)
  {
    d.dnsRecordId == r.id && r.zoneId == d.zoneId && r.recordType == "A"
  }

  /** The record is the target's address record and does not hold `ip` yet. */
  predicate Stale(d: Domain, r: DNSRecord, ip: string)
  {
    Selected(d, r) && r.content != ip
  }

  /** The updates the inner loop issues for one target's records. */
  function RecordCalls(d: Domain, records: seq<DNSRecord>, ip: string): (calls: seq<Call>)
    ensures |calls| <= |records|
    ensures forall k :: 0 <= k < |calls| ==>
      calls[k].Update? && calls[k].ip == ip && calls[k].record in records && Stale(d, calls[k].record, ip)
  {
    if records == [] then []
    else (if Stale(d, records[0], ip) then [Update(records[0], ip)] else []) + RecordCalls(d, records[1..], ip)
  }

  /** The calls the outer loop makes: each target's listing followed by its updates. */
  function TargetCalls(targets: seq<Domain>, fetch: Domain -> seq<DNSRecord>, ip: string): (calls: seq<Call>)
    ensures forall k :: 0 <= k < |calls| ==> !calls[k].ResolveIP?
    ensures forall k :: 0 <= k < |calls| && calls[k].Update? ==>
      calls[k].ip == ip && calls[k].record.content != ip && calls[k].record.recordType == "A"
  {
    if targets == [] then []
    else [Fetch(targets[0])] + RecordCalls(targets[0], fetch(targets[0]), ip) + TargetCalls(targets[1..], fetch, ip)
  }

  /**
    One cycle. It stops before the IP lookup when a setting is empty, and before any
    listing when the IP is empty or the target list is rejected. Every update
    carries the resolved IP and goes to an address record that held something else.
   */
  function Cycle(env: Env, ip: string, fetch: Domain -> seq<DNSRecord>): (calls: seq<Call>)
    ensures !EnvComplete(env) ==> calls == []
    ensures EnvComplete(env) ==> |calls| > 0 && calls[0] == ResolveIP
    ensures forall k :: 1 <= k < |calls| ==> !calls[k].ResolveIP?
    ensures ip == "" || DomainList(env.domain) == [] ==> |calls| <= 1
    ensures forall k :: 0 <= k < |calls| && calls[k].Update? ==>
      calls[k].ip == ip && calls[k].record.content != ip && calls[k].record.recordType == "A"
  {
    if !EnvComplete(env) then []
    else if ip == "" then [ResolveIP]
    else
      var domainList := DomainList(env.domain);
      if |domainList| == 0 then [ResolveIP]
      else [ResolveIP] + TargetCalls(domainList, fetch, ip)
  }

  // ---------------------------------------------------------------------------
  // Splitting the loops

  lemma {:induction false} RecordCallsAppend(d: Domain, a: seq<DNSRecord>, b: seq<DNSRecord>, ip: string)
    ensures RecordCalls(d, a + b, ip) == RecordCalls(d, a, ip) + RecordCalls(d, b, ip)
  {
    if a != [] {
      assert (a + b)[1..] == a[1..] + b;
      RecordCallsAppend(d, a[1..], b, ip);
      var head := if Stale(d, a[0], ip) then [Update(a[0], ip)] else [];
      assert RecordCalls(d, a + b, ip) == head + RecordCalls(d, a[1..] + b, ip);
      assert RecordCalls(d, a, ip) == head + RecordCalls(d, a[1..], ip);
      ConcatAssoc(head, RecordCalls(d, a[1..], ip), RecordCalls(d, b, ip));
    } else {
      assert a + b == b;
    }
  }

  lemma {:induction false} TargetCallsAppend(a: seq<Domain>, b: seq<Domain>, fetch: Domain -> seq<DNSRecord>, ip: string)
    ensures TargetCalls(a + b, fetch, ip) == TargetCalls(a, fetch, ip) + TargetCalls(b, fetch, ip)
  {
    if a != [] {
      assert (a + b)[1..] == a[1..] + b;
      TargetCallsAppend(a[1..], b, fetch, ip);
      var head := [Fetch(a[0])] + RecordCalls(a[0], fetch(a[0]), ip);
      assert TargetCalls(a + b, fetch, ip) == head + TargetCalls(a[1..] + b, fetch, ip);
      assert TargetCalls(a, fetch, ip) == head + TargetCalls(a[1..], fetch, ip);
      ConcatAssoc(head, TargetCalls(a[1..], fetch, ip), TargetCalls(b, fetch, ip));
    } else {
      assert a + b == b;
    }
  }

  // ---------------------------------------------------------------------------
  // The loops of `updateIP`

  /** The inner loop of `updateIP`: walk one target's records and update the stale ones. */
  method UpdateRecords(d: Domain, records: seq<DNSRecord>, ip: string) returns (calls: seq<Call>)
    ensures calls == RecordCalls(d, records, ip)
  {
    calls := [];
    var j := 0;
    while j < |records|
      invariant 0 <= j <= |records|
      invariant calls == RecordCalls(d, records[..j], ip)
    {
      var record := records[j];
      if d.dnsRecordId == record.id && record.zoneId == d.zoneId && record.recordType == "A" {
        if record.content != ip {
          calls := calls + [Update(record, ip)];
        }
      }
      RecordCallsAppend(d, records[..j], [record], ip);
      assert records[..j + 1] == records[..j] + [record];
      j := j + 1;
    }
    assert records[..j] == records;
  }

  /** The outer loop of `updateIP`: list each target's records, then update the stale ones. */
  method UpdateTargets(domainList: seq<Domain>, fetch: Domain -> seq<DNSRecord>, ip: string) returns (calls: seq<Call>)
    ensures calls == TargetCalls(domainList, fetch, ip)
  {
    calls := [];
    var i := 0;
    while i < |domainList|
      invariant 0 <= i <= |domainList|
      invariant calls == TargetCalls(domainList[..i], fetch, ip)
    {
      var d := domainList[i];
      var updates := UpdateRecords(d, fetch(d), ip);
      calls := calls + [Fetch(d)] + updates;
      TargetCallsOne(d, fetch, ip);
      TargetCallsAppend(domainList[..i], [d], fetch, ip);
      assert domainList[..i + 1] == domainList[..i] + [d];
      i := i + 1;
    }
    assert domainList[..i] == domainList;
  }

  /** `updateIP` as the Go code runs it, with the target list parsed by its own loop. */
  method UpdateIP(env: Env, ip: string, fetch: Domain -> seq<DNSRecord>) returns (calls: seq<Call>)
    ensures calls == Cycle(env, ip, fetch)
  {
    calls := [];
    if env.apiKey == "" || env.domain == "" || env.emailKey == "" {
      return;
    }
    calls := [ResolveIP];
    if ip == "" {
      return;
    }
    var domainList := GetDomainList(env.domain);
    if |domainList| == 0 {
      return;
    }
    var targetCalls := UpdateTargets(domainList, fetch, ip);
    calls := calls + targetCalls;
  }

  lemma RecordCallsOne(d: Domain, r: DNSRecord, ip: string)
    ensures RecordCalls(d, [r], ip) == if Stale(d, r, ip) then [Update(r, ip)] else []
  {
    assert [r][1..] == [];
  }

  lemma TargetCallsOne(d: Domain, fetch: Domain -> seq<DNSRecord>, ip: string)
    ensures TargetCalls([d], fetch, ip) == [Fetch(d)] + RecordCalls(d, fetch(d), ip)
  {
    assert [d][1..] == [];
  }
}
