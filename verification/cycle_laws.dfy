/**
  What one update cycle promises: which records it writes, in what order, that it
  lists every target whatever the earlier listings returned, and that it writes
  nothing once every address record holds the current IP.
 */
module CycleLaws {
  import opened SeqFacts
  import opened Cloudflare
  import opened Targets
  import opened Reconciler

  /** The update calls of a call list, in order. */
  function UpdatesOf(calls: seq<Call>): (updates: seq<Call>)
    ensures |updates| <= |calls|
    ensures updates != [] ==> exists k :: 0 <= k < |calls| && calls[k].Update?
  {
    if calls == [] then []
    else (if calls[0].Update? then [calls[0]] else []) + UpdatesOf(calls[1..])
  }

  /** The targets listed by a call list, in order. */
  function FetchesOf(calls: seq<Call>): seq<Domain>
  {
    if calls == [] then []
    else (if calls[0].Fetch? then [calls[0].target] else []) + FetchesOf(calls[1..])
  }

  lemma {:induction false} UpdatesOfAppend(a: seq<Call>, b: seq<Call>)
    ensures UpdatesOf(a + b) == UpdatesOf(a) + UpdatesOf(b)
  {
    if a == [] {
      assert a + b == b;
    } else {
      assert (a + b)[1..] == a[1..] + b;
      UpdatesOfAppend(a[1..], b);
      var head := if a[0].Update? then [a[0]] else [];
      assert UpdatesOf(a + b) == head + UpdatesOf(a[1..] + b);
      ConcatAssoc(head, UpdatesOf(a[1..]), UpdatesOf(b));
    }
  }

  lemma {:induction false} FetchesOfAppend(a: seq<Call>, b: seq<Call>)
    ensures FetchesOf(a + b) == FetchesOf(a) + FetchesOf(b)
  {
    if a == [] {
      assert a + b == b;
    } else {
      assert (a + b)[1..] == a[1..] + b;
      FetchesOfAppend(a[1..], b);
      var head := if a[0].Fetch? then [a[0].target] else [];
      assert FetchesOf(a + b) == head + FetchesOf(a[1..] + b);
      ConcatAssoc(head, FetchesOf(a[1..]), FetchesOf(b));
    }
  }

  // ---------------------------------------------------------------------------
  // An independent statement of which writes a cycle makes

  /** Every (target, record) pair of the listings, target by target, records in listing order. */
  function Pairs(targets: seq<Domain>, fetch: Domain -> seq<DNSRecord>): seq<(Domain, DNSRecord)>
  {
    if targets == [] then [] else Pair(targets[0], fetch(targets[0])) + Pairs(targets[1..], fetch)
  }

  function Pair(d: Domain, records: seq<DNSRecord>): (ps: seq<(Domain, DNSRecord)>)
    ensures |ps| == |records|
    ensures forall j :: 0 <= j < |records| ==> ps[j] == (d, records[j])
  {
    if records == [] then [] else [(d, records[0])] + Pair(d, records[1..])
  }

  /** One write of `ip` for each pair whose record is stale for its target, in pair order. */
  function Writes(pairs: seq<(Domain, DNSRecord)>, ip: string): seq<Call>
  {
    if pairs == [] then []
    else (if Stale(pairs[0].0, pairs[0].1, ip) then [Update(pairs[0].1, ip)] else []) + Writes(pairs[1..], ip)
  }

  lemma {:induction false} WritesAppend(a: seq<(Domain, DNSRecord)>, b: seq<(Domain, DNSRecord)>, ip: string)
    ensures Writes(a + b, ip) == Writes(a, ip) + Writes(b, ip)
  {
    if a == [] {
      assert a + b == b;
    } else {
      assert (a + b)[1..] == a[1..] + b;
      WritesAppend(a[1..], b, ip);
      var head := if Stale(a[0].0, a[0].1, ip) then [Update(a[0].1, ip)] else [];
      assert Writes(a + b, ip) == head + Writes(a[1..] + b, ip);
      ConcatAssoc(head, Writes(a[1..], ip), Writes(b, ip));
    }
  }

  lemma {:induction false} RecordCallsAreWrites(d: Domain, records: seq<DNSRecord>, ip: string)
    ensures UpdatesOf(RecordCalls(d, records, ip)) == Writes(Pair(d, records), ip)
  {
    if records != [] {
      var head := if Stale(d, records[0], ip) then [Update(records[0], ip)] else [];
      RecordCallsAreWrites(d, records[1..], ip);
      UpdatesOfAppend(head, RecordCalls(d, records[1..], ip));
      assert Pair(d, records)[1..] == Pair(d, records[1..]);
    }
  }

  lemma {:induction false} RecordCallsFetchNothing(d: Domain, records: seq<DNSRecord>, ip: string)
    ensures FetchesOf(RecordCalls(d, records, ip)) == []
  {
    if records != [] {
      var head := if Stale(d, records[0], ip) then [Update(records[0], ip)] else [];
      RecordCallsFetchNothing(d, records[1..], ip);
      FetchesOfAppend(head, RecordCalls(d, records[1..], ip));
    }
  }

  lemma {:induction false} TargetCallsWrites(targets: seq<Domain>, fetch: Domain -> seq<DNSRecord>, ip: string)
    ensures UpdatesOf(TargetCalls(targets, fetch, ip)) == Writes(Pairs(targets, fetch), ip)
  {
    if targets != [] {
      var d := targets[0];
      var inner := RecordCalls(d, fetch(d), ip);
      TargetCallsWrites(targets[1..], fetch, ip);
      RecordCallsAreWrites(d, fetch(d), ip);
      UpdatesOfAppend([Fetch(d)] + inner, TargetCalls(targets[1..], fetch, ip));
      UpdatesOfAppend([Fetch(d)], inner);
      WritesAppend(Pair(d, fetch(d)), Pairs(targets[1..], fetch), ip);
    }
  }

  lemma {:induction false} TargetCallsFetches(targets: seq<Domain>, fetch: Domain -> seq<DNSRecord>, ip: string)
    ensures FetchesOf(TargetCalls(targets, fetch, ip)) == targets
  {
    if targets != [] {
      var d := targets[0];
      var inner := RecordCalls(d, fetch(d), ip);
      TargetCallsFetches(targets[1..], fetch, ip);
      RecordCallsFetchNothing(d, fetch(d), ip);
      FetchesOfAppend([Fetch(d)] + inner, TargetCalls(targets[1..], fetch, ip));
      FetchesOfAppend([Fetch(d)], inner);
      assert targets == [d] + targets[1..];
    }
  }

  /**
    The updates of a cycle are exactly one write of the resolved IP for every
    (target, record) pair whose record is the target's stale address record,
    ordered by target and then by the record's place in that target's listing.
   */
  lemma CycleWrites(env: Env, ip: string, fetch: Domain -> seq<DNSRecord>)
    requires EnvComplete(env) && ip != ""
    ensures UpdatesOf(Cycle(env, ip, fetch)) == Writes(Pairs(DomainList(env.domain), fetch), ip)
  {
    var ds := DomainList(env.domain);
    if ds != [] {
      TargetCallsWrites(ds, fetch, ip);
      UpdatesOfAppend([ResolveIP], TargetCalls(ds, fetch, ip));
    }
  }

  /**
    A cycle that gets past its checks lists every target once, in order, whatever
    the earlier listings returned: a failed listing skips only its own target.
   */
  lemma CycleFetchesEveryTarget(env: Env, ip: string, fetch: Domain -> seq<DNSRecord>)
    requires EnvComplete(env) && ip != ""
    ensures FetchesOf(Cycle(env, ip, fetch)) == DomainList(env.domain)
  {
    var ds := DomainList(env.domain);
    if ds != [] {
      TargetCallsFetches(ds, fetch, ip);
      FetchesOfAppend([ResolveIP], TargetCalls(ds, fetch, ip));
    }
  }

  /** A target whose listing came back empty contributes its listing call and nothing else. */
  lemma EmptyListingContributesNothing(targets: seq<Domain>, fetch: Domain -> seq<DNSRecord>, ip: string, i: int)
    requires 0 <= i < |targets| && fetch(targets[i]) == []
    ensures TargetCalls(targets, fetch, ip)
      == TargetCalls(targets[..i], fetch, ip) + [Fetch(targets[i])] + TargetCalls(targets[i + 1..], fetch, ip)
  {
    assert targets == targets[..i] + ([targets[i]] + targets[i + 1..]);
    TargetCallsAppend(targets[..i], [targets[i]] + targets[i + 1..], fetch, ip);
    assert ([targets[i]] + targets[i + 1..])[1..] == targets[i + 1..];
  }

  // ---------------------------------------------------------------------------
  // Selectivity and completeness

  lemma {:induction false} TargetCallsUpdateSource(targets: seq<Domain>, fetch: Domain -> seq<DNSRecord>, ip: string, k: int)
    requires 0 <= k < |TargetCalls(targets, fetch, ip)| && TargetCalls(targets, fetch, ip)[k].Update?
    ensures var u := TargetCalls(targets, fetch, ip)[k];
      exists i :: 0 <= i < |targets| && u.record in fetch(targets[i]) && Stale(targets[i], u.record, ip)
  {
    var calls := TargetCalls(targets, fetch, ip);
    var u := calls[k];
    var d := targets[0];
    var inner := RecordCalls(d, fetch(d), ip);
    if k == 0 {
      assert false;
    } else if k <= |inner| {
      assert u == inner[k - 1];
      assert u.record in fetch(targets[0]) && Stale(targets[0], u.record, ip);
    } else {
      assert u == TargetCalls(targets[1..], fetch, ip)[k - 1 - |inner|];
      TargetCallsUpdateSource(targets[1..], fetch, ip, k - 1 - |inner|);
      var i :| 0 <= i < |targets[1..]| && u.record in fetch(targets[1..][i]) && Stale(targets[1..][i], u.record, ip);
      assert targets[1..][i] == targets[i + 1];
    }
  }

  /**
    Selectivity: every record a cycle updates comes from the listing of a
    configured target whose record identifier, zone and type "A" it matches, and
    holds something other than the resolved IP.
   */
  lemma UpdateOnlySelected(env: Env, ip: string, fetch: Domain -> seq<DNSRecord>, k: int)
    requires 0 <= k < |Cycle(env, ip, fetch)| && Cycle(env, ip, fetch)[k].Update?
    ensures var u := Cycle(env, ip, fetch)[k];
      var ds := DomainList(env.domain);
      && u.ip == ip
      && exists i :: 0 <= i < |ds| && u.record in fetch(ds[i]) && Stale(ds[i], u.record, ip)
  {
    var ds := DomainList(env.domain);
    assert EnvComplete(env) && ip != "" && ds != [];
    TargetCallsUpdateSource(ds, fetch, ip, k - 1);
  }

  lemma {:induction false} RecordCallsComplete(d: Domain, records: seq<DNSRecord>, ip: string, j: int)
    requires 0 <= j < |records| && Stale(d, records[j], ip)
    ensures Update(records[j], ip) in RecordCalls(d, records, ip)
  {
    var head := if Stale(d, records[0], ip) then [Update(records[0], ip)] else [];
    if j > 0 {
      RecordCallsComplete(d, records[1..], ip, j - 1);
      assert RecordCalls(d, records, ip) == head + RecordCalls(d, records[1..], ip);
    }
  }

  lemma {:induction false} TargetCallsComplete(targets: seq<Domain>, fetch: Domain -> seq<DNSRecord>, ip: string, i: int, j: int)
    requires 0 <= i < |targets| && 0 <= j < |fetch(targets[i])| && Stale(targets[i], fetch(targets[i])[j], ip)
    ensures Update(fetch(targets[i])[j], ip) in TargetCalls(targets, fetch, ip)
  {
    var d := targets[0];
    var calls := TargetCalls(targets, fetch, ip);
    assert calls == [Fetch(d)] + RecordCalls(d, fetch(d), ip) + TargetCalls(targets[1..], fetch, ip);
    if i == 0 {
      RecordCallsComplete(d, fetch(d), ip, j);
    } else {
      assert targets[1..][i - 1] == targets[i];
      TargetCallsComplete(targets[1..], fetch, ip, i - 1, j);
    }
  }

  /** Completeness: every stale address record of every target is updated to the resolved IP. */
  lemma StaleRecordUpdated(env: Env, ip: string, fetch: Domain -> seq<DNSRecord>, i: int, j: int)
    requires EnvComplete(env) && ip != ""
    requires 0 <= i < |DomainList(env.domain)|
    requires 0 <= j < |fetch(DomainList(env.domain)[i])|
    requires Stale(DomainList(env.domain)[i], fetch(DomainList(env.domain)[i])[j], ip)
    ensures Update(fetch(DomainList(env.domain)[i])[j], ip) in Cycle(env, ip, fetch)
  {
    TargetCallsComplete(DomainList(env.domain), fetch, ip, i, j);
  }

  // ---------------------------------------------------------------------------
  // Steady state

  /** Every address record of every target already holds `ip`. */
  predicate Settled(targets: seq<Domain>, fetch: Domain -> seq<DNSRecord>, ip: string)
  {
    forall i, r :: 0 <= i < |targets| && r in fetch(targets[i]) && Selected(targets[i], r) ==> r.content == ip
  }

  /** Idempotence: once every address record holds the IP, a cycle writes nothing. */
  lemma SettledCycleWritesNothing(env: Env, ip: string, fetch: Domain -> seq<DNSRecord>)
    requires Settled(DomainList(env.domain), fetch, ip)
    ensures UpdatesOf(Cycle(env, ip, fetch)) == []
  {
    var calls := Cycle(env, ip, fetch);
    var updates := UpdatesOf(calls);
    if updates != [] {
      var k :| 0 <= k < |calls| && calls[k].Update?;
      UpdateOnlySelected(env, ip, fetch, k);
      assert false;
    }
  }

  /** A cycle that stops before listing any target writes nothing. */
  lemma StoppedCycleWritesNothing(env: Env, ip: string, fetch: Domain -> seq<DNSRecord>)
    requires !EnvComplete(env) || ip == "" || DomainList(env.domain) == []
    ensures UpdatesOf(Cycle(env, ip, fetch)) == []
    ensures FetchesOf(Cycle(env, ip, fetch)) == []
  {
    var calls := Cycle(env, ip, fetch);
    if calls != [] {
      assert calls == [ResolveIP];
    }
  }

  // ---------------------------------------------------------------------------
  // The second cycle

  /** The call writes to the record with `r`'s zone and identifier, the pair its request path names. */
  predicate Addresses(c: Call, r: DNSRecord)
  {
    c.Update? && c.record.zoneId == r.zoneId && c.record.id == r.id
  }

  predicate AnyAddresses(calls: seq<Call>, r: DNSRecord)
  {
    exists k :: 0 <= k < |calls| && Addresses(calls[k], r)
  }

  /** `r` as the provider holds it after accepting each update of `calls` in turn. */
  function ApplyWrites(r: DNSRecord, calls: seq<Call>): DNSRecord
    decreases |calls|
  {
    if calls == [] then r
    else
      var next := if Addresses(calls[0], r) then ApplyPayload(r, BuildUpdate(calls[0].record, calls[0].ip)) else r;
      ApplyWrites(next, calls[1..])
  }

  function ApplyAll(records: seq<DNSRecord>, calls: seq<Call>): (after: seq<DNSRecord>)
    ensures |after| == |records|
    ensures forall j :: 0 <= j < |records| ==> after[j] == ApplyWrites(records[j], calls)
  {
    if records == [] then [] else [ApplyWrites(records[0], calls)] + ApplyAll(records[1..], calls)
  }

  /** The listings a later cycle sees once the provider has accepted `calls`. */
  function Refresh(fetch: Domain -> seq<DNSRecord>, calls: seq<Call>): Domain -> seq<DNSRecord>
  {
    d => ApplyAll(fetch(d), calls)
  }

  /**
    Writes of the same IP with type "A" keep a record's zone and identifier; a
    written record ends up holding the IP as an address record, and a record no
    call addresses is left as it was.
   */
  lemma {:induction false} ApplyWritesEffect(r: DNSRecord, calls: seq<Call>, ip: string)
    requires forall k :: 0 <= k < |calls| && calls[k].Update? ==> calls[k].ip == ip && calls[k].record.recordType == "A"
    ensures ApplyWrites(r, calls).zoneId == r.zoneId && ApplyWrites(r, calls).id == r.id
    ensures AnyAddresses(calls, r) ==> ApplyWrites(r, calls).content == ip && ApplyWrites(r, calls).recordType == "A"
    ensures !AnyAddresses(calls, r) ==> ApplyWrites(r, calls) == r
    decreases |calls|
  {
    if calls != [] {
      var next := if Addresses(calls[0], r) then ApplyPayload(r, BuildUpdate(calls[0].record, calls[0].ip)) else r;
      ApplyWritesEffect(next, calls[1..], ip);
      assert forall k :: 1 <= k < |calls| ==> (Addresses(calls[k], r) <==> Addresses(calls[1..][k - 1], next));
      if Addresses(calls[0], r) {
        assert next.content == ip && next.recordType == "A";
      } else if AnyAddresses(calls, r) {
        var k :| 0 <= k < |calls| && Addresses(calls[k], r);
        assert Addresses(calls[1..][k - 1], next);
      }
    }
  }

  /**
    Once the provider has accepted every update of a cycle, every address record of
    every target holds the IP.
   */
  lemma CycleSettles(env: Env, ip: string, fetch: Domain -> seq<DNSRecord>)
    requires EnvComplete(env) && ip != ""
    ensures Settled(DomainList(env.domain), Refresh(fetch, Cycle(env, ip, fetch)), ip)
  {
    var calls := Cycle(env, ip, fetch);
    var ds := DomainList(env.domain);
    var after := Refresh(fetch, calls);
    forall i, r | 0 <= i < |ds| && r in after(ds[i]) && Selected(ds[i], r)
      ensures r.content == ip
    {
      var j :| 0 <= j < |after(ds[i])| && after(ds[i])[j] == r;
      var r0 := fetch(ds[i])[j];
      assert r == ApplyWrites(r0, calls);
      ApplyWritesEffect(r0, calls, ip);
      if !AnyAddresses(calls, r0) && r.content != ip {
        StaleRecordUpdated(env, ip, fetch, i, j);
        assert false;
      }
    }
  }

  /**
    A second cycle run with the same settings and IP, once the provider has
    accepted the first cycle's updates, writes nothing.
   */
  lemma SecondCycleWritesNothing(env: Env, ip: string, fetch: Domain -> seq<DNSRecord>)
    ensures UpdatesOf(Cycle(env, ip, Refresh(fetch, Cycle(env, ip, fetch)))) == []
  {
    var after := Refresh(fetch, Cycle(env, ip, fetch));
    if EnvComplete(env) && ip != "" {
      CycleSettles(env, ip, fetch);
      SettledCycleWritesNothing(env, ip, after);
    } else {
      StoppedCycleWritesNothing(env, ip, after);
    }
  }
}
