/** A worked cycle: one target whose address record is out of date. */
module CycleExamples {
  import opened Wrappers
  import opened Cloudflare
  import opened Targets
  import opened TargetExamples
  import opened Reconciler
  import opened CycleLaws

  const HomeEnv := Env("home;zoneA;rec1", "key", "admin@example.com")
  const NewIP := "203.0.113.9"
  const OldRecord := DNSRecord(
    id := "rec1",
    zoneId := "zoneA",
    zoneName := "example.com",
    name := "home.example.com",
    recordType := "A",
    content := "203.0.113.1",
    proxiable := true,
    proxied := false,
    ttl := 1,
    comment := None,
    tags := [],
    createdOn := "",
    modifiedOn := "",
    priority := None)

  function Listing(d: Domain): seq<DNSRecord>
  {
    [OldRecord]
  }

  /** The settings "home;zoneA;rec1", "key", "admin@example.com" are complete and name one target. */
  lemma HomeTargets()
    ensures EnvComplete(HomeEnv)
    ensures DomainList(HomeEnv.domain) == One
  {
    OneAccepted();
  }

  /**
    With settings naming the target home;zoneA;rec1 (`HomeEnv` is one), the record
    holding 203.0.113.1 gets exactly one update to 203.0.113.9, after the IP lookup
    and the target's listing. That update is a PATCH of record rec1 in zone zoneA
    whose payload carries 203.0.113.9. The settings are a parameter, pinned by the
    requires clause, so that the proof works from their parsed targets and does not
    unfold the constant setting text.
   */
  lemma OutdatedRecordUpdatedOnce(env: Env)
    requires EnvComplete(env) && DomainList(env.domain) == One
    ensures Cycle(env, NewIP, Listing) == [ResolveIP, Fetch(One[0]), Update(OldRecord, NewIP)]
    ensures var u := Cycle(env, NewIP, Listing)[2];
      RecordPath(u.record.zoneId, u.record.id) == RecordPath("zoneA", "rec1") &&
      BuildUpdate(u.record, u.ip).content == NewIP && BuildUpdate(u.record, u.ip).id == "rec1"
  {
    var d := One[0];
    assert Stale(d, OldRecord, NewIP);
    RecordCallsOne(d, OldRecord, NewIP);
    TargetCallsOne(d, Listing, NewIP);
  }

  /**
    The next cycle sees the record holding 203.0.113.9 and writes nothing. As above,
    the settings are a parameter pinned by the requires clause.
   */
  lemma NextCycleQuiet(env: Env)
    requires EnvComplete(env) && DomainList(env.domain) == One
    ensures Refresh(Listing, Cycle(env, NewIP, Listing))(One[0])[0].content == NewIP
    ensures UpdatesOf(Cycle(env, NewIP, Refresh(Listing, Cycle(env, NewIP, Listing)))) == []
  {
    OutdatedRecordUpdatedOnce(env);
    var calls := Cycle(env, NewIP, Listing);
    assert Addresses(calls[2], OldRecord);
    ApplyWritesEffect(OldRecord, calls, NewIP);
    SecondCycleWritesNothing(env, NewIP, Listing);
  }
}
