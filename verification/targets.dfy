/**
  The target list: the `DOMAIN` setting is a '|'-separated list of entries, each a
  ';'-separated triple `name;zoneId;recordId`. One malformed entry rejects the whole
  list; empty fields are accepted, only the number of fields is checked.
 */
module Targets {
  import opened Wrappers
  import opened GoStrings
  import opened Cloudflare

  const EntrySeparator: char := '|'
  const FieldSeparator: char := ';'

  /** The fields of a target, in the order the setting lists them. */
  function Fields(d: Domain): seq<string>
  {
    [d.name, d.zoneId, d.dnsRecordId]
  }

  /**
    One entry: accepted exactly when it holds two field separators, and then its
    three separator-free fields rejoin to the entry.
   */
  function ParseEntry(entry: string): (d: Option<Domain>)
    ensures d.Some? <==> Count(entry, FieldSeparator) == 2
    ensures d.Some? ==> Join(Fields(d.value), FieldSeparator) == entry
    ensures d.Some? ==> forall i :: 0 <= i < 3 ==> FieldSeparator !in Fields(d.value)[i]
  {
    var item := Split(entry, FieldSeparator);
    JoinSplit(entry, FieldSeparator);
    if |item| != 3 then None
    else
      assert item == Fields(Domain(item[0], item[1], item[2]));
      Some(Domain(item[0], item[1], item[2]))
  }

  /** Every entry parses. */
  predicate AllWellFormed(entries: seq<string>)
  {
    forall i :: 0 <= i < |entries| ==> ParseEntry(entries[i]).Some?
  }

  /** The entries in order, or nothing at all when any entry is malformed. */
  function ParseEntries(entries: seq<string>): (ds: Option<seq<Domain>>)
    ensures ds.Some? <==> AllWellFormed(entries)
    ensures ds.Some? ==> |ds.value| == |entries|
    ensures ds.Some? ==> forall i :: 0 <= i < |entries| ==> ParseEntry(entries[i]) == Some(ds.value[i])
  {
    if |entries| == 0 then Some([])
    else
      match ParseEntry(entries[0])
      case None => None
      case Some(d) =>
        match ParseEntries(entries[1..])
        case None =>
          assert !AllWellFormed(entries[1..]);
          None
        case Some(rest) =>
          assert forall i :: 1 <= i < |entries| ==> entries[i] == entries[1..][i - 1];
          Some([d] + rest)
  }

  /**
    `getDomainList`: the targets of a setting, or the empty list when it is
    malformed. A setting without '|' is handled as a single entry.
   */
  function DomainList(domain: string): (ds: seq<Domain>)
    ensures ds != [] <==> AllWellFormed(Split(domain, EntrySeparator))
    ensures ds != [] ==> |ds| == Count(domain, EntrySeparator) + 1
    ensures ds != [] ==> forall i :: 0 <= i < |ds| ==>
      ParseEntry(Split(domain, EntrySeparator)[i]) == Some(ds[i])
  {
    if EntrySeparator in domain then
      ParseEntries(Split(domain, EntrySeparator)).GetOr([])
    else
      SplitWithoutSeparator(domain, EntrySeparator);
      match ParseEntry(domain)
      case Some(d) => [d]
      case None => []
  }

  /** The two branches of `getDomainList` agree: the test for '|' could be left out. */
  lemma DomainListIsParseOfEntries(domain: string)
    ensures DomainList(domain) == ParseEntries(Split(domain, EntrySeparator)).GetOr([])
  {
    if EntrySeparator !in domain {
      SplitWithoutSeparator(domain, EntrySeparator);
      assert Split(domain, EntrySeparator) == [domain];
      assert Split(domain, EntrySeparator)[1..] == [];
    }
  }

  /**
    Without '|', the setting is accepted exactly when it splits into three
    ';'-fields, and its one target takes fields 0, 1 and 2 in that order.
   */
  lemma SingleEntry(domain: string)
    requires EntrySeparator !in domain
    ensures DomainList(domain) != [] <==> |Split(domain, FieldSeparator)| == 3
    ensures |Split(domain, FieldSeparator)| == 3 ==>
      var f := Split(domain, FieldSeparator);
      DomainList(domain) == [Domain(f[0], f[1], f[2])]
  {
  }

  /** A single malformed entry rejects the whole setting; no partial list is returned. */
  lemma MalformedEntryRejectsAll(domain: string, k: int)
    requires 0 <= k < |Split(domain, EntrySeparator)|
    requires |Split(Split(domain, EntrySeparator)[k], FieldSeparator)| != 3
    ensures DomainList(domain) == []
  {
  }

  /**
    An accepted setting gives one target per '|'-entry, in input order, each with
    the fields of its entry.
   */
  lemma AcceptedInOrder(domain: string, i: int)
    requires DomainList(domain) != []
    ensures |DomainList(domain)| == |Split(domain, EntrySeparator)|
    ensures 0 <= i < |DomainList(domain)| ==>
      var f := Split(Split(domain, EntrySeparator)[i], FieldSeparator);
      DomainList(domain)[i] == Domain(f[0], f[1], f[2])
  {
  }

  /** An accepted setting is never empty, so the empty list stands only for a rejection. */
  lemma RejectionIsEmpty(domain: string)
    ensures DomainList(domain) == [] <==>
      exists k :: 0 <= k < |Split(domain, EntrySeparator)| && ParseEntry(Split(domain, EntrySeparator)[k]).None?
  {
    var parts := Split(domain, EntrySeparator);
    if DomainList(domain) == [] {
      assert !AllWellFormed(parts);
      var k :| 0 <= k < |parts| && ParseEntry(parts[k]).None?;
    }
  }

  // ---------------------------------------------------------------------------
  // The loop of `getDomainList`

  /** `getDomainList` as the Go code runs it: split, then walk the entries, giving up on the first malformed one. */
  method GetDomainList(domain: string) returns (domainList: seq<Domain>)
    ensures domainList == DomainList(domain)
  {
    domainList := [];
    if EntrySeparator in domain {
      var domains := Split(domain, EntrySeparator);
      var i := 0;
      while i < |domains|
        invariant 0 <= i <= |domains|
        invariant |domainList| == i
        invariant forall k :: 0 <= k < i ==> ParseEntry(domains[k]) == Some(domainList[k])
      {
        var item := Split(domains[i], FieldSeparator);
        if |item| != 3 {
          assert ParseEntry(domains[i]).None?;
          return [];
        }
        domainList := domainList + [Domain(item[0], item[1], item[2])];
        i := i + 1;
      }
      assert AllWellFormed(domains);
    } else {
      var item := Split(domain, FieldSeparator);
      if |item| != 3 {
        return [];
      }
      domainList := domainList + [Domain(item[0], item[1], item[2])];
    }
  }

  // ---------------------------------------------------------------------------
  // Writing a setting

  /** The setting that lists `ds`, fields joined by ';', entries by '|'. */
  function Render(ds: seq<Domain>): string
  {
    Join(RenderEntries(ds), EntrySeparator)
  }

  function RenderEntries(ds: seq<Domain>): (entries: seq<string>)
    ensures |entries| == |ds|
    ensures forall i :: 0 <= i < |ds| ==> entries[i] == Join(Fields(ds[i]), FieldSeparator)
  {
    if ds == [] then [] else [Join(Fields(ds[0]), FieldSeparator)] + RenderEntries(ds[1..])
  }

  lemma RenderedEntry(d: Domain)
    ensures Join(Fields(d), FieldSeparator) == d.name + [FieldSeparator] + d.zoneId + [FieldSeparator] + d.dnsRecordId
  {
    var f := Fields(d);
    assert f[1..][1..] == [f[2]];
    assert Join(f[1..][1..], FieldSeparator) == f[2];
    assert Join(f[1..], FieldSeparator) == f[1] + [FieldSeparator] + f[2];
    assert Join(f, FieldSeparator) == f[0] + [FieldSeparator] + (f[1] + [FieldSeparator] + f[2]);
  }

  lemma RenderedPair(d1: Domain, d2: Domain)
    ensures Render([d1, d2]) == Join(Fields(d1), FieldSeparator) + [EntrySeparator] + Join(Fields(d2), FieldSeparator)
  {
    var entries := RenderEntries([d1, d2]);
    assert entries[1..] == [entries[1]];
    assert Join(entries[1..], EntrySeparator) == entries[1];
  }

  /** No field of any target contains a separator. */
  predicate SeparatorFree(ds: seq<Domain>)
  {
    forall i, j :: 0 <= i < |ds| && 0 <= j < 3 ==>
      EntrySeparator !in Fields(ds[i])[j] && FieldSeparator !in Fields(ds[i])[j]
  }

  /** A non-empty target list whose fields hold no separator is read back from its setting. */
  lemma RenderRoundTrip(ds: seq<Domain>)
    requires ds != []
    requires SeparatorFree(ds)
    ensures DomainList(Render(ds)) == ds
  {
    var entries := RenderEntries(ds);
    forall i | 0 <= i < |ds|
      ensures EntrySeparator !in entries[i]
      ensures ParseEntry(entries[i]) == Some(ds[i])
    {
      var f := Fields(ds[i]);
      assert EntrySeparator !in f[0] && EntrySeparator !in f[1] && EntrySeparator !in f[2];
      assert FieldSeparator !in f[0] && FieldSeparator !in f[1] && FieldSeparator !in f[2];
      assert f[1..][1..] == [f[2]];
      assert Join(f[1..], FieldSeparator) == f[1] + [FieldSeparator] + f[2];
      assert entries[i] == f[0] + [FieldSeparator] + (f[1] + [FieldSeparator] + f[2]);
      SplitJoin(f, FieldSeparator);
    }
    SplitJoin(entries, EntrySeparator);
    DomainListIsParseOfEntries(Render(ds));
    var r := ParseEntries(entries);
    assert r.Some?;
    assert r.value == ds;
  }
}
