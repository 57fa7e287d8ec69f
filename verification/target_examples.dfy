/** Worked `DOMAIN` settings and the target lists they give. */
module TargetExamples {
  import opened GoStrings
  import opened Cloudflare
  import opened Targets

  /**
    A malformed second entry rejects the first, well-formed one too:
    "a;1;2|b;3" gives no targets, not the single target `a`.
   */
  lemma ShortSecondEntryRejected(first: string, second: string)
    requires '|' !in first && '|' !in second
    requires Count(second, ';') != 2
    ensures DomainList(first + "|" + second) == []
  {
    var s := first + "|" + second;
    assert s == first + ['|'] + second;
    SplitAfterPiece(first, '|', second);
    SplitWithoutSeparator(second, '|');
    assert Split(s, '|')[1] == second;
    MalformedEntryRejectsAll(s, 1);
  }

  /** The empty setting splits into one empty field and is rejected. */
  lemma EmptySettingRejected()
    ensures DomainList("") == []
  {
  }

  /** A trailing '|' adds an empty, malformed entry. */
  lemma TrailingBarRejected()
    ensures DomainList("a;b;c|") == []
  {
  }

  const One := [Domain("home", "zoneA", "rec1")]
  const Two := [Domain("home", "zoneA", "rec1"), Domain("work", "zoneB", "rec2")]
  const Blank := [Domain("a", "", "")]

  lemma OneRendered()
    ensures Render(One) == "home;zoneA;rec1"
  {
    RenderedEntry(One[0]);
  }

  lemma OneSeparatorFree()
    ensures SeparatorFree(One)
  {
  }

  /**
    The two targets take parameters pinned to constants by the requires clause, so
    that the proof renders them through `RenderedEntry` and `RenderedPair` and does
    not unfold the constants character by character.
   */
  lemma TwoRendered(home: Domain, work: Domain)
    requires home == Domain("home", "zoneA", "rec1") && work == Domain("work", "zoneB", "rec2")
    ensures Render([home, work]) == "home;zoneA;rec1|work;zoneB;rec2"
  {
    RenderedPair(home, work);
    RenderedEntry(home);
    RenderedEntry(work);
  }

  lemma TwoSeparatorFree()
    ensures SeparatorFree(Two)
  {
  }

  lemma BlankRendered()
    ensures Render(Blank) == "a;;"
    ensures SeparatorFree(Blank)
  {
    RenderedEntry(Blank[0]);
  }

  /** One entry gives one target with its three fields. */
  lemma OneAccepted()
    ensures DomainList("home;zoneA;rec1") == One
  {
    OneRendered();
    OneSeparatorFree();
    RenderRoundTrip(One);
  }

  /** Two entries give two targets in input order. */
  lemma TwoAccepted()
    ensures DomainList("home;zoneA;rec1|work;zoneB;rec2") == Two
  {
    TwoRendered(Two[0], Two[1]);
    TwoSeparatorFree();
    RenderRoundTrip(Two);
  }

  /** Empty fields are accepted; only their number is checked. */
  lemma EmptyFieldsAccepted()
    ensures DomainList("a;;") == Blank
  {
    BlankRendered();
    RenderRoundTrip(Blank);
  }
}
