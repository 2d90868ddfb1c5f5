/** The organizations page: an occurrence count per distinct affiliation
    text, and the seven-label loss summary behind its table, bar chart and
    "Militant vs Civilian" pie. */
module Organizations {
  import opened Text
  import opened Sequences
  import opened Sorting
  import opened Records
  import opened Tallies
  import opened Losses

  const Groups: seq<string> := ["Army of Islam", "Fatah", "Hamas", "PIJ", "PRC", "Unaffiliated", "Warrior"]

  /** `a.claim.localeCompare(b.claim) <= 0`, read as code-point order. */
  predicate EntryLe(a: Entry<string>, b: Entry<string>) {
    LexLe(a.key, b.key)
  }

  predicate ClaimLe(a: Loss, b: Loss) {
    LexLe(a.claim, b.claim)
  }

  function EntryKey(e: Entry<string>): string {
    e.key
  }

  /** `generateOrientClaims`: count per distinct trimmed affiliation, sorted
      by the affiliation text. */
  function GenerateOrientClaims(records: seq<Record>): seq<Entry<string>> {
    SortBy(Tally(Affiliations(records)), EntryLe)
  }

  /** `generateLossSummary`: the fixed-set summary over `Groups`, sorted by
      label. */
  function GenerateLossSummary(records: seq<Record>): seq<Loss> {
    SortBy(FixedLoss(Groups, Affiliations(records)), ClaimLe)
  }

  lemma EntryLeIsTotalPreorder()
    ensures TotalPreorder(EntryLe)
  {
    forall a, b ensures EntryLe(a, b) || EntryLe(b, a) {
      LexLeTotal(a.key, b.key);
    }
    forall a, b, c | EntryLe(a, b) && EntryLe(b, c) ensures EntryLe(a, c) {
      LexLeTransitive(a.key, b.key, c.key);
    }
  }

  /** The label list is already in alphabetical order. */
  lemma GroupsSorted()
    ensures forall i, j :: 0 <= i < j < |Groups| ==> LexLe(Groups[i], Groups[j])
  {
  }

  /** Sorting the tally of `vs` by text gives strictly ascending keys. */
  lemma SortedTallyAscending(vs: seq<string>)
    ensures var r := SortBy(Tally(vs), EntryLe);
      forall i, j :: 0 <= i < j < |r| ==> LexLe(r[i].key, r[j].key) && r[i].key != r[j].key
  {
    var t := Tally(vs);
    var r := SortBy(t, EntryLe);
    TallyKeys(vs);
    EntryLeIsTotalPreorder();
    SortBySorted(t, EntryLe);
    assert DistinctKeys(t, EntryKey) by {
      assert NoDuplicates(Keys(t));
      forall i, j | 0 <= i < j < |t| ensures EntryKey(t[i]) != EntryKey(t[j]) {
        assert Keys(t)[i] != Keys(t)[j];
      }
    }
    SortByDistinctKeys(t, EntryLe, EntryKey);
    forall i, j | 0 <= i < j < |r| ensures LexLe(r[i].key, r[j].key) && r[i].key != r[j].key {
      assert EntryLe(r[i], r[j]);
      assert EntryKey(r[i]) != EntryKey(r[j]);
    }
  }

  /** The sorted tally of `vs`: strictly ascending distinct values, each
      counted by its number of occurrences, and a row exactly for the values
      that occur. */
  lemma SortedTallyCorrect(vs: seq<string>)
    ensures var r := SortBy(Tally(vs), EntryLe);
      && (forall i, j :: 0 <= i < j < |r| ==> LexLe(r[i].key, r[j].key) && r[i].key != r[j].key)
      && (forall i :: 0 <= i < |r| ==> r[i].count == multiset(vs)[r[i].key] >= 1)
      && (forall v :: multiset(vs)[v] > 0 <==> exists i :: 0 <= i < |r| && r[i].key == v)
  {
    var r := SortBy(Tally(vs), EntryLe);
    SortedTallyAscending(vs);
    PermutedTallyCounts(vs, r);
    PermutedTallyCovers(vs, r);
  }

  /** The orient-claim table: one row per distinct trimmed non-blank
      affiliation, counting the records that carry it, in strictly ascending
      order of the text. */
  lemma OrientClaimsCorrect(records: seq<Record>)
    ensures var r := GenerateOrientClaims(records);
      && (forall i, j :: 0 <= i < j < |r| ==> LexLe(r[i].key, r[j].key) && r[i].key != r[j].key)
      && (forall i :: 0 <= i < |r| ==>
            r[i].count == RecordsWithValue(OrientAffiliation, records, r[i].key) >= 1)
      && (forall v :: RecordsWithValue(OrientAffiliation, records, v) > 0 <==>
            exists i :: 0 <= i < |r| && r[i].key == v)
  {
    PresentValuesCounts(OrientAffiliation, records);
    SortedTallyCorrect(Affiliations(records));
  }

  /** A record whose affiliation is missing, empty or whitespace-only leaves
      both summaries exactly as they were. */
  lemma BlankAffiliationIgnored(records: seq<Record>, r: Record)
    requires TrimmedField(r, OrientAffiliation).None?
    ensures GenerateOrientClaims(records + [r]) == GenerateOrientClaims(records)
    ensures GenerateLossSummary(records + [r]) == GenerateLossSummary(records)
  {
    BlankRecordIgnored(OrientAffiliation, records, r);
  }

  /** The loss table has one row per label in list order (the sort leaves
      it unchanged), sorted by label; each row counts the records credited
      to its label, split civilian/militia, and balances. */
  lemma LossSummaryCorrect(records: seq<Record>)
    ensures var s := GenerateLossSummary(records);
      var vs := Affiliations(records);
      && |s| == |Groups|
      && Sorted(s, ClaimLe)
      && (forall i :: 0 <= i < |Groups| ==>
            && s[i].claim == Groups[i]
            && s[i].militia == Credited(Groups, vs, i, false)
            && s[i].civilian == Credited(Groups, vs, i, true)
            && s[i].total == s[i].militia + s[i].civilian)
  {
    var vs := Affiliations(records);
    SummaryIsFixedLoss(vs);
    FixedLossCounts(Groups, vs);
  }

  /** The fixed-set summary over `Groups` is already in label order, so
      sorting it changes nothing. */
  lemma SummaryIsFixedLoss(vs: seq<string>)
    ensures Sorted(FixedLoss(Groups, vs), ClaimLe)
    ensures SortBy(FixedLoss(Groups, vs), ClaimLe) == FixedLoss(Groups, vs)
  {
    var f := FixedLoss(Groups, vs);
    GroupsSorted();
    forall i, j | 0 <= i < j < |f| ensures ClaimLe(f[i], f[j]) {
      assert f[i].claim == Groups[i] && f[j].claim == Groups[j];
    }
    SortBySortedIsIdentity(f, ClaimLe);
  }
  /** The "Unaffiliated" row never has militia: every text credited to it
      mentions "Unaffiliated" and so counts as civilian. */
  lemma UnaffiliatedHasNoMilitia(records: seq<Record>)
    ensures GenerateLossSummary(records)[5].claim == "Unaffiliated"
    ensures GenerateLossSummary(records)[5].militia == 0
  {
    var vs := Affiliations(records);
    LossSummaryCorrect(records);
    ContainsSelf("Unaffiliated");
    CivilianLabelHasNoMilitia(Groups, vs, 5);
  }

  /** The totals, and the two pie values together, come to the number of
      non-blank affiliations that mention at least one label. */
  lemma PieValuesCoverMatched(records: seq<Record>)
    ensures var s := GenerateLossSummary(records);
      && Sum(s, Total) == Mentioning(Groups, Affiliations(records))
      && PieValues(s).0 + PieValues(s).1 == Sum(s, Total)
  {
    var vs := Affiliations(records);
    var s := GenerateLossSummary(records);
    LossSummaryCorrect(records);
    SummaryIsFixedLoss(vs);
    FixedLossTotal(Groups, vs);
    PieSlicesAddUp(s);
  }
}
