/** The civilian-losses page: the open-set loss summary, one row per
    distinct trimmed affiliation text, feeding the "Militant vs Civilian"
    pie. */
module CivilianLosses {
  import opened Sequences
  import opened Records
  import opened Tallies
  import opened Losses

  /** `generateLossSummary`: rows in the order their texts first appear. */
  function GenerateLossSummary(records: seq<Record>): seq<Loss> {
    OpenLoss(Affiliations(records))
  }

  /** One row per distinct trimmed non-blank affiliation, in order of first
      appearance, so "Fatah" and "Fatah Member" get separate rows. Each
      row's total is the number of records carrying that text; the whole
      total sits in the civilian column when the text mentions "Civilian" or
      "Unaffiliated" and in the militia column otherwise. */
  lemma LossSummaryCorrect(records: seq<Record>)
    ensures var s := GenerateLossSummary(records);
      var vs := Affiliations(records);
      && |s| == |Distinct(vs)|
      && (forall i :: 0 <= i < |s| ==> s[i].claim == Distinct(vs)[i])
      && (forall i :: 0 <= i < |s| ==>
            s[i].total == RecordsWithValue(OrientAffiliation, records, s[i].claim) >= 1)
      && Balanced(s)
      && (forall i :: 0 <= i < |s| ==>
            if IsCivilian(s[i].claim) then s[i].militia == 0 else s[i].civilian == 0)
  {
    var vs := Affiliations(records);
    OpenLossRows(vs, GenerateLossSummary(records));
    PresentValuesCounts(OrientAffiliation, records);
  }

  /** A record whose affiliation is missing or blank adds no row and
      changes no count. */
  lemma BlankAffiliationIgnored(records: seq<Record>, r: Record)
    requires TrimmedField(r, OrientAffiliation).None?
    ensures GenerateLossSummary(records + [r]) == GenerateLossSummary(records)
  {
    BlankRecordIgnored(OrientAffiliation, records, r);
  }

  /** Nothing non-blank is dropped: the totals, and the two pie values
      together, come to the number of records with a non-blank trimmed
      affiliation. */
  lemma PieValuesCoverPresent(records: seq<Record>)
    ensures var s := GenerateLossSummary(records);
      && Sum(s, Total) == RecordsWithAnyValue(OrientAffiliation, records)
      && PieValues(s).0 + PieValues(s).1 == Sum(s, Total)
  {
    var vs := Affiliations(records);
    var s := GenerateLossSummary(records);
    OpenLossIsTally(vs);
    FromTallyTotal(Tally(vs));
    TallyTotal(vs);
    PresentValuesCounts(OrientAffiliation, records);
    LossSummaryCorrect(records);
    PieSlicesAddUp(s);
  }
}
