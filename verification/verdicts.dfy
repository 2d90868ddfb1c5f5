/** The verdicts page: how many records carry each distinct verdict. */
module Verdicts {
  import opened Wrappers
  import opened Sequences
  import opened Records
  import opened Tallies

  /** `generateVerdicts`: rows in the order their verdicts first appear. */
  function GenerateVerdicts(records: seq<Record>): seq<Entry<string>> {
    Tally(PresentValues(Verdict, records))
  }

  /** One row per distinct trimmed non-blank verdict, in order of first
      appearance, counting the records that carry it (so never zero); the
      counts add up to the number of records with a non-blank verdict. */
  lemma VerdictsCorrect(records: seq<Record>)
    ensures var r := GenerateVerdicts(records);
      && Keys(r) == Distinct(PresentValues(Verdict, records))
      && (forall i :: 0 <= i < |r| ==>
            r[i].count == RecordsWithValue(Verdict, records, r[i].key) >= 1)
      && Total(r) == RecordsWithAnyValue(Verdict, records)
  {
    var vs := PresentValues(Verdict, records);
    var r := Tally(vs);
    TallyKeys(vs);
    TallyCounts(vs);
    TallyTotal(vs);
    PresentValuesCounts(Verdict, records);
    forall i | 0 <= i < |r| ensures r[i].count == RecordsWithValue(Verdict, records, r[i].key) >= 1 {
      assert r[i].count == multiset(vs)[r[i].key];
    }
  }

  /** A record whose verdict is missing or blank changes nothing. */
  lemma BlankVerdictIgnored(records: seq<Record>, r: Record)
    requires TrimmedField(r, Verdict).None?
    ensures GenerateVerdicts(records + [r]) == GenerateVerdicts(records)
  {
    BlankRecordIgnored(Verdict, records, r);
  }

  /** Non-blank verdicts reading "Combatant", "Combatant", "Civilian", in
      that order, tally to Combatant: 2 followed by Civilian: 1. */
  lemma TwoCombatantsOneCivilian()
    ensures Tally(["Combatant", "Combatant", "Civilian"]) == [Entry("Combatant", 2), Entry("Civilian", 1)]
  {
    var vs := ["Combatant", "Combatant", "Civilian"];
    assert Tally(vs[..2][..1]) == [Entry("Combatant", 1)];
    assert Tally(vs[..2]) == [Entry("Combatant", 2)];
  }
}
