/** The affiliation-losses page: the six-label loss summary without an
    "Unaffiliated" row, ordered by militia count for its pie chart. */
module AffiliationLosses {
  import opened Sorting
  import opened Records
  import opened Losses

  const Groups: seq<string> := ["Army of Islam", "Fatah", "Hamas", "PIJ", "PRC", "Warrior"]

  /** `a.militia - b.militia <= 0`. */
  predicate MilitiaLe(a: Loss, b: Loss) {
    a.militia <= b.militia
  }

  /** `summary.filter(d => d.claim !== claim)`. */
  function WithoutClaim(s: seq<Loss>, claim: string): (r: seq<Loss>)
    ensures forall i :: 0 <= i < |r| ==> r[i].claim != claim
  {
    if |s| == 0 then []
    else (if s[0].claim != claim then [s[0]] else []) + WithoutClaim(s[1..], claim)
  }

  /** `generateLossSummary`: the fixed-set summary over `Groups`, minus any
      "Unaffiliated" row, sorted by militia count. */
  function GenerateLossSummary(records: seq<Record>): seq<Loss> {
    SortBy(WithoutClaim(FixedLoss(Groups, Affiliations(records)), "Unaffiliated"), MilitiaLe)
  }

  lemma MilitiaLeIsTotalPreorder()
    ensures TotalPreorder(MilitiaLe)
  {
  }

  /** Filtering out a claim no row has removes nothing. */
  lemma {:induction false} WithoutAbsentClaim(s: seq<Loss>, claim: string)
    requires forall i :: 0 <= i < |s| ==> s[i].claim != claim
    ensures WithoutClaim(s, claim) == s
  {
    if |s| > 0 {
      WithoutAbsentClaim(s[1..], claim);
    }
  }

  /** "Unaffiliated" is not one of the labels, so the filter keeps every
      row. */
  lemma UnaffiliatedFilterKeepsAll(vs: seq<string>)
    ensures WithoutClaim(FixedLoss(Groups, vs), "Unaffiliated") == FixedLoss(Groups, vs)
  {
    assert forall j :: 0 <= j < |Groups| ==> Groups[j] != "Unaffiliated";
    WithoutAbsentClaim(FixedLoss(Groups, vs), "Unaffiliated");
  }

  /** Every row of a reordering of a balanced summary is balanced. */
  lemma PermutationBalanced(s: seq<Loss>, f: seq<Loss>)
    requires multiset(s) == multiset(f) && Balanced(f)
    ensures Balanced(s)
  {
    forall i | 0 <= i < |s| ensures s[i].total == s[i].militia + s[i].civilian {
      assert s[i] in multiset(f);
      var j :| 0 <= j < |f| && f[j] == s[i];
    }
  }

  /** The "Unaffiliated" filter is a no-op here, since that label is not in
      the list; the output holds exactly the six per-group rows, each
      balanced, sorted by militia count, with rows of equal militia count
      left in label-list order. */
  lemma LossSummaryCorrect(records: seq<Record>)
    ensures var f := FixedLoss(Groups, Affiliations(records));
      var s := GenerateLossSummary(records);
      && WithoutClaim(f, "Unaffiliated") == f
      && |s| == |Groups| == 6
      && multiset(s) == multiset(f)
      && Sorted(s, MilitiaLe)
      && (forall y :: Equivalents(s, MilitiaLe, y) == Equivalents(f, MilitiaLe, y))
      && Balanced(s)
  {
    var vs := Affiliations(records);
    var f := FixedLoss(Groups, vs);
    UnaffiliatedFilterKeepsAll(vs);
    assert GenerateLossSummary(records) == SortBy(f, MilitiaLe);
    FixedLossCounts(Groups, vs);
    assert Balanced(f);
    MilitiaSortCorrect(f);
  }

  /** Sorting a balanced summary by militia count: a balanced, sorted,
      stable reordering. */
  lemma MilitiaSortCorrect(f: seq<Loss>)
    requires Balanced(f)
    ensures var s := SortBy(f, MilitiaLe);
      && multiset(s) == multiset(f)
      && Sorted(s, MilitiaLe)
      && (forall y :: Equivalents(s, MilitiaLe, y) == Equivalents(f, MilitiaLe, y))
      && Balanced(s)
  {
    var s := SortBy(f, MilitiaLe);
    MilitiaLeIsTotalPreorder();
    SortBySorted(f, MilitiaLe);
    forall y ensures Equivalents(s, MilitiaLe, y) == Equivalents(f, MilitiaLe, y) {
      SortByStable(f, MilitiaLe, y);
    }
    PermutationBalanced(s, f);
  }

  /** Each label keeps exactly its own row: the row for `Groups[j]` counts
      the records credited to it, a text that also mentions "Civilian" or
      "Unaffiliated" counting as a civilian of that group. */
  lemma RowPerGroup(records: seq<Record>, j: nat)
    requires j < |Groups|
    ensures var s := GenerateLossSummary(records);
      var vs := Affiliations(records);
      exists i :: 0 <= i < |s| && s[i].claim == Groups[j]
        && s[i].militia == Credited(Groups, vs, j, false)
        && s[i].civilian == Credited(Groups, vs, j, true)
  {
    var vs := Affiliations(records);
    var f := FixedLoss(Groups, vs);
    UnaffiliatedFilterKeepsAll(vs);
    var s := SortBy(f, MilitiaLe);
    assert s == GenerateLossSummary(records);
    FixedLossCounts(Groups, vs);
    RowSurvivesReordering(s, f, j);
  }

  /** A row of `f` is still somewhere in any reordering of `f`. */
  lemma RowSurvivesReordering(s: seq<Loss>, f: seq<Loss>, j: nat)
    requires multiset(s) == multiset(f) && j < |f|
    ensures exists i :: 0 <= i < |s| && s[i] == f[j]
  {
    assert f[j] in multiset(s);
  }
}
