/** The militia/civilian loss summaries shared by the organizations,
    affiliation-losses and civilian-losses pages: a fixed-set variant that
    credits each affiliation text to the first known group label it
    mentions, and an open-set variant keyed by the text itself. */
module Losses {
  import opened Wrappers
  import opened Text
  import opened Tallies
  import opened Sequences

  /** One summary row: `{claim, militia, civilian, total}`. */
  datatype Loss = Loss(claim: string, militia: nat, civilian: nat, total: nat)

  /** A credited affiliation counts as civilian when it mentions "Civilian"
      or "Unaffiliated"; otherwise it counts as militia. */
  predicate IsCivilian(text: string) {
    Contains(text, "Civilian") || Contains(text, "Unaffiliated")
  }

  /** The text includes at least one of the group labels. */
  predicate MentionsAny(groups: seq<string>, text: string) {
    exists j :: 0 <= j < |groups| && Contains(text, groups[j])
  }

  /** `groups.find(g => text.includes(g))`, as a position in `groups`: the
      first label, in list order, that occurs in the text. */
  function FirstMatch(groups: seq<string>, text: string): (r: Option<nat>)
    ensures r.Some? ==> r.value < |groups| && Contains(text, groups[r.value])
    ensures r.Some? ==> forall j :: 0 <= j < r.value ==> !Contains(text, groups[j])
    ensures r.None? <==> !MentionsAny(groups, text)
  {
    if |groups| == 0 then None
    else if Contains(text, groups[0]) then Some(0)
    else
      match FirstMatch(groups[1..], text)
      case None =>
        assert forall j :: 1 <= j < |groups| ==> groups[j] == groups[1..][j - 1];
        None
      case Some(i) => Some(i + 1)
  }

  /** Adds one record to row `i`: its civilian or militia count, then its
      total. */
  function Credit(s: seq<Loss>, i: nat, civilian: bool): seq<Loss>
    requires i < |s|
  {
    var e := if civilian then s[i].(civilian := s[i].civilian + 1)
             else s[i].(militia := s[i].militia + 1);
    s[i := e.(total := e.total + 1)]
  }

  /** One all-zero row per group label, in list order. */
  function ZeroSummary(groups: seq<string>): seq<Loss> {
    seq(|groups|, i requires 0 <= i < |groups| => Loss(groups[i], 0, 0, 0))
  }

  /** The fixed-set loss summary of the trimmed, non-blank affiliation texts,
      row `i` standing for `groups[i]`. Texts mentioning no label are
      dropped. */
  function FixedLoss(groups: seq<string>, texts: seq<string>): (s: seq<Loss>)
    ensures |s| == |groups|
    ensures forall i :: 0 <= i < |s| ==> s[i].claim == groups[i]
  {
    if |texts| == 0 then ZeroSummary(groups)
    else
      var n := |texts| - 1;
      var s := FixedLoss(groups, texts[..n]);
      match FirstMatch(groups, texts[n])
      case None => s
      case Some(i) => Credit(s, i, IsCivilian(texts[n]))
  }

  /** How many texts are credited to `groups[i]` with the given
      civilian/militia classification. */
  function Credited(groups: seq<string>, texts: seq<string>, i: nat, civilian: bool): nat {
    if |texts| == 0 then 0
    else
      var n := |texts| - 1;
      Credited(groups, texts[..n], i, civilian)
        + if FirstMatch(groups, texts[n]) == Some(i) && IsCivilian(texts[n]) == civilian then 1 else 0
  }

  /** How many texts mention at least one group label. */
  function Mentioning(groups: seq<string>, texts: seq<string>): nat {
    if |texts| == 0 then 0
    else
      var n := |texts| - 1;
      Mentioning(groups, texts[..n]) + if MentionsAny(groups, texts[n]) then 1 else 0
  }

  datatype Column = Militia | Civilian | Total

  function Get(e: Loss, c: Column): nat {
    match c
    case Militia => e.militia
    case Civilian => e.civilian
    case Total => e.total
  }

  /** `d3.sum(summary, d => d[column])`. */
  function Sum(s: seq<Loss>, c: Column): nat {
    if |s| == 0 then 0 else Sum(s[..|s| - 1], c) + Get(s[|s| - 1], c)
  }

  /** Every row's total is its militia count plus its civilian count. */
  predicate Balanced(s: seq<Loss>) {
    forall i :: 0 <= i < |s| ==> s[i].total == s[i].militia + s[i].civilian
  }

  lemma {:induction false} SumUpdate(s: seq<Loss>, i: nat, e: Loss, c: Column)
    requires i < |s|
    ensures Sum(s[i := e], c) == Sum(s, c) - Get(s[i], c) + Get(e, c)
  {
    var n := |s| - 1;
    if i < n {
      SumUpdate(s[..n], i, e, c);
      assert s[i := e][..n] == s[..n][i := e];
    } else {
      assert s[i := e][..n] == s[..n];
    }
  }

  lemma SumAppend(s: seq<Loss>, e: Loss, c: Column)
    ensures Sum(s + [e], c) == Sum(s, c) + Get(e, c)
  {
    assert (s + [e])[..|s|] == s;
  }

  lemma {:induction false} SumZero(groups: seq<string>, c: Column)
    ensures Sum(ZeroSummary(groups), c) == 0
  {
    if |groups| > 0 {
      var n := |groups| - 1;
      SumZero(groups[..n], c);
      assert ZeroSummary(groups)[..n] == ZeroSummary(groups[..n]);
    }
  }

  /** The two values of the "Militant vs Civilian" pie: summed militia and
      summed civilian counts. */
  function PieValues(summary: seq<Loss>): (nat, nat) {
    (Sum(summary, Militia), Sum(summary, Civilian))
  }

  /** The two pie slices of the "Militant vs Civilian" chart add up to the
      sum of the totals whenever every row is balanced. */
  lemma {:induction false} PieSlicesAddUp(s: seq<Loss>)
    requires Balanced(s)
    ensures PieValues(s).0 + PieValues(s).1 == Sum(s, Total)
  {
    if |s| > 0 {
      PieSlicesAddUp(s[..|s| - 1]);
    }
  }

  /** Row `i` of the fixed-set summary counts exactly the texts credited to
      `groups[i]`, split by classification, and its total is the sum of the
      two counts. A label no text is credited to keeps an all-zero row. */
  lemma {:induction false} FixedLossCounts(groups: seq<string>, texts: seq<string>)
    ensures var s := FixedLoss(groups, texts);
      forall i :: 0 <= i < |groups| ==>
        && s[i].militia == Credited(groups, texts, i, false)
        && s[i].civilian == Credited(groups, texts, i, true)
        && s[i].total == s[i].militia + s[i].civilian
  {
    if |texts| > 0 {
      FixedLossCounts(groups, texts[..|texts| - 1]);
    }
  }

  /** The totals add up to the number of texts that mention a group label;
      every other text is dropped. */
  lemma {:induction false} FixedLossTotal(groups: seq<string>, texts: seq<string>)
    ensures Sum(FixedLoss(groups, texts), Total) == Mentioning(groups, texts)
  {
    if |texts| == 0 {
      SumZero(groups, Total);
    } else {
      var n := |texts| - 1;
      var s := FixedLoss(groups, texts[..n]);
      FixedLossTotal(groups, texts[..n]);
      var m := FirstMatch(groups, texts[n]);
      assert Mentioning(groups, texts) == Mentioning(groups, texts[..n]) + if m.Some? then 1 else 0;
      if m.Some? {
        CreditTotal(s, m.value, IsCivilian(texts[n]));
      }
    }
  }

  lemma CreditTotal(s: seq<Loss>, i: nat, civilian: bool)
    requires i < |s|
    ensures Sum(Credit(s, i, civilian), Total) == Sum(s, Total) + 1
  {
    var e' := Credit(s, i, civilian)[i];
    assert Credit(s, i, civilian) == s[i := e'];
    assert e'.total == s[i].total + 1;
    SumUpdate(s, i, e', Total);
  }

  /** A label that itself mentions "Civilian" or "Unaffiliated" never gets a
      militia count: every text credited to it mentions the label, hence the
      marker too. */
  lemma {:induction false} CivilianLabelHasNoMilitia(groups: seq<string>, texts: seq<string>, i: nat)
    requires i < |groups| && IsCivilian(groups[i])
    ensures Credited(groups, texts, i, false) == 0
  {
    if |texts| > 0 {
      var n := |texts| - 1;
      CivilianLabelHasNoMilitia(groups, texts[..n], i);
      if FirstMatch(groups, texts[n]) == Some(i) {
        if Contains(groups[i], "Civilian") {
          ContainsTransitive(texts[n], groups[i], "Civilian");
        } else {
          ContainsTransitive(texts[n], groups[i], "Unaffiliated");
        }
      }
    }
  }

  /** Position of the row for `claim`, if there is one. */
  function IndexOfClaim(s: seq<Loss>, claim: string): (r: Option<nat>)
    ensures r.Some? ==> r.value < |s| && s[r.value].claim == claim
  {
    if |s| == 0 then None
    else if s[0].claim == claim then Some(0)
    else
      match IndexOfClaim(s[1..], claim)
      case None => None
      case Some(i) => Some(i + 1)
  }

  /** One step of the open-set loop: create the row for `text` with zero
      counts if it is missing, then credit the record to it. */
  function OpenStep(s: seq<Loss>, text: string): seq<Loss> {
    var (s', i) := match IndexOfClaim(s, text)
      case Some(i) => (s, i)
      case None => (s + [Loss(text, 0, 0, 0)], |s|);
    Credit(s', i, IsCivilian(text))
  }

  /** The open-set loss summary: one row per distinct affiliation text, in
      `Object.values` order. */
  function OpenLoss(texts: seq<string>): seq<Loss> {
    if |texts| == 0 then [] else OpenStep(OpenLoss(texts[..|texts| - 1]), texts[|texts| - 1])
  }

  /** The row a key with `count` occurrences ends up with: every one of its
      records is classified the same way, since the classification only
      looks at the key. */
  function FromEntry(e: Entry<string>): Loss {
    if IsCivilian(e.key) then Loss(e.key, 0, e.count, e.count)
    else Loss(e.key, e.count, 0, e.count)
  }

  function FromTally(t: seq<Entry<string>>): seq<Loss> {
    seq(|t|, i requires 0 <= i < |t| => FromEntry(t[i]))
  }

  lemma FromTallyAt(t: seq<Entry<string>>)
    ensures |FromTally(t)| == |t|
    ensures forall i :: 0 <= i < |t| ==> FromTally(t)[i] == FromEntry(t[i])
  {
  }

  /** The open-set summary of `texts`: one row per distinct text in order of
      first appearance, its total the text's occurrences, the whole total
      in the civilian column for a text with a civilian marker and in the
      militia column otherwise. */
  lemma OpenLossRows(texts: seq<string>, s: seq<Loss>)
    requires s == OpenLoss(texts)
    ensures |s| == |Distinct(texts)|
    ensures forall i :: 0 <= i < |s| ==> s[i].claim == Distinct(texts)[i]
    ensures forall i :: 0 <= i < |s| ==> s[i].total == multiset(texts)[s[i].claim] >= 1
    ensures Balanced(s)
    ensures forall i :: 0 <= i < |s| ==>
      if IsCivilian(s[i].claim) then s[i].militia == 0 else s[i].civilian == 0
  {
    var t := Tally(texts);
    OpenLossIsTally(texts);
    TallyKeys(texts);
    TallyCounts(texts);
    KeysAt(t);
    FromTallyAt(t);
  }

  lemma {:induction false} IndexOfClaimFromTally(t: seq<Entry<string>>, k: string)
    ensures IndexOfClaim(FromTally(t), k) == IndexOf(t, k)
  {
    if |t| > 0 && t[0].key != k {
      IndexOfClaimFromTally(t[1..], k);
      assert FromTally(t)[1..] == FromTally(t[1..]);
    }
  }

  /** The open-set loop computes, row for row, the plain occurrence tally of
      the texts with each row's whole count put in the militia or the
      civilian column. */
  lemma {:induction false} OpenLossIsTally(texts: seq<string>)
    ensures OpenLoss(texts) == FromTally(Tally(texts))
  {
    if |texts| > 0 {
      var n := |texts| - 1;
      OpenLossIsTally(texts[..n]);
      OpenStepFromTally(Tally(texts[..n]), texts[n]);
    }
  }

  /** One step of the open-set loop is one step of the tally. */
  lemma OpenStepFromTally(t: seq<Entry<string>>, k: string)
    ensures OpenStep(FromTally(t), k) == FromTally(Bump(t, k))
  {
    IndexOfClaimFromTally(t, k);
    match IndexOf(t, k)
    case Some(i) => {
      CreditExisting(t, i, k);
    }
    case None => {
      CreditNew(t, k);
    }
  }

  lemma CreditExisting(t: seq<Entry<string>>, i: nat, k: string)
    requires i < |t| && t[i].key == k
    ensures Credit(FromTally(t), i, IsCivilian(k)) == FromTally(t[i := Entry(k, t[i].count + 1)])
  {
  }

  lemma CreditNew(t: seq<Entry<string>>, k: string)
    ensures Credit(FromTally(t) + [Loss(k, 0, 0, 0)], |t|, IsCivilian(k)) == FromTally(t + [Entry(k, 1)])
  {
  }

  lemma {:induction false} FromTallyTotal(t: seq<Entry<string>>)
    ensures Sum(FromTally(t), Total) == Tallies.Total(t)
  {
    if |t| > 0 {
      var n := |t| - 1;
      FromTallyTotal(t[..n]);
      assert FromTally(t)[..n] == FromTally(t[..n]);
    }
  }
}
