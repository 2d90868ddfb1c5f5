/** The records table on the home page: two drop-down filters over the raw
    records, each offering the distinct values found in the data. */
module Filtering {
  import opened Wrappers
  import opened Sequences
  import opened Text
  import opened Records

  /** The selection in each drop-down; "" is the "All" option. */
  datatype Filters = Filters(orientAffiliation: string, verdict: string)

  /** The two keys `handleFilterChange` accepts. */
  datatype FilterKey = AffiliationKey | VerdictKey

  /** The state the page starts in: both drop-downs on "All". */
  const NoFilters := Filters("", "")

  /** The selection a key names. */
  function Selected(f: Filters, key: FilterKey): string {
    match key
    case AffiliationKey => f.orientAffiliation
    case VerdictKey => f.verdict
  }

  /** The record field a key filters on. */
  function FieldOf(key: FilterKey): string {
    match key
    case AffiliationKey => OrientAffiliation
    case VerdictKey => Verdict
  }

  /** One drop-down's test: "All" lets every record through; otherwise the
      raw field, untrimmed, must be exactly the selected text, and a record
      without the field never is. */
  predicate MatchesValue(r: Record, name: string, selected: string) {
    selected == "" || Field(r, name) == Some(selected)
  }

  /** A record is shown when it passes both drop-downs. */
  predicate Matches(f: Filters, r: Record) {
    MatchesValue(r, OrientAffiliation, f.orientAffiliation)
    && MatchesValue(r, Verdict, f.verdict)
  }

  /** The filtered table: the matching records, in their original order. */
  function ApplyFilters(f: Filters, data: seq<Record>): (shown: seq<Record>)
    ensures |shown| <= |data|
    ensures forall i :: 0 <= i < |shown| ==> Matches(f, shown[i])
    ensures IsSubsequence(shown, data)
  {
    if |data| == 0 then []
    else if Matches(f, data[0]) then
      var rest := ApplyFilters(f, data[1..]);
      assert ([data[0]] + rest)[1..] == rest;
      [data[0]] + rest
    else ApplyFilters(f, data[1..])
  }

  /** `handleFilterChange`: set the drop-down `key` names to `value`. */
  function HandleFilterChange(f: Filters, key: FilterKey, value: string): (g: Filters)
    ensures Selected(g, key) == value
    ensures forall other :: other != key ==> Selected(g, other) == Selected(f, other)
  {
    match key
    case AffiliationKey => f.(orientAffiliation := value)
    case VerdictKey => f.(verdict := value)
  }

  /** The table keeps every copy of a matching record and no copy of any
      other: with the order kept (`ApplyFilters`'s own contract), this pins
      the result down. */
  lemma {:induction false} ApplyFiltersCounts(f: Filters, data: seq<Record>, r: Record)
    ensures multiset(ApplyFilters(f, data))[r]
         == if Matches(f, r) then multiset(data)[r] else 0
  {
    if |data| > 0 {
      ApplyFiltersCounts(f, data[1..], r);
      assert data == [data[0]] + data[1..];
    }
  }

  /** No matching subsequence of the data is longer than the table: every
      one of them is a subsequence of it. */
  lemma {:induction false} ApplyFiltersMaximal(f: Filters, s: seq<Record>, data: seq<Record>)
    requires IsSubsequence(s, data)
    requires forall i :: 0 <= i < |s| ==> Matches(f, s[i])
    ensures IsSubsequence(s, ApplyFilters(f, data))
  {
    if |s| > 0 {
      if s[0] == data[0] {
        ApplyFiltersMaximal(f, s[1..], data[1..]);
        var rest := ApplyFilters(f, data[1..]);
        assert ApplyFilters(f, data) == [data[0]] + rest;
        assert ([data[0]] + rest)[1..] == rest;
      } else {
        ApplyFiltersMaximal(f, s, data[1..]);
        if Matches(f, data[0]) {
          var rest := ApplyFilters(f, data[1..]);
          assert ApplyFilters(f, data) == [data[0]] + rest;
          assert ([data[0]] + rest)[1..] == rest;
        }
      }
    }
  }

  /** With both drop-downs on "All" the whole data set is shown. */
  lemma {:induction false} NoFiltersShowsAll(data: seq<Record>)
    ensures ApplyFilters(NoFilters, data) == data
  {
    if |data| > 0 {
      NoFiltersShowsAll(data[1..]);
      assert data == [data[0]] + data[1..];
    }
  }

  /** `g` asks for at least what `f` asks for: every drop-down `f` sets is
      set to the same value in `g`. */
  predicate Narrows(g: Filters, f: Filters) {
    (f.orientAffiliation == "" || f.orientAffiliation == g.orientAffiliation)
    && (f.verdict == "" || f.verdict == g.verdict)
  }

  /** Filtering by a narrower selection can be done on the already filtered
      table, and gives a subsequence of it. */
  lemma {:induction false} NarrowingFiltersFiltered(f: Filters, g: Filters, data: seq<Record>)
    requires Narrows(g, f)
    ensures ApplyFilters(g, data) == ApplyFilters(g, ApplyFilters(f, data))
    ensures IsSubsequence(ApplyFilters(g, data), ApplyFilters(f, data))
  {
    if |data| > 0 {
      NarrowingFiltersFiltered(f, g, data[1..]);
      var rest := ApplyFilters(f, data[1..]);
      if Matches(f, data[0]) {
        assert ApplyFilters(f, data) == [data[0]] + rest;
        assert ([data[0]] + rest)[1..] == rest;
      }
    }
  }

  /** Putting a drop-down back on "All" can only add rows: the table shown
      before is a subsequence of the one shown after. */
  lemma ClearingAFilterWidens(f: Filters, key: FilterKey, data: seq<Record>)
    ensures IsSubsequence(ApplyFilters(f, data),
                          ApplyFilters(HandleFilterChange(f, key, ""), data))
  {
    var g := HandleFilterChange(f, key, "");
    assert Narrows(f, g);
    NarrowingFiltersFiltered(g, f, data);
  }

  /** Applying the same selection twice shows the same table. */
  lemma ApplyFiltersIdempotent(f: Filters, data: seq<Record>)
    ensures ApplyFilters(f, ApplyFilters(f, data)) == ApplyFilters(f, data)
  {
    NarrowingFiltersFiltered(f, f, data);
  }

  /** The two drop-downs combine by conjunction: filtering on both at once
      is filtering on the affiliation, then on the verdict. */
  lemma {:induction false} FiltersCompose(f: Filters, data: seq<Record>)
    ensures ApplyFilters(f, data)
         == ApplyFilters(Filters("", f.verdict),
                         ApplyFilters(Filters(f.orientAffiliation, ""), data))
  {
    if |data| > 0 {
      FiltersCompose(f, data[1..]);
      var a := Filters(f.orientAffiliation, "");
      var rest := ApplyFilters(a, data[1..]);
      if Matches(a, data[0]) {
        assert ApplyFilters(a, data) == [data[0]] + rest;
        assert ([data[0]] + rest)[1..] == rest;
      }
    }
  }

  /** The filter compares the raw text while the aggregation pages compare
      the trimmed text: a record whose affiliation reads " Hamas" is counted
      under "Hamas" elsewhere but is hidden when "Hamas" is selected here. */
  lemma PaddedValueHidden(r: Record)
    requires Field(r, OrientAffiliation) == Some(" Hamas")
    ensures !Matches(Filters("Hamas", ""), r)
    ensures TrimmedField(r, OrientAffiliation) == Some("Hamas")
  {
    SpaceHamasTrims();
  }

  lemma SpaceHamasTrims()
    ensures Trim(" Hamas") == "Hamas"
  {
    assert " Hamas" == [' '] + "Hamas";
    TrimUnpadded("Hamas");
    TrimLeadingWhitespace(' ', "Hamas");
  }

  /** The raw values of field `name` across the data, `undefined` included. */
  function FieldValues(name: string, data: seq<Record>): seq<Option<string>> {
    seq(|data|, i requires 0 <= i < |data| => Field(data[i], name))
  }

  /** A drop-down's options: `[...new Set(data.map(item => item[name]))]`. */
  function OptionValues(name: string, data: seq<Record>): seq<Option<string>> {
    Distinct(FieldValues(name, data))
  }

  /** The options list each raw value once, every record's value is offered,
      nothing else is, and they come in order of first appearance. */
  lemma OptionValuesCorrect(name: string, data: seq<Record>)
    ensures var opts := OptionValues(name, data);
      && NoDuplicates(opts)
      && (forall i :: 0 <= i < |data| ==> Field(data[i], name) in opts)
      && (forall j :: 0 <= j < |opts| ==>
            exists i :: 0 <= i < |data| && Field(data[i], name) == opts[j])
      && InFirstAppearanceOrder(FieldValues(name, data), opts)
  {
    var vs := FieldValues(name, data);
    var opts := Distinct(vs);
    assert forall i :: 0 <= i < |data| ==> Field(data[i], name) == vs[i];
    forall j | 0 <= j < |opts|
      ensures exists i :: 0 <= i < |data| && Field(data[i], name) == opts[j]
    {
      var i :| 0 <= i < |vs| && vs[i] == opts[j];
      assert Field(data[i], name) == opts[j];
    }
    DistinctFirstAppearanceOrder(vs);
  }

  /** Picking any non-empty option of a drop-down (the other on "All")
      leaves at least one record in the table. */
  lemma SelectingAnOptionShowsARecord(key: FilterKey, data: seq<Record>, v: string)
    requires Some(v) in OptionValues(FieldOf(key), data)
    requires v != ""
    ensures |ApplyFilters(HandleFilterChange(NoFilters, key, v), data)| > 0
  {
    var name := FieldOf(key);
    var f := HandleFilterChange(NoFilters, key, v);
    OptionValuesCorrect(name, data);
    var opts := OptionValues(name, data);
    var j :| 0 <= j < |opts| && opts[j] == Some(v);
    var i :| 0 <= i < |data| && Field(data[i], name) == Some(v);
    assert Matches(f, data[i]);
    ApplyFiltersCounts(f, data, data[i]);
    assert data[i] in multiset(data);
  }
}
