/** The parsed CSV rows every page works on, and the "trim, then skip if
    blank" reading of one field that all the aggregations share. */
module Records {
  import opened Wrappers
  import opened Text

  /** One parsed CSV row: header name to cell text. A header the row lacks is
      absent from the map, as the parser leaves it `undefined`. */
  type Record = map<string, string>

  const OrientAffiliation: string := "Orient Affiliation"
  const Verdict: string := "Verdict"
  const DateOfDeath: string := "Date of death"
  const OrientClaim: string := "Orient claim"

  /** `r[name]`: the cell, or `None` for `undefined`. */
  function Field(r: Record, name: string): Option<string> {
    if name in r then Some(r[name]) else None
  }

  /** `r[name]?.trim()` where the result is truthy: `None` for a missing
      cell and for one holding only whitespace. */
  function TrimmedField(r: Record, name: string): (v: Option<string>)
    ensures v.Some? <==> name in r && !AllWhitespace(r[name])
    ensures v.Some? ==> v.value == Trim(r[name]) && |v.value| > 0
  {
    match Field(r, name)
    case None => None
    case Some(s) =>
      TrimIsBlankIff(s);
      var t := Trim(s);
      if t == [] then None else Some(t)
  }

  /** The non-blank trimmed values of field `name`, in record order: the
      keys an aggregation loop actually acts on. */
  function PresentValues(name: string, records: seq<Record>): (vs: seq<string>)
    ensures |vs| <= |records|
    ensures forall i :: 0 <= i < |vs| ==> |vs[i]| > 0
  {
    if |records| == 0 then []
    else
      var n := |records| - 1;
      PresentValues(name, records[..n])
        + match TrimmedField(records[n], name) case None => [] case Some(v) => [v]
  }

  /** The trimmed, non-blank "Orient Affiliation" texts the loss and claim
      summaries are built from. */
  function Affiliations(records: seq<Record>): seq<string> {
    PresentValues(OrientAffiliation, records)
  }

  /** How many records have non-blank trimmed field `name` equal to `v`. */
  function RecordsWithValue(name: string, records: seq<Record>, v: string): nat {
    if |records| == 0 then 0
    else
      var n := |records| - 1;
      RecordsWithValue(name, records[..n], v) + if TrimmedField(records[n], name) == Some(v) then 1 else 0
  }

  /** How many records have a non-blank trimmed field `name`. */
  function RecordsWithAnyValue(name: string, records: seq<Record>): nat {
    if |records| == 0 then 0
    else
      var n := |records| - 1;
      RecordsWithAnyValue(name, records[..n]) + if TrimmedField(records[n], name).Some? then 1 else 0
  }

  /** The values acted on are exactly the records' non-blank trimmed cells:
      each value occurs once per record carrying it. */
  lemma {:induction false} PresentValuesCounts(name: string, records: seq<Record>)
    ensures |PresentValues(name, records)| == RecordsWithAnyValue(name, records)
    ensures forall v :: multiset(PresentValues(name, records))[v] == RecordsWithValue(name, records, v)
  {
    if |records| > 0 {
      PresentValuesCounts(name, records[..|records| - 1]);
    }
  }

  /** A record whose field is missing or blank changes nothing downstream. */
  lemma BlankRecordIgnored(name: string, records: seq<Record>, r: Record)
    requires TrimmedField(r, name).None?
    ensures PresentValues(name, records + [r]) == PresentValues(name, records)
  {
    assert (records + [r])[..|records|] == records;
  }
}
