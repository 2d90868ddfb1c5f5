/** The deaths timeline: records whose date of death parses, grouped by
    date and then by their raw "Orient claim", with a count per group. The
    date parser is a parameter: any function from text to an optional date
    value, where equal dates are equal values. */
module Timeline {
  import opened Wrappers
  import opened Sequences
  import opened Records
  import opened Tallies

  /** The raw "Orient claim" cell; `None` is `undefined`, which d3 groups
      like any other key. */
  type Claim = Option<string>

  /** One date's group: its claims with their counts, in order of first
      appearance among that date's records. */
  datatype Bucket<D> = Bucket(date: D, claims: seq<Entry<Claim>>)

  /** The text handed to the date parser. A missing cell reaches it as the
      text "undefined", since the parser converts its argument to a string. */
  function DateText(r: Record): string {
    match Field(r, DateOfDeath)
    case Some(s) => s
    case None => "undefined"
  }

  function ClaimOf(r: Record): Claim {
    Field(r, OrientClaim)
  }

  /** `claimsByDate`: the (date, claim) pair of every record whose date
      parses, in record order. */
  function Dated<D(==)>(parse: string -> Option<D>, records: seq<Record>): (ps: seq<(D, Claim)>)
    ensures |ps| <= |records|
  {
    if |records| == 0 then []
    else
      var n := |records| - 1;
      Dated(parse, records[..n])
        + match parse(DateText(records[n])) case None => [] case Some(d) => [(d, ClaimOf(records[n]))]
  }

  /** How many records have a date that parses to `d` and claim `c`. */
  function RecordsDatedAs<D(==)>(parse: string -> Option<D>, records: seq<Record>, d: D, c: Claim): nat {
    if |records| == 0 then 0
    else
      var n := |records| - 1;
      RecordsDatedAs(parse, records[..n], d, c)
        + if parse(DateText(records[n])) == Some(d) && ClaimOf(records[n]) == c then 1 else 0
  }

  /** How many records have a date that parses at all. */
  function RecordsDated<D(==)>(parse: string -> Option<D>, records: seq<Record>): nat {
    if |records| == 0 then 0
    else
      var n := |records| - 1;
      RecordsDated(parse, records[..n]) + if parse(DateText(records[n])).Some? then 1 else 0
  }

  /** The pairs are exactly the records with a parsing date: one pair per
      such record, and each pair taken from one. */
  lemma {:induction false} DatedCounts<D>(parse: string -> Option<D>, records: seq<Record>)
    ensures |Dated(parse, records)| == RecordsDated(parse, records)
    ensures forall d, c :: multiset(Dated(parse, records))[(d, c)] == RecordsDatedAs(parse, records, d, c)
  {
    if |records| > 0 {
      DatedCounts(parse, records[..|records| - 1]);
    }
  }

  /** Every pair comes from some record: its date parses to the pair's date
      and its claim is the pair's claim. */
  lemma {:induction false} DatedFromRecords<D>(parse: string -> Option<D>, records: seq<Record>, k: nat)
    requires k < |Dated(parse, records)|
    ensures exists i :: (0 <= i < |records|
      && parse(DateText(records[i])) == Some(Dated(parse, records)[k].0)
      && ClaimOf(records[i]) == Dated(parse, records)[k].1)
  {
    var n := |records| - 1;
    var p := Dated(parse, records[..n]);
    if k < |p| {
      DatedFromRecords(parse, records[..n], k);
      var i :| 0 <= i < n
        && parse(DateText(records[..n][i])) == Some(p[k].0)
        && ClaimOf(records[..n][i]) == p[k].1;
      assert records[..n][i] == records[i];
    } else {
      assert parse(DateText(records[n])).Some?;
    }
  }

  function Dates<D>(b: seq<Bucket<D>>): seq<D> {
    seq(|b|, i requires 0 <= i < |b| => b[i].date)
  }

  lemma DatesAt<D>(b: seq<Bucket<D>>)
    ensures |Dates(b)| == |b|
    ensures forall i :: 0 <= i < |b| ==> Dates(b)[i] == b[i].date
  {
  }

  function Firsts<D>(ps: seq<(D, Claim)>): seq<D> {
    seq(|ps|, i requires 0 <= i < |ps| => ps[i].0)
  }

  /** The claims of the pairs dated `d`, in order. */
  function ClaimsOn<D(==)>(ps: seq<(D, Claim)>, d: D): seq<Claim> {
    if |ps| == 0 then []
    else
      var n := |ps| - 1;
      ClaimsOn(ps[..n], d) + if ps[n].0 == d then [ps[n].1] else []
  }

  /** The position of date `d`'s bucket, if it has one. */
  function IndexOfDate<D(==)>(b: seq<Bucket<D>>, d: D): (r: Option<nat>)
    ensures r.Some? ==> r.value < |b| && b[r.value].date == d
    ensures r.None? ==> d !in Dates(b)
  {
    if |b| == 0 then None
    else if b[0].date == d then Some(0)
    else
      match IndexOfDate(b[1..], d)
      case None =>
        assert Dates(b) == [b[0].date] + Dates(b[1..]);
        None
      case Some(i) => Some(i + 1)
  }

  /** One step of the grouping: count claim `c` in date `d`'s bucket,
      opening the bucket at the end if the date is new. */
  function AddPair<D(==)>(b: seq<Bucket<D>>, d: D, c: Claim): seq<Bucket<D>> {
    match IndexOfDate(b, d)
    case Some(i) => b[i := Bucket(d, Bump(b[i].claims, c))]
    case None => b + [Bucket(d, Bump([], c))]
  }

  /** `d3.rollups(claimsByDate, v => v.length, d => d.Date,
      d => d["Orient claim"])`. */
  function Rollup<D(==)>(ps: seq<(D, Claim)>): seq<Bucket<D>> {
    if |ps| == 0 then []
    else
      var n := |ps| - 1;
      AddPair(Rollup(ps[..n]), ps[n].0, ps[n].1)
  }

  /** `deathsByDateAndClaim` for the loaded records. */
  function DeathsByDateAndClaim<D(==)>(parse: string -> Option<D>, records: seq<Record>): seq<Bucket<D>> {
    Rollup(Dated(parse, records))
  }

  lemma DatesAddPair<D>(b: seq<Bucket<D>>, d: D, c: Claim)
    ensures Dates(AddPair(b, d, c)) == if d in Dates(b) then Dates(b) else Dates(b) + [d]
  {
    DatesAt(b);
    DatesAt(AddPair(b, d, c));
    match IndexOfDate(b, d)
    case Some(i) => {
      assert Dates(AddPair(b, d, c)) == Dates(b);
    }
    case None => {
      assert Dates(AddPair(b, d, c)) == Dates(b) + [d];
    }
  }

  lemma RollupDatesStep<D>(b: seq<Bucket<D>>, p: seq<(D, Claim)>, d: D, c: Claim)
    requires Dates(b) == Distinct(Firsts(p))
    ensures Dates(AddPair(b, d, c)) == Distinct(Firsts(p + [(d, c)]))
  {
    DatesAddPair(b, d, c);
    var fs := Firsts(p + [(d, c)]);
    assert fs[..|p|] == Firsts(p);
    assert fs[|p|] == d;
  }

  /** One bucket per distinct date, in order of first appearance. */
  lemma {:induction false} RollupDates<D>(ps: seq<(D, Claim)>)
    ensures Dates(Rollup(ps)) == Distinct(Firsts(ps))
  {
    if |ps| > 0 {
      var n := |ps| - 1;
      RollupDates(ps[..n]);
      assert ps == ps[..n] + [(ps[n].0, ps[n].1)];
      RollupDatesStep(Rollup(ps[..n]), ps[..n], ps[n].0, ps[n].1);
    }
  }

  lemma ClaimsOnSnoc<D>(ps: seq<(D, Claim)>, p: (D, Claim), d: D)
    ensures ClaimsOn(ps + [p], d) == ClaimsOn(ps, d) + if p.0 == d then [p.1] else []
  {
    assert (ps + [p])[..|ps|] == ps;
  }

  /** A date no pair carries has no claims. */
  lemma {:induction false} ClaimsOnAbsent<D>(ps: seq<(D, Claim)>, d: D)
    requires d !in Firsts(ps)
    ensures ClaimsOn(ps, d) == []
  {
    if |ps| > 0 {
      var n := |ps| - 1;
      assert Firsts(ps[..n]) == Firsts(ps)[..n];
      ClaimsOnAbsent(ps[..n], d);
      assert Firsts(ps)[n] == ps[n].0;
    }
  }

  /** The buckets of `b` are the tallies of their dates' claims in `p`. */
  predicate TalliesClaims<D(==)>(b: seq<Bucket<D>>, p: seq<(D, Claim)>) {
    forall i :: 0 <= i < |b| ==> b[i].claims == Tally(ClaimsOn(p, b[i].date))
  }

  lemma AddPairExisting<D>(b: seq<Bucket<D>>, p: seq<(D, Claim)>, d: D, c: Claim, i: nat)
    requires TalliesClaims(b, p)
    requires NoDuplicates(Dates(b))
    requires IndexOfDate(b, d) == Some(i)
    ensures TalliesClaims(AddPair(b, d, c), p + [(d, c)])
  {
    var b' := AddPair(b, d, c);
    assert b' == b[i := Bucket(d, Bump(b[i].claims, c))];
    forall j | 0 <= j < |b'| ensures b'[j].claims == Tally(ClaimsOn(p + [(d, c)], b'[j].date)) {
      var e := b'[j].date;
      ClaimsOnSnoc(p, (d, c), e);
      if j == i {
        assert b[i].claims == Tally(ClaimsOn(p, d));
        TallySnoc(ClaimsOn(p, d), c);
      } else {
        assert b'[j] == b[j];
        assert Dates(b)[j] != Dates(b)[i];
        assert ClaimsOn(p + [(d, c)], e) == ClaimsOn(p, e) + [];
        assert ClaimsOn(p, e) + [] == ClaimsOn(p, e);
      }
    }
  }

  lemma AddPairNew<D>(b: seq<Bucket<D>>, p: seq<(D, Claim)>, d: D, c: Claim)
    requires TalliesClaims(b, p)
    requires Dates(b) == Distinct(Firsts(p))
    requires IndexOfDate(b, d).None?
    ensures TalliesClaims(AddPair(b, d, c), p + [(d, c)])
  {
    var b' := AddPair(b, d, c);
    assert b' == b + [Bucket(d, Bump([], c))];
    forall j | 0 <= j < |b'| ensures b'[j].claims == Tally(ClaimsOn(p + [(d, c)], b'[j].date)) {
      var e := b'[j].date;
      ClaimsOnSnoc(p, (d, c), e);
      if j < |b| {
        assert b'[j] == b[j];
        assert Dates(b)[j] == e;
        assert e != d;
        assert ClaimsOn(p + [(d, c)], e) == ClaimsOn(p, e) + [];
        assert ClaimsOn(p, e) + [] == ClaimsOn(p, e);
      } else {
        assert d !in Firsts(p);
        ClaimsOnAbsent(p, d);
        TallySnoc([], c);
        assert ClaimsOn(p + [(d, c)], d) == [] + [c];
      }
    }
  }

  /** Each bucket is the tally of its date's claims. */
  lemma {:induction false} RollupClaims<D>(ps: seq<(D, Claim)>)
    ensures TalliesClaims(Rollup(ps), ps)
  {
    if |ps| > 0 {
      var n := |ps| - 1;
      var p, d, c := ps[..n], ps[n].0, ps[n].1;
      assert ps == p + [(d, c)];
      RollupClaims(p);
      RollupDates(p);
      assert Rollup(ps) == AddPair(Rollup(p), d, c);
      match IndexOfDate(Rollup(p), d)
      case Some(i) => AddPairExisting(Rollup(p), p, d, c, i);
      case None => AddPairNew(Rollup(p), p, d, c);
    }
  }

  /** Each copy of the pair (d, c) is one claim on date d. */
  lemma {:induction false} ClaimsOnCount<D>(ps: seq<(D, Claim)>, d: D, c: Claim)
    ensures multiset(ClaimsOn(ps, d))[c] == multiset(ps)[(d, c)]
  {
    if |ps| > 0 {
      var n := |ps| - 1;
      ClaimsOnCount(ps[..n], d, c);
      assert ps == ps[..n] + [ps[n]];
    }
  }

  /** Each claim on date d is the claim of some pair dated d. */
  lemma {:induction false} ClaimsOnFromPairs<D>(ps: seq<(D, Claim)>, d: D, k: nat)
    requires k < |ClaimsOn(ps, d)|
    ensures exists i :: 0 <= i < |ps| && ps[i] == (d, ClaimsOn(ps, d)[k])
  {
    var n := |ps| - 1;
    var q := ClaimsOn(ps[..n], d);
    if k < |q| {
      ClaimsOnFromPairs(ps[..n], d, k);
      var i :| 0 <= i < n && ps[..n][i] == (d, q[k]);
      assert ps[i] == ps[..n][i];
    } else {
      assert ps[n] == (d, ClaimsOn(ps, d)[k]);
    }
  }

  /** All counts of all buckets added up: the number of bars' deaths. */
  function GrandTotal<D>(b: seq<Bucket<D>>): nat {
    if |b| == 0 then 0 else GrandTotal(b[..|b| - 1]) + Total(b[|b| - 1].claims)
  }

  lemma {:induction false} GrandTotalUpdate<D>(b: seq<Bucket<D>>, i: nat, x: Bucket<D>)
    requires i < |b|
    ensures GrandTotal(b[i := x]) == GrandTotal(b) - Total(b[i].claims) + Total(x.claims)
  {
    var n := |b| - 1;
    if i < n {
      GrandTotalUpdate(b[..n], i, x);
      assert b[i := x][..n] == b[..n][i := x];
    } else {
      assert b[i := x][..n] == b[..n];
    }
  }

  lemma GrandTotalAppend<D>(b: seq<Bucket<D>>, x: Bucket<D>)
    ensures GrandTotal(b + [x]) == GrandTotal(b) + Total(x.claims)
  {
    assert (b + [x])[..|b|] == b;
  }

  /** Every pair is counted exactly once. */
  lemma {:induction false} RollupTotal<D>(ps: seq<(D, Claim)>)
    ensures GrandTotal(Rollup(ps)) == |ps|
  {
    if |ps| > 0 {
      var n := |ps| - 1;
      var b, d, c := Rollup(ps[..n]), ps[n].0, ps[n].1;
      RollupTotal(ps[..n]);
      match IndexOfDate(b, d)
      case Some(i) => {
        BumpTotal(b[i].claims, c);
        GrandTotalUpdate(b, i, Bucket(d, Bump(b[i].claims, c)));
      }
      case None => {
        BumpTotal([], c);
        GrandTotalAppend(b, Bucket(d, Bump([], c)));
      }
    }
  }

  /** The timeline has one bucket per distinct parsed date in order of first
      appearance; within a bucket one bar per distinct claim among that
      date's records, and a bar for every such claim, counting exactly
      those records (so never zero); and the bars add up to the number of
      records whose date parses. */
  lemma TimelineCorrect<D>(parse: string -> Option<D>, records: seq<Record>)
    ensures var b := DeathsByDateAndClaim(parse, records);
      && Dates(b) == Distinct(Firsts(Dated(parse, records)))
      && (forall i :: 0 <= i < |b| ==> NoDuplicates(Keys(b[i].claims)))
      && (forall i, j :: 0 <= i < |b| && 0 <= j < |b[i].claims| ==>
            b[i].claims[j].count
              == RecordsDatedAs(parse, records, b[i].date, b[i].claims[j].key) >= 1)
      && (forall i, c :: 0 <= i < |b| ==>
            (RecordsDatedAs(parse, records, b[i].date, c) > 0
             <==> (exists j :: 0 <= j < |b[i].claims| && b[i].claims[j].key == c)))
      && GrandTotal(b) == RecordsDated(parse, records)
  {
    var ps := Dated(parse, records);
    RollupDates(ps);
    RollupTotal(ps);
    DatedCounts(parse, records);
    BarsCountRecords(parse, records);
    BarsCoverRecords(parse, records);
  }

  /** Within each date's group every claim appears once, and its bar
      counts the records with that date and claim. */
  lemma BarsCountRecords<D>(parse: string -> Option<D>, records: seq<Record>)
    ensures var b := DeathsByDateAndClaim(parse, records);
      && (forall i :: 0 <= i < |b| ==> NoDuplicates(Keys(b[i].claims)))
      && (forall i, j :: 0 <= i < |b| && 0 <= j < |b[i].claims| ==>
            b[i].claims[j].count
              == RecordsDatedAs(parse, records, b[i].date, b[i].claims[j].key) >= 1)
  {
    var ps := Dated(parse, records);
    var b := Rollup(ps);
    RollupBars(ps, b);
    DatedCounts(parse, records);
    forall i, j | 0 <= i < |b| && 0 <= j < |b[i].claims|
      ensures b[i].claims[j].count
              == RecordsDatedAs(parse, records, b[i].date, b[i].claims[j].key) >= 1
    {
      var d, c := b[i].date, b[i].claims[j].key;
      assert b[i].claims[j].count == multiset(ps)[(d, c)] >= 1;
      assert multiset(ps)[(d, c)] == RecordsDatedAs(parse, records, d, c);
    }
  }

  /** A date's group has a bar for a claim exactly when some record with
      that date carries that claim. */
  lemma BarsCoverRecords<D>(parse: string -> Option<D>, records: seq<Record>)
    ensures var b := DeathsByDateAndClaim(parse, records);
      forall i, c :: 0 <= i < |b| ==>
        (RecordsDatedAs(parse, records, b[i].date, c) > 0
         <==> (exists j :: 0 <= j < |b[i].claims| && b[i].claims[j].key == c))
  {
    var ps := Dated(parse, records);
    var b := Rollup(ps);
    RollupBars(ps, b);
    DatedCounts(parse, records);
    forall i, c | 0 <= i < |b|
      ensures RecordsDatedAs(parse, records, b[i].date, c) > 0
              <==> (exists j :: 0 <= j < |b[i].claims| && b[i].claims[j].key == c)
    {
      var d := b[i].date;
      assert multiset(ps)[(d, c)] > 0
             <==> (exists j :: 0 <= j < |b[i].claims| && b[i].claims[j].key == c);
      assert multiset(ps)[(d, c)] == RecordsDatedAs(parse, records, d, c);
    }
  }

  /** Every bucket of the rollup holds each of its date's claims once,
      counted by its pairs, and a bar for every claim some pair carries. */
  lemma RollupBars<D>(ps: seq<(D, Claim)>, b: seq<Bucket<D>>)
    requires b == Rollup(ps)
    ensures && (forall i :: 0 <= i < |b| ==> NoDuplicates(Keys(b[i].claims)))
      && (forall i, j :: 0 <= i < |b| && 0 <= j < |b[i].claims| ==>
            b[i].claims[j].count == multiset(ps)[(b[i].date, b[i].claims[j].key)] >= 1)
      && (forall i, c :: 0 <= i < |b| ==>
            (multiset(ps)[(b[i].date, c)] > 0
             <==> (exists j :: 0 <= j < |b[i].claims| && b[i].claims[j].key == c)))
  {
    RollupClaims(ps);
    forall i | 0 <= i < |b|
      ensures NoDuplicates(Keys(b[i].claims))
      ensures forall j :: 0 <= j < |b[i].claims| ==>
        b[i].claims[j].count == multiset(ps)[(b[i].date, b[i].claims[j].key)] >= 1
      ensures forall c :: (multiset(ps)[(b[i].date, c)] > 0
                           <==> (exists j :: 0 <= j < |b[i].claims| && b[i].claims[j].key == c))
    {
      ClaimsTally(ps, b[i].date, b[i].claims);
    }
  }

  /** A date's tally of claims: each claim once, counted by its pairs, and
      listed exactly when some pair carries it. */
  lemma ClaimsTally<D>(ps: seq<(D, Claim)>, d: D, t: seq<Entry<Claim>>)
    requires t == Tally(ClaimsOn(ps, d))
    ensures NoDuplicates(Keys(t))
    ensures forall j :: 0 <= j < |t| ==> t[j].count == multiset(ps)[(d, t[j].key)] >= 1
    ensures forall c :: multiset(ps)[(d, c)] > 0 <==> exists j :: 0 <= j < |t| && t[j].key == c
  {
    var cs := ClaimsOn(ps, d);
    TallyKeys(cs);
    TallyCounts(cs);
    PermutedTallyCovers(cs, t);
    forall c ensures multiset(cs)[c] == multiset(ps)[(d, c)] {
      ClaimsOnCount(ps, d, c);
    }
  }

  /** The larger of two optional maxima, ignoring a missing one as
      `d3.max` ignores `undefined`. */
  function MaxOf(a: Option<nat>, b: Option<nat>): Option<nat> {
    match (a, b)
    case (None, _) => b
    case (_, None) => a
    case (Some(x), Some(y)) => Some(if x < y then y else x)
  }

  /** `d3.max(claims, d => d[1])`. */
  function MaxCount(t: seq<Entry<Claim>>): (m: Option<nat>)
    ensures m.None? <==> |t| == 0
    ensures m.Some? ==> forall j :: 0 <= j < |t| ==> t[j].count <= m.value
    ensures m.Some? ==> exists j :: 0 <= j < |t| && t[j].count == m.value
  {
    if |t| == 0 then None
    else
      var n := |t| - 1;
      var m := MaxOf(MaxCount(t[..n]), Some(t[n].count));
      assert forall j :: 0 <= j < n ==> t[..n][j] == t[j];
      m
  }

  /** The top of the y domain: the largest count of any bar, or none when
      there are no bars at all. */
  function YMax<D>(b: seq<Bucket<D>>): (m: Option<nat>)
    ensures m.None? <==> forall i :: 0 <= i < |b| ==> |b[i].claims| == 0
    ensures m.Some? ==> forall i, j :: 0 <= i < |b| && 0 <= j < |b[i].claims| ==>
      b[i].claims[j].count <= m.value
    ensures m.Some? ==> exists i, j :: (0 <= i < |b| && 0 <= j < |b[i].claims| &&
      b[i].claims[j].count == m.value)
  {
    if |b| == 0 then None
    else
      var n := |b| - 1;
      assert forall i :: 0 <= i < n ==> b[..n][i] == b[i];
      MaxOf(YMax(b[..n]), MaxCount(b[n].claims))
  }

  /** Buckets adding up to something have a bar. */
  lemma {:induction false} GrandTotalHasBar<D>(b: seq<Bucket<D>>)
    requires GrandTotal(b) > 0
    ensures exists i :: 0 <= i < |b| && |b[i].claims| > 0
  {
    var n := |b| - 1;
    if |b[n].claims| == 0 {
      assert Total(b[n].claims) == 0;
      GrandTotalHasBar(b[..n]);
      var i :| 0 <= i < n && |b[..n][i].claims| > 0;
      assert b[..n][i] == b[i];
    }
  }

  /** The y axis has a top exactly when some record's date parses. */
  lemma YMaxDefinedIff<D>(parse: string -> Option<D>, records: seq<Record>)
    ensures YMax(DeathsByDateAndClaim(parse, records)).Some? <==> RecordsDated(parse, records) > 0
  {
    var ps := Dated(parse, records);
    RollupTotal(ps);
    DatedCounts(parse, records);
    if |ps| > 0 {
      GrandTotalHasBar(Rollup(ps));
    }
  }

  /** The colour scale's domain and the legend:
      `[...new Set(data.map(d => d["Orient claim"]))]`, over every record,
      dated or not. */
  function ColorDomain(records: seq<Record>): seq<Claim> {
    Distinct(seq(|records|, i requires 0 <= i < |records| => ClaimOf(records[i])))
  }

  /** Every bar's claim has a colour and a legend entry, and the legend
      lists each claim once. */
  lemma BarsHaveColors<D>(parse: string -> Option<D>, records: seq<Record>)
    ensures NoDuplicates(ColorDomain(records))
    ensures var b := DeathsByDateAndClaim(parse, records);
      forall i, j :: 0 <= i < |b| && 0 <= j < |b[i].claims| ==>
        b[i].claims[j].key in ColorDomain(records)
  {
    var ps := Dated(parse, records);
    var b := Rollup(ps);
    var all := seq(|records|, i requires 0 <= i < |records| => ClaimOf(records[i]));
    RollupClaims(ps);
    forall i, j | 0 <= i < |b| && 0 <= j < |b[i].claims|
      ensures b[i].claims[j].key in ColorDomain(records)
    {
      var cs := ClaimsOn(ps, b[i].date);
      TallyKeys(cs);
      assert Keys(b[i].claims)[j] == b[i].claims[j].key;
      var k :| 0 <= k < |cs| && cs[k] == b[i].claims[j].key;
      ClaimsOnFromPairs(ps, b[i].date, k);
      var q :| 0 <= q < |ps| && ps[q] == (b[i].date, cs[k]);
      DatedFromRecords(parse, records, q);
      var r :| 0 <= r < |records| && ClaimOf(records[r]) == ps[q].1;
      assert all[r] == cs[k];
    }
  }
}
