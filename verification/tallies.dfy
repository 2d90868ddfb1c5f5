/** Counting occurrences per distinct key the way the pages do it: a record
    object keyed by the value, filled in one `forEach` pass, read back with
    `Object.values` in the order keys were first added. */
module Tallies {
  import opened Wrappers
  import opened Sequences

  datatype Entry<K> = Entry(key: K, count: nat)

  function Keys<K>(t: seq<Entry<K>>): seq<K> {
    seq(|t|, i requires 0 <= i < |t| => t[i].key)
  }

  lemma KeysAt<K>(t: seq<Entry<K>>)
    ensures |Keys(t)| == |t|
    ensures forall i :: 0 <= i < |t| ==> Keys(t)[i] == t[i].key
  {
  }

  /** Sum of the counts. */
  function Total<K>(t: seq<Entry<K>>): nat {
    if |t| == 0 then 0 else Total(t[..|t| - 1]) + t[|t| - 1].count
  }

  /** Position of the entry for `k`, if there is one. */
  function IndexOf<K(==)>(t: seq<Entry<K>>, k: K): (r: Option<nat>)
    ensures r.Some? ==> r.value < |t| && t[r.value].key == k
    ensures r.None? ==> k !in Keys(t)
  {
    if |t| == 0 then None
    else if t[0].key == k then Some(0)
    else
      match IndexOf(t[1..], k)
      case None =>
        assert Keys(t) == [t[0].key] + Keys(t[1..]);
        None
      case Some(i) => Some(i + 1)
  }

  /** One loop step: create the entry for `k` with count 0 if it is missing,
      then add one to its count. */
  function Bump<K(==)>(t: seq<Entry<K>>, k: K): seq<Entry<K>> {
    var (t', i) := match IndexOf(t, k)
      case Some(i) => (t, i)
      case None => (t + [Entry(k, 0)], |t|);
    t'[i := Entry(t'[i].key, t'[i].count + 1)]
  }

  /** The tally of `ks`, one `Bump` per value in order. */
  function Tally<K(==)>(ks: seq<K>): seq<Entry<K>> {
    if |ks| == 0 then [] else Bump(Tally(ks[..|ks| - 1]), ks[|ks| - 1])
  }

  lemma {:induction false} TotalUpdate<K>(t: seq<Entry<K>>, i: nat, e: Entry<K>)
    requires i < |t|
    ensures Total(t[i := e]) == Total(t) - t[i].count + e.count
  {
    var n := |t| - 1;
    if i < n {
      TotalUpdate(t[..n], i, e);
      assert t[i := e][..n] == t[..n][i := e];
    } else {
      assert t[i := e][..n] == t[..n];
    }
  }

  lemma TotalAppend<K>(t: seq<Entry<K>>, e: Entry<K>)
    ensures Total(t + [e]) == Total(t) + e.count
  {
    assert (t + [e])[..|t|] == t;
  }

  /** What one step does to the keys: a known key leaves them alone, a new
      one is appended. */
  lemma BumpKeys<K>(t: seq<Entry<K>>, k: K)
    ensures Keys(Bump(t, k)) == if k in Keys(t) then Keys(t) else Keys(t) + [k]
  {
    KeysAt(t);
    KeysAt(Bump(t, k));
    match IndexOf(t, k)
    case Some(i) => {
      assert Keys(Bump(t, k)) == Keys(t);
    }
    case None => {
      assert Keys(Bump(t, k)) == Keys(t) + [k];
    }
  }

  /** The tally has one entry per distinct value, in order of first
      appearance. */
  lemma {:induction false} TallyKeys<K>(ks: seq<K>)
    ensures Keys(Tally(ks)) == Distinct(ks)
  {
    if |ks| > 0 {
      var n := |ks| - 1;
      TallyKeys(ks[..n]);
      BumpKeys(Tally(ks[..n]), ks[n]);
    }
  }

  /** Each count is the number of occurrences of its key, hence at least
      one. */
  lemma {:induction false} TallyCounts<K>(ks: seq<K>)
    ensures forall i :: 0 <= i < |Tally(ks)| ==>
      Tally(ks)[i].count == multiset(ks)[Tally(ks)[i].key] >= 1
  {
    if |ks| > 0 {
      var n := |ks| - 1;
      var p, k := ks[..n], ks[n];
      assert ks == p + [k];
      TallyCounts(p);
      TallyKeys(p);
      BumpCounts(Tally(p), p, k);
    }
  }

  /** One step of the fold keeps every count equal to its key's
      occurrences. */
  lemma BumpCounts<K>(t: seq<Entry<K>>, p: seq<K>, k: K)
    requires forall i :: 0 <= i < |t| ==> t[i].count == multiset(p)[t[i].key] >= 1
    requires Keys(t) == Distinct(p)
    ensures var t' := Bump(t, k);
      forall j :: 0 <= j < |t'| ==> t'[j].count == multiset(p + [k])[t'[j].key] >= 1
  {
    assert NoDuplicates(Keys(t));
    assert forall x :: multiset(p + [k])[x] == multiset(p)[x] + if x == k then 1 else 0;
    match IndexOf(t, k)
    case Some(i) => BumpCountsExisting(t, p, k, i);
    case None => {
      assert k !in p;
      BumpCountsNew(t, p, k);
    }
  }

  lemma BumpCountsExisting<K>(t: seq<Entry<K>>, p: seq<K>, k: K, i: nat)
    requires forall j :: 0 <= j < |t| ==> t[j].count == multiset(p)[t[j].key] >= 1
    requires NoDuplicates(Keys(t))
    requires IndexOf(t, k) == Some(i)
    requires forall x :: multiset(p + [k])[x] == multiset(p)[x] + if x == k then 1 else 0
    ensures var t' := Bump(t, k);
      forall j :: 0 <= j < |t'| ==> t'[j].count == multiset(p + [k])[t'[j].key] >= 1
  {
    var t' := Bump(t, k);
    assert t' == t[i := Entry(k, t[i].count + 1)];
    forall j | 0 <= j < |t'| ensures t'[j].count == multiset(p + [k])[t'[j].key] >= 1 {
      if j != i {
        assert Keys(t)[j] != Keys(t)[i];
      }
    }
  }

  lemma BumpCountsNew<K>(t: seq<Entry<K>>, p: seq<K>, k: K)
    requires forall j :: 0 <= j < |t| ==> t[j].count == multiset(p)[t[j].key] >= 1
    requires IndexOf(t, k).None? && k !in p
    requires forall x :: multiset(p + [k])[x] == multiset(p)[x] + if x == k then 1 else 0
    ensures var t' := Bump(t, k);
      forall j :: 0 <= j < |t'| ==> t'[j].count == multiset(p + [k])[t'[j].key] >= 1
  {
    var t' := Bump(t, k);
    assert t' == t + [Entry(k, 1)];
    forall j | 0 <= j < |t'| ensures t'[j].count == multiset(p + [k])[t'[j].key] >= 1 {
      if j < |t| {
        assert Keys(t)[j] == t[j].key;
        assert t[j].key != k;
      }
    }
  }

  /** Tallying one more value is one more step of the fold. */
  lemma TallySnoc<K>(ks: seq<K>, k: K)
    ensures Tally(ks + [k]) == Bump(Tally(ks), k)
  {
    assert (ks + [k])[..|ks|] == ks;
  }

  /** One step adds exactly one to the total. */
  lemma BumpTotal<K>(t: seq<Entry<K>>, k: K)
    ensures Total(Bump(t, k)) == Total(t) + 1
  {
    match IndexOf(t, k)
    case Some(i) => {
      TotalUpdate(t, i, Entry(k, t[i].count + 1));
    }
    case None => {
      TotalAppend(t, Entry(k, 0));
      TotalUpdate(t + [Entry(k, 0)], |t|, Entry(k, 1));
    }
  }

  /** The counts add up to the number of values tallied. */
  lemma {:induction false} TallyTotal<K>(ks: seq<K>)
    ensures Total(Tally(ks)) == |ks|
  {
    if |ks| > 0 {
      var n := |ks| - 1;
      TallyTotal(ks[..n]);
      BumpTotal(Tally(ks[..n]), ks[n]);
    }
  }

  /** Any reordering of a tally still counts each value's occurrences. */
  lemma PermutedTallyCounts<K>(ks: seq<K>, r: seq<Entry<K>>)
    requires multiset(r) == multiset(Tally(ks))
    ensures forall i :: 0 <= i < |r| ==> r[i].count == multiset(ks)[r[i].key] >= 1
  {
    var t := Tally(ks);
    TallyCounts(ks);
    forall i | 0 <= i < |r| ensures r[i].count == multiset(ks)[r[i].key] >= 1 {
      assert r[i] in multiset(r);
      assert r[i] in multiset(t);
      var a :| 0 <= a < |t| && t[a] == r[i];
    }
  }

  /** Any reordering of a tally has a row exactly for the values that
      occur. */
  lemma PermutedTallyCovers<K>(ks: seq<K>, r: seq<Entry<K>>)
    requires multiset(r) == multiset(Tally(ks))
    ensures forall k :: multiset(ks)[k] > 0 <==> exists i :: 0 <= i < |r| && r[i].key == k
  {
    var t := Tally(ks);
    TallyKeys(ks);
    forall k | multiset(ks)[k] > 0 ensures exists i :: 0 <= i < |r| && r[i].key == k {
      assert k in ks;
      assert k in Distinct(ks);
      var a :| 0 <= a < |t| && Keys(t)[a] == k;
      assert t[a] in multiset(t);
      assert t[a] in multiset(r);
      var i :| 0 <= i < |r| && r[i] == t[a];
      assert r[i].key == k;
    }
    forall k | exists i :: 0 <= i < |r| && r[i].key == k ensures multiset(ks)[k] > 0 {
      var i :| 0 <= i < |r| && r[i].key == k;
      PermutedTallyCounts(ks, r);
      assert r[i].count == multiset(ks)[k];
    }
  }
}
