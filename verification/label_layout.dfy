/** Placement of the outside labels of the affiliation-losses pie: initial
    anchors spread around each slice, then one top-to-bottom sweep that
    pushes a label down until it sits at least `Spacing` below the previous
    one. Coordinates are exact reals. */
module LabelLayout {

  datatype Point = Point(x: real, y: real)

  /** Minimum vertical distance between consecutive labels. */
  const Spacing: real := 20.0

  /** Initial anchors. `centroids[i]` is the label-arc centroid of slice
      `i` and `onRight[i]` says whether the slice's mid angle is below pi.
      The label goes to 1.1 radii right or left, and its y is shifted by
      `i * 20 - n * 10`. */
  function InitialLabelPositions(centroids: seq<Point>, onRight: seq<bool>, radius: real): seq<Point>
    requires |onRight| == |centroids|
  {
    var n := |centroids|;
    seq(n, i requires 0 <= i < n =>
      Point(radius * 1.1 * (if onRight[i] then 1.0 else -1.0),
            centroids[i].y + (i * 20 - n * 10) as real))
  }

  /** One anchor per slice, at 1.1 radii to the right of the centre for a
      slice whose mid angle is below pi and to the left otherwise;
      consecutive anchors are 20 apart plus however far apart the centroids
      are; the first sits `10 * n` above its centroid. */
  lemma InitialOffsets(centroids: seq<Point>, onRight: seq<bool>, radius: real)
    requires |onRight| == |centroids|
    ensures var ps := InitialLabelPositions(centroids, onRight, radius);
      && (forall i :: 1 <= i < |ps| ==> ps[i].y - ps[i - 1].y == Spacing + (centroids[i].y - centroids[i - 1].y))
      && (|ps| > 0 ==> ps[0].y == centroids[0].y - 10.0 * |ps| as real)
      && |ps| == |centroids|
      && (forall i :: 0 <= i < |ps| ==> ps[i].x == if onRight[i] then 1.1 * radius else -1.1 * radius)
  {
  }

  /** One step of the sweep: the label `p` following a label already placed
      at `prev`. */
  function Push(prev: Point, p: Point): Point {
    if p.y - prev.y < Spacing then p.(y := prev.y + Spacing) else p
  }

  /** The positions the sweep leaves, defined label by label. */
  function Swept(ps: seq<Point>): (r: seq<Point>)
    ensures |r| == |ps|
  {
    if |ps| <= 1 then ps
    else
      var s := Swept(ps[..|ps| - 1]);
      s + [Push(s[|s| - 1], ps[|ps| - 1])]
  }

  /** Every label sits at least `Spacing` below the previous one. */
  predicate WellSpaced(ps: seq<Point>) {
    forall i :: 1 <= i < |ps| ==> ps[i].y - ps[i - 1].y >= Spacing
  }

  /** The sweep spaces the labels, keeps every x and the first label, and
      only ever moves a label down. */
  lemma {:induction false} SweptProperties(ps: seq<Point>)
    ensures var r := Swept(ps);
      && WellSpaced(r)
      && (|ps| > 0 ==> r[0] == ps[0])
      && (forall i :: 0 <= i < |ps| ==> r[i].x == ps[i].x && r[i].y >= ps[i].y)
  {
    if |ps| > 1 {
      SweptProperties(ps[..|ps| - 1]);
    }
  }

  /** Well-spaced labels are strictly increasing in y. */
  lemma {:induction false} WellSpacedIncreasing(ps: seq<Point>)
    requires WellSpaced(ps)
    ensures forall i, j :: 0 <= i < j < |ps| ==> ps[i].y < ps[j].y
  {
    if |ps| > 1 {
      var n := |ps| - 1;
      WellSpacedIncreasing(ps[..n]);
      forall i, j | 0 <= i < j < |ps| ensures ps[i].y < ps[j].y {
        if j < n {
          assert ps[..n][i] == ps[i] && ps[..n][j] == ps[j];
        } else if i < n - 1 {
          assert ps[..n][i] == ps[i] && ps[..n][n - 1] == ps[n - 1];
        }
      }
    }
  }

  /** Labels that are already spaced are left where they are. */
  lemma {:induction false} SweptWellSpacedUnchanged(ps: seq<Point>)
    requires WellSpaced(ps)
    ensures Swept(ps) == ps
  {
    if |ps| > 1 {
      var n := |ps| - 1;
      SweptWellSpacedUnchanged(ps[..n]);
      assert ps[..n] + [ps[n]] == ps;
    }
  }

  /** A second sweep changes nothing. */
  lemma SweptIdempotent(ps: seq<Point>)
    ensures Swept(Swept(ps)) == Swept(ps)
  {
    SweptProperties(ps);
    SweptWellSpacedUnchanged(Swept(ps));
  }

  /** The sweep moves labels no further than it must: any well-spaced
      placement that keeps every label at or below its start has every label
      at or below where the sweep puts it. */
  lemma {:induction false} SweptIsLeast(ps: seq<Point>, z: seq<Point>)
    requires |z| == |ps| && WellSpaced(z)
    requires forall i :: 0 <= i < |ps| ==> z[i].y >= ps[i].y
    ensures forall i :: 0 <= i < |ps| ==> z[i].y >= Swept(ps)[i].y
  {
    if |ps| > 1 {
      var n := |ps| - 1;
      SweptIsLeast(ps[..n], z[..n]);
      assert Swept(ps)[..n] == Swept(ps[..n]);
    }
  }

  /** When the centroids do not move up from slice to slice, the initial
      spread already spaces the labels and the sweep leaves them alone. */
  lemma InitialSpreadNeedsNoSweep(centroids: seq<Point>, onRight: seq<bool>, radius: real)
    requires |onRight| == |centroids|
    requires forall i :: 1 <= i < |centroids| ==> centroids[i - 1].y <= centroids[i].y
    ensures var ps := InitialLabelPositions(centroids, onRight, radius);
      Swept(ps) == ps
  {
    var ps := InitialLabelPositions(centroids, onRight, radius);
    InitialOffsets(centroids, onRight, radius);
    assert WellSpaced(ps);
    SweptWellSpacedUnchanged(ps);
  }

  /** `adjustLabelPositions`: the in-place left-to-right pass, run on a
      private copy of the positions. */
  method AdjustLabelPositions(positions: seq<Point>) returns (adjusted: seq<Point>)
    ensures adjusted == Swept(positions)
    ensures |adjusted| == |positions|
    ensures WellSpaced(adjusted)
    ensures |positions| > 0 ==> adjusted[0] == positions[0]
    ensures forall i :: 0 <= i < |positions| ==>
      adjusted[i].x == positions[i].x && adjusted[i].y >= positions[i].y
  {
    var a := new Point[|positions|](i requires 0 <= i < |positions| => positions[i]);
    assert a[..] == positions;
    var i := 1;
    while i < a.Length
      invariant a.Length == |positions|
      invariant a.Length == 0 || 1 <= i <= a.Length
      invariant a.Length > 0 ==> a[..i] == Swept(positions[..i])
      invariant a.Length > 0 ==> a[i..] == positions[i..]
    {
      ghost var before := a[..];
      assert before[i + 1..] == positions[i + 1..] by {
        assert a[i..][1..] == a[i + 1..];
      }
      if a[i].y - a[i - 1].y < Spacing {
        a[i] := a[i].(y := a[i - 1].y + Spacing);
      }
      assert a[i + 1..] == before[i + 1..];
      assert positions[..i + 1][..i] == positions[..i];
      i := i + 1;
    }
    adjusted := a[..];
    if a.Length > 0 {
      assert positions[..a.Length] == positions;
    }
    SweptProperties(positions);
  }
}
