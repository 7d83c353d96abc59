/** Score fusion: every content-based row gets a collaborative-filtering
    rating and a consistency score `mse = (Rating - cf_rating)^2`; rows are
    ranked by ascending `mse` and de-duplicated on the place id, keeping the
    first (best) row of each place. */
module Fusion {
  import opened Common
  import opened Seqs
  import opened Catalog
  import opened Neighbours

  /** The source of the collaborative-filtering rating of a place. */
  datatype Affinity =
    | Predicted(score: PlaceId -> real)   // the trained model's prediction for a known user
    | Fallback(jitter: PlaceId -> real)   // new user: the place's average rating plus one jitter draw per place

  /** A fused recommendation row. */
  datatype Scored = Scored(place: Place, similarity: real, cf: real, mse: real)

  function CfRating(aff: Affinity, p: Place): real
  {
    match aff
    case Predicted(score) => score(p.id)
    case Fallback(jitter) => p.rating + jitter(p.id)
  }

  function Square(x: real): real
  {
    x * x
  }

  function ScoreRow(aff: Affinity, n: Neighbour): (s: Scored)
    ensures s.place == n.place && s.similarity == n.similarity
    ensures aff.Predicted? ==> s.cf == aff.score(n.place.id)
    ensures aff.Fallback? ==> s.cf == n.place.rating + aff.jitter(n.place.id)
    ensures s.mse == (n.place.rating - s.cf) * (n.place.rating - s.cf)
    ensures s.mse >= 0.0
  {
    var cf := CfRating(aff, n.place);
    Scored(n.place, n.similarity, cf, Square(n.place.rating - cf))
  }

  /** The merged table: one fused row per content-based row, in order. */
  function ScoreAll(aff: Affinity, ns: seq<Neighbour>): (r: seq<Scored>)
    ensures |r| == |ns|
    ensures forall i :: 0 <= i < |ns| ==> r[i] == ScoreRow(aff, ns[i])
  {
    seq(|ns|, i requires 0 <= i < |ns| => ScoreRow(aff, ns[i]))
  }

  function MseOf(s: Scored): real
  {
    s.mse
  }

  function IdOf(s: Scored): PlaceId
  {
    s.place.id
  }

  /** The place ids of a content-based table. */
  function NeighbourIds(ns: seq<Neighbour>): set<PlaceId>
  {
    set n | n in ns :: n.place.id
  }

  /** The fused ranking: sorted by ascending `mse`, one row per place id,
      every place of the content-based table present, and each kept row one
      with the least `mse` among the rows of its place. */
  function Fuse(aff: Affinity, ns: seq<Neighbour>): (r: seq<Scored>)
    ensures SortedBy(r, MseOf)
    ensures DistinctBy(r, IdOf)
    ensures Keys(r, IdOf) == NeighbourIds(ns)
    ensures forall k :: 0 <= k < |r| ==> r[k] in ScoreAll(aff, ns)
    ensures forall k, i :: 0 <= k < |r| && 0 <= i < |ns| && ns[i].place.id == r[k].place.id ==>
      r[k].mse <= ScoreRow(aff, ns[i]).mse
  {
    var scored := ScoreAll(aff, ns);
    var sorted := SortBy(scored, MseOf);
    var r := DedupBy(sorted, IdOf, {});
    FusedFacts(aff, ns, scored, sorted, r);
    r
  }

  lemma FusedFacts(aff: Affinity, ns: seq<Neighbour>, scored: seq<Scored>, sorted: seq<Scored>, r: seq<Scored>)
    requires scored == ScoreAll(aff, ns)
    requires multiset(sorted) == multiset(scored) && SortedBy(sorted, MseOf)
    requires IsSubseq(r, sorted)
    requires Keys(r, IdOf) == Keys(sorted, IdOf)
    requires forall k :: 0 <= k < |r| ==> IsFirstWithKey(sorted, IdOf, r[k])
    ensures SortedBy(r, MseOf)
    ensures Keys(r, IdOf) == NeighbourIds(ns)
    ensures forall k :: 0 <= k < |r| ==> r[k] in scored
    ensures forall k, i :: 0 <= k < |r| && 0 <= i < |ns| && ns[i].place.id == r[k].place.id ==>
      r[k].mse <= ScoreRow(aff, ns[i]).mse
  {
    SubseqSorted(r, sorted, MseOf);
    KeptRowsAreScored(scored, sorted, r);
    SortedKeys(aff, ns, scored, sorted);
    KeptRowsAreLeast(aff, ns, scored, sorted, r);
  }

  lemma KeptRowsAreScored(scored: seq<Scored>, sorted: seq<Scored>, r: seq<Scored>)
    requires multiset(sorted) == multiset(scored)
    requires IsSubseq(r, sorted)
    ensures forall k :: 0 <= k < |r| ==> r[k] in scored
  {
    SubseqMembers(r, sorted);
    forall k | 0 <= k < |r|
      ensures r[k] in scored
    {
      assert r[k] in sorted;
      assert r[k] in multiset(sorted);
    }
  }

  lemma SortedKeys(aff: Affinity, ns: seq<Neighbour>, scored: seq<Scored>, sorted: seq<Scored>)
    requires scored == ScoreAll(aff, ns)
    requires multiset(sorted) == multiset(scored)
    ensures Keys(sorted, IdOf) == NeighbourIds(ns)
  {
    KeysMembership(sorted, IdOf);
    forall id | id in Keys(sorted, IdOf)
      ensures id in NeighbourIds(ns)
    {
      var x :| x in sorted && IdOf(x) == id;
      assert x in multiset(scored);
      var i :| 0 <= i < |scored| && scored[i] == x;
      assert ns[i] in ns;
    }
    forall id | id in NeighbourIds(ns)
      ensures id in Keys(sorted, IdOf)
    {
      var n :| n in ns && n.place.id == id;
      var i :| 0 <= i < |ns| && ns[i] == n;
      assert scored[i] in multiset(sorted);
      assert scored[i] in sorted;
    }
  }

  lemma KeptRowsAreLeast(aff: Affinity, ns: seq<Neighbour>, scored: seq<Scored>, sorted: seq<Scored>, r: seq<Scored>)
    requires scored == ScoreAll(aff, ns)
    requires multiset(sorted) == multiset(scored) && SortedBy(sorted, MseOf)
    requires forall k :: 0 <= k < |r| ==> IsFirstWithKey(sorted, IdOf, r[k])
    ensures forall k, i :: 0 <= k < |r| && 0 <= i < |ns| && ns[i].place.id == r[k].place.id ==>
      r[k].mse <= ScoreRow(aff, ns[i]).mse
  {
    forall k, i | 0 <= k < |r| && 0 <= i < |ns| && ns[i].place.id == r[k].place.id
      ensures r[k].mse <= ScoreRow(aff, ns[i]).mse
    {
      assert scored[i] in multiset(sorted);
      var j :| 0 <= j < |sorted| && sorted[j] == scored[i];
      FirstIsLeast(sorted, IdOf, MseOf, r[k], j);
    }
  }

  function SumMse(rows: seq<Scored>): real
  {
    if rows == [] then 0.0 else rows[0].mse + SumMse(rows[1..])
  }

  /** The itinerary-level consistency figure: the mean `mse` of the fused
      rows; `None` stands for the NaN that the mean of no rows gives. */
  function MeanMse(rows: seq<Scored>): (m: Option<real>)
    ensures m.None? <==> rows == []
  {
    if rows == [] then None else Some(SumMse(rows) / (|rows| as real))
  }

  lemma {:induction false} SumWithin(rows: seq<Scored>, lo: real, hi: real)
    requires forall k :: 0 <= k < |rows| ==> lo <= rows[k].mse <= hi
    ensures (|rows| as real) * lo <= SumMse(rows) <= (|rows| as real) * hi
  {
    if rows != [] {
      SumWithin(rows[1..], lo, hi);
      assert (|rows| as real) * lo == lo + (|rows[1..]| as real) * lo;
      assert (|rows| as real) * hi == hi + (|rows[1..]| as real) * hi;
    }
  }

  /** The mean lies between any lower and upper bound of the rows' `mse`. */
  lemma MeanWithin(rows: seq<Scored>, lo: real, hi: real)
    requires rows != []
    requires forall k :: 0 <= k < |rows| ==> lo <= rows[k].mse <= hi
    ensures lo <= MeanMse(rows).value <= hi
  {
    var n := |rows| as real;
    SumWithin(rows, lo, hi);
    assert MeanMse(rows).value * n == SumMse(rows);
  }

  /** For the fused ranking the mean is non-negative and lies between the
      first row's `mse` and the last row's. */
  lemma FusedMeanBounds(aff: Affinity, ns: seq<Neighbour>)
    requires Fuse(aff, ns) != []
    ensures var r := Fuse(aff, ns);
      0.0 <= r[0].mse <= MeanMse(r).value <= r[|r| - 1].mse
  {
    var r := Fuse(aff, ns);
    forall k | 0 <= k < |r|
      ensures r[0].mse <= r[k].mse <= r[|r| - 1].mse
    {
      assert MseOf(r[0]) <= MseOf(r[k]) || k == 0;
      assert MseOf(r[k]) <= MseOf(r[|r| - 1]) || k == |r| - 1;
    }
    MeanWithin(r, r[0].mse, r[|r| - 1].mse);
    assert r[0] in ScoreAll(aff, ns);
  }

  /** For a new user the catalog rating cancels out of a row's `mse`. */
  lemma FallbackMse(jitter: PlaceId -> real, n: Neighbour)
    ensures ScoreRow(Fallback(jitter), n).mse == Square(jitter(n.place.id))
  {
  }

  /** For a new user every fused row's `mse` is the square of its place's
      jitter, so the ranking orders places by the size of their jitter
      alone. */
  lemma FallbackRanksByJitter(jitter: PlaceId -> real, ns: seq<Neighbour>)
    ensures var r := Fuse(Fallback(jitter), ns);
      && (forall k :: 0 <= k < |r| ==> r[k].mse == Square(jitter(r[k].place.id)))
      && (forall i, j :: 0 <= i < j < |r| ==>
            Square(jitter(r[i].place.id)) <= Square(jitter(r[j].place.id)))
  {
    var r := Fuse(Fallback(jitter), ns);
    JitterRows(jitter, ns, r);
    forall i, j | 0 <= i < j < |r|
      ensures Square(jitter(r[i].place.id)) <= Square(jitter(r[j].place.id))
    {
      assert MseOf(r[i]) <= MseOf(r[j]);
    }
  }

  lemma JitterRows(jitter: PlaceId -> real, ns: seq<Neighbour>, r: seq<Scored>)
    requires forall k :: 0 <= k < |r| ==> r[k] in ScoreAll(Fallback(jitter), ns)
    ensures forall k :: 0 <= k < |r| ==> r[k].mse == Square(jitter(r[k].place.id))
  {
    var scored := ScoreAll(Fallback(jitter), ns);
    forall k | 0 <= k < |r|
      ensures r[k].mse == Square(jitter(r[k].place.id))
    {
      var i :| 0 <= i < |scored| && scored[i] == r[k];
      FallbackMse(jitter, ns[i]);
    }
  }
}
