/** Content-based neighbour selection: for every anchor place, the places
    whose similarity to it ranks in the top slice of its similarity row. The
    similarity matrix (TF-IDF cosine similarity in the source) is an input. */
module Neighbours {
  import opened Common
  import opened Seqs
  import opened Catalog

  /** One content-based recommendation row: a neighbour and its similarity
      to the anchor that produced it. */
  datatype Neighbour = Neighbour(place: Place, similarity: real)

  /** An n-by-n matrix. */
  predicate IsSquare(sim: seq<seq<real>>, n: nat)
  {
    |sim| == n && forall i :: 0 <= i < n ==> |sim[i]| == n
  }

  /** The number of neighbour slots per anchor, `min(10, n) - 1`; the anchor
      itself usually takes one of them. */
  function Wanted(n: nat): int
  {
    Min(10, n) - 1
  }

  /** The indices of `row` in ascending order of their value; equal values
      keep index order. */
  function ArgSort(row: seq<real>): (r: seq<nat>)
    ensures |r| == |row|
    ensures forall k :: 0 <= k < |r| ==> 0 <= r[k] < |row|
  {
    var r := SortBy(Range(|row|), IndexKey(row));
    ArgSortInRange(r, |row|);
    r
  }

  /** The sort key of an index: its value in `row`. */
  function IndexKey(row: seq<real>): nat -> real
  {
    (i: nat) => if i < |row| then row[i] else 0.0
  }

  /** The argsort is a permutation of the indices of `row`: every index
      occurs, exactly once, and the values ascend along it. */
  lemma {:induction false} ArgSortFacts(row: seq<real>)
    ensures forall j :: 0 <= j < |row| ==> j in ArgSort(row)
    ensures Distinct(ArgSort(row))
    ensures forall i, j :: 0 <= i < j < |row| ==> row[ArgSort(row)[i]] <= row[ArgSort(row)[j]]
  {
    var r := ArgSort(row);
    PermutationKeepsDistinct(r, Range(|row|));
    ArgSortInRange(r, |row|);
    assert SortedBy(r, IndexKey(row));
    forall i, j | 0 <= i < j < |row|
      ensures row[r[i]] <= row[r[j]]
    {
      assert IndexKey(row)(r[i]) <= IndexKey(row)(r[j]);
    }
  }

  /** A permutation of the indices below `n` holds exactly those indices. */
  lemma {:induction false} ArgSortInRange(r: seq<nat>, n: nat)
    requires multiset(r) == multiset(Range(n))
    ensures forall k :: 0 <= k < |r| ==> 0 <= r[k] < n
    ensures forall j :: 0 <= j < n ==> j in r
  {
    forall k | 0 <= k < |r|
      ensures 0 <= r[k] < n
    {
      assert r[k] in multiset(Range(n));
    }
    forall j | 0 <= j < n
      ensures j in r
    {
      assert Range(n)[j] == j;
      assert j in multiset(Range(n));
    }
  }

  /** The slice `argsort(row)[-(min(10, n) - 1):]` reversed: the indices
      kept for an anchor, most similar first. Entry `p` of the reversed slice
      is entry `n - 1 - p` of the argsort; for `n = 1` the bound is 0 and the
      slice `[-0:]` is the whole argsort. */
  function TopOf(row: seq<real>): (top: seq<nat>)
    ensures |top| == if Wanted(|row|) <= 0 then |row| else Wanted(|row|)
    ensures forall p :: 0 <= p < |top| ==> top[p] == ArgSort(row)[|row| - 1 - p]
    ensures forall p :: 0 <= p < |top| ==> 0 <= top[p] < |row|
  {
    var len := if Wanted(|row|) <= 0 then |row| else Wanted(|row|);
    Backwards(ArgSort(row), len)
  }

  /** The slice holds no index twice and lists its indices most similar
      first. */
  lemma {:induction false} TopOfOrder(row: seq<real>)
    ensures Distinct(TopOf(row))
    ensures forall i, j :: 0 <= i < j < |TopOf(row)| ==> row[TopOf(row)[j]] <= row[TopOf(row)[i]]
  {
    ArgSortFacts(row);
    TopFacts(row, ArgSort(row), TopOf(row));
  }

  /** Every index outside the slice is at most as similar as every index in
      it. */
  lemma {:induction false} TopOfBeatsRest(row: seq<real>)
    ensures forall p, j :: 0 <= p < |TopOf(row)| && 0 <= j < |row| && j !in TopOf(row) ==> row[j] <= row[TopOf(row)[p]]
  {
    ArgSortFacts(row);
    TopBeatsRest(row, ArgSort(row), TopOf(row));
  }

  /** The last `len` entries of `order`, last first. */
  function Backwards(order: seq<nat>, len: nat): (r: seq<nat>)
    requires len <= |order|
    ensures |r| == len
    ensures forall p :: 0 <= p < len ==> r[p] == order[|order| - 1 - p]
  {
    seq(len, p requires 0 <= p < len => order[|order| - 1 - p])
  }

  /** Reading the argsort backwards gives distinct valid indices in
      descending order of value. */
  lemma {:induction false} TopFacts(row: seq<real>, order: seq<nat>, top: seq<nat>)
    requires |order| == |row| && Distinct(order)
    requires forall p :: 0 <= p < |order| ==> 0 <= order[p] < |row|
    requires forall i, j :: 0 <= i < j < |order| ==> row[order[i]] <= row[order[j]]
    requires |top| <= |order|
    requires forall p :: 0 <= p < |top| ==> top[p] == order[|order| - 1 - p]
    ensures forall p :: 0 <= p < |top| ==> 0 <= top[p] < |row|
    ensures Distinct(top)
    ensures forall i, j :: 0 <= i < j < |top| ==> row[top[j]] <= row[top[i]]
  {
    var n := |order|;
    forall i, j | 0 <= i < j < |top|
      ensures top[i] != top[j] && row[top[j]] <= row[top[i]]
    {
      assert top[i] == order[n - 1 - i] && top[j] == order[n - 1 - j];
    }
  }

  /** The test that drops the anchor from its own neighbours. */
  function NotAnchor(anchor: nat): nat -> bool
  {
    (j: nat) => j != anchor
  }

  /** The neighbours chosen for `anchor`, most similar first: the slice
      without the anchor. */
  function NeighbourIndices(row: seq<real>, anchor: nat): (r: seq<nat>)
    requires anchor < |row|
    ensures forall k :: 0 <= k < |r| ==> 0 <= r[k] < |row|
    ensures anchor !in r
    ensures forall j :: j in r <==> j in TopOf(row) && j != anchor
    ensures Wanted(|row|) - 1 <= |r| <= Wanted(|row|)
  {
    ChosenInRange(row, anchor);
    ChosenCount(row, anchor);
    Filter<nat>(TopOf(row), NotAnchor(anchor))
  }

  lemma {:induction false} ChosenInRange(row: seq<real>, anchor: nat)
    requires anchor < |row|
    ensures var r := Filter<nat>(TopOf(row), NotAnchor(anchor));
      (forall k :: 0 <= k < |r| ==> 0 <= r[k] < |row|) && anchor !in r
  {
    var top := TopOf(row);
    var r := Filter<nat>(top, NotAnchor(anchor));
    forall k | 0 <= k < |r|
      ensures 0 <= r[k] < |row|
    {
      assert r[k] in r;
      assert r[k] in top;
    }
  }

  /** The chosen indices do not repeat and come most similar first. */
  lemma {:induction false} ChosenOrder(row: seq<real>, anchor: nat)
    requires anchor < |row|
    ensures Distinct(NeighbourIndices(row, anchor))
    ensures forall i, j :: 0 <= i < j < |NeighbourIndices(row, anchor)| ==>
      row[NeighbourIndices(row, anchor)[j]] <= row[NeighbourIndices(row, anchor)[i]]
  {
    TopOfOrder(row);
    ChosenFacts(row, anchor, TopOf(row), NeighbourIndices(row, anchor));
  }

  /** Between `min(10, n) - 2` and `min(10, n) - 1` indices are chosen. */
  lemma {:induction false} ChosenCount(row: seq<real>, anchor: nat)
    requires anchor < |row|
    ensures var r := Filter<nat>(TopOf(row), NotAnchor(anchor));
      Wanted(|row|) - 1 <= |r| <= Wanted(|row|)
  {
    var top := TopOf(row);
    var r := Filter<nat>(top, NotAnchor(anchor));
    TopOfOrder(row);
    ChosenSize(row, anchor, top, r);
    DropsAtMostOne(top, anchor, r);
  }

  /** Every index left out, other than the anchor, is at most as similar as
      every chosen one. */
  lemma {:induction false} ChosenBeatRest(row: seq<real>, anchor: nat)
    requires anchor < |row|
    ensures forall q, j ::
      (0 <= q < |NeighbourIndices(row, anchor)| && 0 <= j < |row| && j !in NeighbourIndices(row, anchor) && j != anchor) ==>
      row[j] <= row[NeighbourIndices(row, anchor)[q]]
  {
    var top := TopOf(row);
    var r := NeighbourIndices(row, anchor);
    TopOfBeatsRest(row);
    forall q, j | 0 <= q < |r| && 0 <= j < |row| && j !in r && j != anchor
      ensures row[j] <= row[r[q]]
    {
      assert r[q] in r;
      var p :| 0 <= p < |top| && top[p] == r[q];
      assert j !in top;
      assert row[j] <= row[top[p]];
    }
  }

  /** Dropping every occurrence of `x` from a sequence without repeats
      removes at most one element. */
  lemma {:induction false} DropsAtMostOne(top: seq<nat>, x: nat, r: seq<nat>)
    requires Distinct(top)
    requires forall y :: multiset(r)[y] == if NotAnchor(x)(y) then multiset(top)[y] else 0
    ensures |r| >= |top| - 1
  {
    if x in top {
      RemoveOnce(top, x, r);
    } else {
      assert multiset(r) == multiset(top);
      assert |multiset(r)| == |multiset(top)|;
    }
  }

  /** The chosen indices are the slice without the anchor, in slice order. */
  lemma {:induction false} ChosenFacts(row: seq<real>, anchor: nat, top: seq<nat>, r: seq<nat>)
    requires forall p :: 0 <= p < |top| ==> 0 <= top[p] < |row|
    requires Distinct(top)
    requires forall i, j :: 0 <= i < j < |top| ==> row[top[j]] <= row[top[i]]
    requires IsSubseq(r, top)
    requires forall x :: x in r <==> x in top && NotAnchor(anchor)(x)
    ensures forall k :: 0 <= k < |r| ==> 0 <= r[k] < |row|
    ensures anchor !in r
    ensures Distinct(r)
    ensures forall i, j :: 0 <= i < j < |r| ==> row[r[j]] <= row[r[i]]
  {
    SubseqMembers(r, top);
    forall k | 0 <= k < |r|
      ensures 0 <= r[k] < |row|
    {
      assert r[k] in top;
    }
    SubseqDistinct(r, top);
    var key := (j: nat) => if j < |row| then -row[j] else 0.0;
    assert SortedBy(top, key);
    SubseqSorted(r, top, key);
  }

  /** At most `min(10, n) - 1` indices are chosen; for a single place the
      slice is the anchor alone and nothing is chosen. */
  lemma {:induction false} ChosenSize(row: seq<real>, anchor: nat, top: seq<nat>, r: seq<nat>)
    requires anchor < |row|
    requires |top| == if Wanted(|row|) <= 0 then |row| else Wanted(|row|)
    requires forall p :: 0 <= p < |top| ==> 0 <= top[p] < |row|
    requires IsSubseq(r, top)
    requires forall x :: multiset(r)[x] == if NotAnchor(anchor)(x) then multiset(top)[x] else 0
    ensures |r| <= Wanted(|row|)
  {
    if Wanted(|row|) <= 0 {
      assert top == [anchor];
      assert multiset(r) == multiset{};
    } else {
      SubseqLength(r, top);
    }
  }

  /** Every index outside the slice is at most as similar as every index
      in it. */
  lemma {:induction false} TopBeatsRest(row: seq<real>, order: seq<nat>, top: seq<nat>)
    requires |order| == |row|
    requires forall j :: 0 <= j < |row| ==> j in order
    requires forall p :: 0 <= p < |order| ==> 0 <= order[p] < |row|
    requires forall i, j :: 0 <= i < j < |order| ==> row[order[i]] <= row[order[j]]
    requires |top| <= |order|
    requires forall p :: 0 <= p < |top| ==> top[p] == order[|order| - 1 - p]
    ensures forall p, j :: 0 <= p < |top| && 0 <= j < |row| && j !in top ==> row[j] <= row[top[p]]
  {
    var n := |row|;
    forall m | 0 <= m < n && n - 1 - m < |top|
      ensures order[m] in top
    {
      assert top[n - 1 - m] == order[m];
    }
    forall p, j | 0 <= p < |top| && 0 <= j < n && j !in top
      ensures row[j] <= row[top[p]]
    {
      assert j in order;
      var m :| 0 <= m < n && order[m] == j;
      assert n - 1 - m >= |top|;
      assert order[n - 1 - p] == top[p];
    }
  }

  /** The rows emitted for one anchor: one per chosen neighbour, in the
      order the neighbours are chosen, each carrying the neighbour and its
      similarity to the anchor. */
  function AnchorRows(places: seq<Place>, sim: seq<seq<real>>, anchor: nat): (r: seq<Neighbour>)
    requires IsSquare(sim, |places|) && anchor < |places|
    ensures |r| == |NeighbourIndices(sim[anchor], anchor)|
    ensures Wanted(|places|) - 1 <= |r| <= Wanted(|places|)
    ensures forall k :: 0 <= k < |r| ==> r[k] == RowOf(places, sim, anchor, NeighbourIndices(sim[anchor], anchor)[k])
  {
    var idx := NeighbourIndices(sim[anchor], anchor);
    seq(|idx|, k requires 0 <= k < |idx| => RowOf(places, sim, anchor, idx[k]))
  }

  /** An anchor's rows are rows of places of the list, most similar first,
      and with unique ids none of them is the anchor itself. */
  lemma {:induction false} AnchorRowsOrder(places: seq<Place>, sim: seq<seq<real>>, anchor: nat)
    requires IsSquare(sim, |places|) && anchor < |places|
    ensures forall k :: 0 <= k < |AnchorRows(places, sim, anchor)| ==> AnchorRows(places, sim, anchor)[k].place in places
    ensures UniqueIds(places) ==> forall k :: 0 <= k < |AnchorRows(places, sim, anchor)| ==>
      AnchorRows(places, sim, anchor)[k].place.id != places[anchor].id
    ensures forall i, j :: 0 <= i < j < |AnchorRows(places, sim, anchor)| ==>
      AnchorRows(places, sim, anchor)[j].similarity <= AnchorRows(places, sim, anchor)[i].similarity
  {
    ChosenOrder(sim[anchor], anchor);
    AnchorRowsFacts(places, sim, anchor, NeighbourIndices(sim[anchor], anchor), AnchorRows(places, sim, anchor));
  }

  lemma {:induction false} AnchorRowsFacts(places: seq<Place>, sim: seq<seq<real>>, anchor: nat, idx: seq<nat>, r: seq<Neighbour>)
    requires IsSquare(sim, |places|) && anchor < |places|
    requires forall k :: 0 <= k < |idx| ==> 0 <= idx[k] < |places|
    requires anchor !in idx
    requires forall i, j :: 0 <= i < j < |idx| ==> sim[anchor][idx[j]] <= sim[anchor][idx[i]]
    requires |r| == |idx|
    requires forall k :: 0 <= k < |idx| ==> r[k] == RowOf(places, sim, anchor, idx[k])
    ensures forall k :: 0 <= k < |r| ==> r[k].place in places
    ensures UniqueIds(places) ==> forall k :: 0 <= k < |r| ==> r[k].place.id != places[anchor].id
    ensures forall i, j :: 0 <= i < j < |r| ==> r[j].similarity <= r[i].similarity
  {
    forall k | 0 <= k < |r|
      ensures r[k].place in places && idx[k] != anchor
    {
      assert idx[k] in idx;
    }
  }

  /** Row `j` of anchor `i` as the table holds it. */
  function RowOf(places: seq<Place>, sim: seq<seq<real>>, i: nat, j: nat): Neighbour
    requires IsSquare(sim, |places|) && i < |places| && j < |places|
  {
    Neighbour(places[j], sim[i][j])
  }

  /** Index `j` is a chosen neighbour of anchor `i`. */
  predicate IsChosen(sim: seq<seq<real>>, n: nat, i: nat, j: nat)
    requires IsSquare(sim, n)
  {
    i < n && j in NeighbourIndices(sim[i], i)
  }

  /** The rows of every anchor, one block per anchor in anchor order. */
  function Blocks(places: seq<Place>, sim: seq<seq<real>>): (b: seq<seq<Neighbour>>)
    requires IsSquare(sim, |places|)
    ensures |b| == |places|
  {
    seq(|places|, i requires 0 <= i < |places| => AnchorRows(places, sim, i))
  }

  /** Each block holds between `min(10, n) - 2` and `min(10, n) - 1` rows of
      places of the list: the row of every neighbour chosen for its anchor,
      and no other rows. */
  lemma {:induction false} BlocksFacts(places: seq<Place>, sim: seq<seq<real>>)
    requires IsSquare(sim, |places|)
    ensures forall i :: 0 <= i < |places| ==> Wanted(|places|) - 1 <= |Blocks(places, sim)[i]| <= Wanted(|places|)
    ensures forall i, x :: 0 <= i < |places| && x in Blocks(places, sim)[i] ==> x.place in places
    ensures forall i: nat, j: nat :: IsChosen(sim, |places|, i, j) ==> RowOf(places, sim, i, j) in Blocks(places, sim)[i]
    ensures forall i: nat, x :: 0 <= i < |places| && x in Blocks(places, sim)[i] ==>
      exists j: nat :: IsChosen(sim, |places|, i, j) && x == RowOf(places, sim, i, j)
  {
    var b := Blocks(places, sim);
    forall i | 0 <= i < |places|
      ensures Wanted(|places|) - 1 <= |b[i]| <= Wanted(|places|)
      ensures forall x: Neighbour :: x in b[i] ==> x.place in places
      ensures forall j: nat :: IsChosen(sim, |places|, i, j) ==> RowOf(places, sim, i, j) in b[i]
      ensures forall x: Neighbour :: x in b[i] ==> exists j: nat :: IsChosen(sim, |places|, i, j) && x == RowOf(places, sim, i, j)
    {
      AnchorRowsOrder(places, sim, i);
      AnchorRowsChosen(places, sim, i);
    }
  }

  /** The content-based recommendation table for the filtered places. An
      empty place list, or a similarity matrix that could not be built
      (`None`, the vectoriser's error), gives an empty table. Otherwise the
      table holds one row for every anchor and every neighbour chosen for
      it, and no other rows. */
  function CbfScores(places: seq<Place>, sim: Option<seq<seq<real>>>): (r: seq<Neighbour>)
    requires sim.Some? ==> IsSquare(sim.value, |places|)
    ensures |places| == 0 || sim.None? ==> r == []
    ensures |r| <= |places| * Wanted(|places|)
    ensures sim.Some? ==> |r| >= |places| * (Wanted(|places|) - 1)
    ensures forall k :: 0 <= k < |r| ==> r[k].place in places
    ensures sim.Some? ==> forall i: nat, j: nat :: IsChosen(sim.value, |places|, i, j) ==> RowOf(places, sim.value, i, j) in r
    ensures sim.Some? ==> forall x :: x in r ==>
      exists i: nat, j: nat :: IsChosen(sim.value, |places|, i, j) && x == RowOf(places, sim.value, i, j)
  {
    if |places| == 0 then []
    else
      match sim
      case None => []
      case Some(m) =>
        TableSize(places, m);
        TablePlaces(places, m);
        TableCovers(places, m);
        TableOnlyChosen(places, m);
        Flatten(Blocks(places, m))
  }

  /** The joined blocks hold between `min(10, n) - 2` and `min(10, n) - 1`
      rows per anchor. */
  lemma {:induction false} TableSize(places: seq<Place>, sim: seq<seq<real>>)
    requires IsSquare(sim, |places|)
    ensures |places| * (Wanted(|places|) - 1) <= |Flatten(Blocks(places, sim))| <= |places| * Wanted(|places|)
  {
    BlocksFacts(places, sim);
    FlattenLength(Blocks(places, sim), Wanted(|places|) - 1, Wanted(|places|));
  }

  /** Every row of the joined blocks is a row of a place of the list. */
  lemma {:induction false} TablePlaces(places: seq<Place>, sim: seq<seq<real>>)
    requires IsSquare(sim, |places|)
    ensures forall k :: 0 <= k < |Flatten(Blocks(places, sim))| ==> Flatten(Blocks(places, sim))[k].place in places
  {
    var b := Blocks(places, sim);
    var r := Flatten(b);
    BlocksFacts(places, sim);
    forall k | 0 <= k < |r|
      ensures r[k].place in places
    {
      assert r[k] in r;
      var i :| 0 <= i < |b| && r[k] in b[i];
    }
  }

  /** The joined blocks hold the row of every chosen pair. */
  lemma {:induction false} TableCovers(places: seq<Place>, sim: seq<seq<real>>)
    requires IsSquare(sim, |places|)
    ensures forall i: nat, j: nat :: IsChosen(sim, |places|, i, j) ==> RowOf(places, sim, i, j) in Flatten(Blocks(places, sim))
  {
    BlocksFacts(places, sim);
  }

  /** Every row of the joined blocks is the row of a chosen pair. */
  lemma {:induction false} TableOnlyChosen(places: seq<Place>, sim: seq<seq<real>>)
    requires IsSquare(sim, |places|)
    ensures forall x :: x in Flatten(Blocks(places, sim)) ==>
      exists i: nat, j: nat :: IsChosen(sim, |places|, i, j) && x == RowOf(places, sim, i, j)
  {
    var b := Blocks(places, sim);
    BlocksFacts(places, sim);
    forall x | x in Flatten(b)
      ensures exists i: nat, j: nat :: IsChosen(sim, |places|, i, j) && x == RowOf(places, sim, i, j)
    {
      var i :| 0 <= i < |b| && x in b[i];
      var j: nat :| IsChosen(sim, |places|, i, j) && x == RowOf(places, sim, i, j);
      assert IsChosen(sim, |places|, i, j) && x == RowOf(places, sim, i, j);
    }
  }

  /** The rows of one anchor, stated through `IsChosen` and `RowOf`. */
  lemma {:induction false} AnchorRowsChosen(places: seq<Place>, sim: seq<seq<real>>, anchor: nat)
    requires IsSquare(sim, |places|) && anchor < |places|
    ensures forall j: nat :: IsChosen(sim, |places|, anchor, j) ==> RowOf(places, sim, anchor, j) in AnchorRows(places, sim, anchor)
    ensures forall x :: x in AnchorRows(places, sim, anchor) ==>
      exists j: nat :: IsChosen(sim, |places|, anchor, j) && x == RowOf(places, sim, anchor, j)
  {
    var idx := NeighbourIndices(sim[anchor], anchor);
    var r := AnchorRows(places, sim, anchor);
    forall x | x in r
      ensures exists j: nat :: IsChosen(sim, |places|, anchor, j) && x == RowOf(places, sim, anchor, j)
    {
      var k :| 0 <= k < |r| && r[k] == x;
      assert idx[k] in idx;
      assert IsChosen(sim, |places|, anchor, idx[k]);
    }
  }

  /** The slice keeps `min(10, n) - 1` indices and the anchor normally takes
      one of them: when the anchor is strictly more similar to itself than to
      any other place, exactly `min(10, n) - 2` neighbours are chosen. */
  lemma {:induction false} SelfTakesASlot(row: seq<real>, anchor: nat)
    requires 2 <= |row| && anchor < |row|
    requires forall j :: 0 <= j < |row| && j != anchor ==> row[j] < row[anchor]
    ensures |NeighbourIndices(row, anchor)| == Wanted(|row|) - 1
  {
    StrictSelfInTop(row, anchor);
    CountWithAnchorInTop(row, anchor);
    TopSize(row);
  }

  lemma {:induction false} TopSize(row: seq<real>)
    requires 2 <= |row|
    ensures |TopOf(row)| == Wanted(|row|)
  {
  }

  lemma {:induction false} StrictSelfInTop(row: seq<real>, anchor: nat)
    requires 2 <= |row| && anchor < |row|
    requires forall j :: 0 <= j < |row| && j != anchor ==> row[j] < row[anchor]
    ensures anchor in TopOf(row)
  {
    ArgSortFacts(row);
    AnchorInTop(row, anchor, ArgSort(row), TopOf(row));
  }

  lemma {:induction false} CountWithAnchorInTop(row: seq<real>, anchor: nat)
    requires 2 <= |row| && anchor < |row|
    requires anchor in TopOf(row)
    ensures |NeighbourIndices(row, anchor)| == |TopOf(row)| - 1
  {
    ChosenIsFiltered(row, anchor);
    TopOfOrder(row);
    RemoveOnce(TopOf(row), anchor, NeighbourIndices(row, anchor));
  }

  lemma {:induction false} ChosenIsFiltered(row: seq<real>, anchor: nat)
    requires anchor < |row|
    ensures NeighbourIndices(row, anchor) == Filter<nat>(TopOf(row), NotAnchor(anchor))
  {
  }

  /** Dropping the one occurrence of `x` from a sequence without repeats
      shortens it by one. */
  lemma {:induction false} RemoveOnce(top: seq<nat>, x: nat, r: seq<nat>)
    requires Distinct(top) && x in top
    requires forall y :: multiset(r)[y] == if NotAnchor(x)(y) then multiset(top)[y] else 0
    ensures |r| == |top| - 1
  {
    CountOfDistinct(top, x);
    assert multiset(r) == multiset(top) - multiset{x};
    assert |multiset(r)| == |multiset(top)| - 1;
  }

  /** A strictly most similar anchor sits in the top slice. */
  lemma {:induction false} AnchorInTop(row: seq<real>, anchor: nat, order: seq<nat>, top: seq<nat>)
    requires anchor < |row|
    requires forall j :: 0 <= j < |row| && j != anchor ==> row[j] < row[anchor]
    requires |order| == |row| && Distinct(order)
    requires forall j :: 0 <= j < |row| ==> j in order
    requires forall p :: 0 <= p < |order| ==> 0 <= order[p] < |row|
    requires forall i, j :: 0 <= i < j < |order| ==> row[order[i]] <= row[order[j]]
    requires 0 < |top| <= |order|
    requires forall p :: 0 <= p < |top| ==> top[p] == order[|order| - 1 - p]
    ensures anchor in top
  {
    var n := |row|;
    assert anchor in order;
    var q :| 0 <= q < n && order[q] == anchor;
    assert row[order[q]] <= row[order[n - 1]];
    assert order[n - 1] == anchor;
    assert top[0] == anchor;
  }
}
