/** Resolution of the category filter: explicit categories win; otherwise an
    existing user gets the most frequent categories of the rating table and a
    new user the best-rated categories of the requested city. */
module Categories {
  import opened Common
  import opened Seqs
  import opened Text
  import opened Catalog

  /** The request's category argument: a single value or a list. */
  datatype CategoryArg = Single(category: Category) | Many(categories: seq<Category>)

  /** The category of the first catalog row with id `pid`, if any. */
  function CategoryOf(catalog: seq<Place>, pid: PlaceId): (r: Option<Category>)
    ensures r.Some? <==> exists p :: p in catalog && p.id == pid
    ensures r.Some? ==> exists p :: p in catalog && p.id == pid && p.category == r.value
  {
    if catalog == [] then None
    else if catalog[0].id == pid then Some(catalog[0].category)
    else
      assert catalog == [catalog[0]] + catalog[1..];
      CategoryOf(catalog[1..], pid)
  }

  /** The category column of the rating table joined with the catalog, one
      entry per rating whose place is in the catalog (a rating of an unknown
      place has no category and is not counted). */
  function RatedCategories(ratings: seq<Rating>, catalog: seq<Place>): (r: seq<Category>)
    ensures |r| <= |ratings|
    ensures forall c :: c in r ==> exists p :: p in catalog && p.category == c
    ensures forall c :: multiset(r)[c] == |Filter(ratings, RatedAs(catalog, c))|
  {
    if ratings == [] then []
    else
      var rest := RatedCategories(ratings[1..], catalog);
      assert ratings == [ratings[0]] + ratings[1..];
      match CategoryOf(catalog, ratings[0].place)
      case Some(c) => [c] + rest
      case None => rest
  }

  /** A rating is of a place of category `c` in the catalog. */
  function RatedAs(catalog: seq<Place>, c: Category): Rating -> bool
  {
    (rt: Rating) => CategoryOf(catalog, rt.place) == Some(c)
  }

  /** The distinct values of `cs`, in order of first occurrence. */
  function Kinds(cs: seq<Category>): (r: seq<Category>)
    ensures Distinct(r)
    ensures forall c :: c in r <==> c in cs
  {
    var same := (c: Category) => c;
    var r := DedupBy(cs, same, {});
    SubseqMembers(r, cs);
    KeysMembership(r, same);
    KeysMembership(cs, same);
    forall c | c in cs
      ensures c in r
    {
      assert same(c) in Keys(r, same);
      var x :| x in r && same(x) == c;
    }
    r
  }

  /** The first `k` of the distinct `candidates` when ordered by descending
      `score`; equal scores keep their order in `candidates`. */
  function TopBy(candidates: seq<Category>, score: Category -> real, k: nat): (r: seq<Category>)
    requires Distinct(candidates)
    ensures |r| == Min(k, |candidates|)
    ensures Distinct(r)
    ensures forall c :: c in r ==> c in candidates
    ensures forall i, j :: 0 <= i < j < |r| ==> score(r[j]) <= score(r[i])
    ensures forall c, d :: c in r && d in candidates && d !in r ==> score(d) <= score(c)
  {
    var sorted := SortBy(candidates, c => -score(c));
    PermutationKeepsDistinct(sorted, candidates);
    var m := Min(k, |candidates|);
    TopPrefix(sorted, candidates, score, m);
    sorted[..m]
  }

  lemma TopPrefix(sorted: seq<Category>, candidates: seq<Category>, score: Category -> real, m: nat)
    requires m <= |sorted|
    requires multiset(sorted) == multiset(candidates)
    requires forall i, j :: 0 <= i < j < |sorted| ==> -score(sorted[i]) <= -score(sorted[j])
    ensures forall c :: c in sorted[..m] ==> c in candidates
    ensures forall c, d :: c in sorted[..m] && d in candidates && d !in sorted[..m] ==> score(d) <= score(c)
  {
    forall c | c in sorted[..m]
      ensures c in candidates
    {
      assert c in multiset(sorted);
    }
    forall c, d | c in sorted[..m] && d in candidates && d !in sorted[..m]
      ensures score(d) <= score(c)
    {
      assert forall t :: 0 <= t < m ==> sorted[..m][t] == sorted[t];
      var i :| 0 <= i < m && sorted[..m][i] == c;
      assert d in multiset(sorted);
      var j :| 0 <= j < |sorted| && sorted[j] == d;
      assert sorted[i] == c;
    }
  }

  /** A top-frequency selection among the distinct values of `cs` beats
      every value of `cs` left out of it. */
  lemma FrequentBeatsRest(cs: seq<Category>, kinds: seq<Category>, r: seq<Category>, frequency: Category -> real)
    requires forall c :: c in kinds <==> c in cs
    requires forall c :: frequency(c) == multiset(cs)[c] as real
    requires forall c, d :: c in r && d in kinds && d !in r ==> frequency(d) <= frequency(c)
    requires forall i, j :: 0 <= i < j < |r| ==> frequency(r[j]) <= frequency(r[i])
    ensures forall i, j :: 0 <= i < j < |r| ==> multiset(cs)[r[j]] <= multiset(cs)[r[i]]
    ensures forall c, d :: c in r && d in cs && d !in r ==> multiset(cs)[d] <= multiset(cs)[c]
  {
    forall c, d | c in r && d in cs && d !in r
      ensures multiset(cs)[d] <= multiset(cs)[c]
    {
      assert d in kinds;
      assert frequency(d) <= frequency(c);
    }
  }

  /** A top-mean selection among the categories of `local` beats the
      category of every place of `local` left out of it. */
  lemma BestRatedBeatsRest(local: seq<Place>, kinds: seq<Category>, r: seq<Category>, mean: Category -> real)
    requires forall c :: c in kinds <==> c in CategoriesOf(local)
    requires forall c :: mean(c) == MeanRating(local, c)
    requires forall c :: c in r ==> c in kinds
    requires forall c, d :: c in r && d in kinds && d !in r ==> mean(d) <= mean(c)
    requires forall i, j :: 0 <= i < j < |r| ==> mean(r[j]) <= mean(r[i])
    ensures forall c :: c in r ==> exists p :: p in local && p.category == c
    ensures forall i, j :: 0 <= i < j < |r| ==> MeanRating(local, r[j]) <= MeanRating(local, r[i])
    ensures forall c, p :: c in r && p in local && p.category !in r ==>
      MeanRating(local, p.category) <= MeanRating(local, c)
  {
    var cs := CategoriesOf(local);
    forall c | c in r
      ensures exists p :: p in local && p.category == c
    {
      assert c in cs;
      var i :| 0 <= i < |cs| && cs[i] == c;
      assert local[i] in local;
    }
    forall c, p | c in r && p in local && p.category !in r
      ensures MeanRating(local, p.category) <= MeanRating(local, c)
    {
      var i :| 0 <= i < |local| && local[i] == p;
      assert cs[i] == p.category;
      assert p.category in kinds;
      assert mean(p.category) <= mean(c);
    }
  }

  /** The two most frequent values of a category column, most frequent
      first. */
  function MostFrequent(cs: seq<Category>): (r: seq<Category>)
    ensures |r| == Min(2, |Kinds(cs)|)
    ensures Distinct(r)
    ensures forall c :: c in r ==> c in cs
    ensures forall i, j :: 0 <= i < j < |r| ==> multiset(cs)[r[j]] <= multiset(cs)[r[i]]
    ensures forall c, d :: c in r && d in cs && d !in r ==> multiset(cs)[d] <= multiset(cs)[c]
  {
    var kinds := Kinds(cs);
    var frequency := (c: Category) => multiset(cs)[c] as real;
    var r := TopBy(kinds, frequency, 2);
    FrequentBeatsRest(cs, kinds, r, frequency);
    r
  }

  /** Existing-user path: the two most frequent categories of the whole rating
      table joined with the catalog (the ratings of every user, not only the
      requesting user's). */
  function MostFrequentCategories(ratings: seq<Rating>, catalog: seq<Place>): (r: seq<Category>)
    ensures |r| == Min(2, |Kinds(RatedCategories(ratings, catalog))|)
    ensures Distinct(r)
    ensures forall c :: c in r ==> |Filter(ratings, RatedAs(catalog, c))| > 0
    ensures forall i, j :: 0 <= i < j < |r| ==>
      |Filter(ratings, RatedAs(catalog, r[j]))| <= |Filter(ratings, RatedAs(catalog, r[i]))|
    ensures forall c, d :: c in r && d !in r ==>
      |Filter(ratings, RatedAs(catalog, d))| <= |Filter(ratings, RatedAs(catalog, c))|
  {
    var cs := RatedCategories(ratings, catalog);
    var r := MostFrequent(cs);
    forall c, d | c in r && d !in r
      ensures multiset(cs)[d] <= multiset(cs)[c]
    {
      if d in cs {
      } else {
        assert multiset(cs)[d] == 0;
      }
    }
    r
  }

  /** The mean catalog rating of the places of category `c` in `ps`
      (0 when there are none). */
  function MeanRating(ps: seq<Place>, c: Category): real
  {
    var members := Filter(ps, (p: Place) => p.category == c);
    if members == [] then 0.0 else SumRatings(members) / (|members| as real)
  }

  function SumRatings(ps: seq<Place>): real
  {
    if ps == [] then 0.0 else ps[0].rating + SumRatings(ps[1..])
  }

  function CategoriesOf(ps: seq<Place>): (r: seq<Category>)
    ensures |r| == |ps|
    ensures forall i :: 0 <= i < |ps| ==> r[i] == ps[i].category
  {
    seq(|ps|, i requires 0 <= i < |ps| => ps[i].category)
  }

  /** The catalog rows whose city contains `city`, ignoring case. */
  function CityPlaces(catalog: seq<Place>, city: string): (r: seq<Place>)
    ensures forall p :: p in r <==> p in catalog && ContainsIgnoreCase(p.city, city)
  {
    Filter(catalog, (p: Place) => ContainsIgnoreCase(p.city, city))
  }

  /** The three categories of `local` with the highest mean rating, best
      first. */
  function BestRated(local: seq<Place>): (r: seq<Category>)
    ensures |r| == Min(3, |Kinds(CategoriesOf(local))|)
    ensures Distinct(r)
    ensures forall c :: c in r ==> exists p :: p in local && p.category == c
    ensures forall i, j :: 0 <= i < j < |r| ==> MeanRating(local, r[j]) <= MeanRating(local, r[i])
    ensures forall c, p :: c in r && p in local && p.category !in r ==>
      MeanRating(local, p.category) <= MeanRating(local, c)
  {
    var kinds := Kinds(CategoriesOf(local));
    var mean := (c: Category) => MeanRating(local, c);
    var r := TopBy(kinds, mean, 3);
    BestRatedBeatsRest(local, kinds, r, mean);
    r
  }

  /** New-user path: the three best-rated categories among the places whose
      city contains the user's city. */
  function TopRatedCategories(catalog: seq<Place>, city: string): (r: seq<Category>)
    ensures |r| == Min(3, |Kinds(CategoriesOf(CityPlaces(catalog, city)))|)
    ensures Distinct(r)
    ensures forall c :: c in r ==> exists p :: p in catalog && ContainsIgnoreCase(p.city, city) && p.category == c
    ensures forall i, j :: 0 <= i < j < |r| ==>
      MeanRating(CityPlaces(catalog, city), r[j]) <= MeanRating(CityPlaces(catalog, city), r[i])
    ensures forall c, p :: c in r && p in catalog && ContainsIgnoreCase(p.city, city) && p.category !in r ==>
      MeanRating(CityPlaces(catalog, city), p.category) <= MeanRating(CityPlaces(catalog, city), c)
  {
    BestRated(CityPlaces(catalog, city))
  }

  /** The category list used to filter places. */
  function ResolveCategories(
    explicit: Option<CategoryArg>, knownUser: bool,
    ratings: seq<Rating>, catalog: seq<Place>, city: string): (r: seq<Category>)
    ensures explicit.Some? && explicit.value.Many? ==> r == explicit.value.categories
    ensures explicit.Some? && explicit.value.Single? ==> r == [explicit.value.category]
    ensures explicit.None? && knownUser ==> r == MostFrequentCategories(ratings, catalog)
    ensures explicit.None? && !knownUser ==> r == TopRatedCategories(catalog, city)
    ensures explicit.None? && knownUser ==>
      && |r| == Min(2, |Kinds(RatedCategories(ratings, catalog))|)
      && forall c :: c in r ==> c in RatedCategories(ratings, catalog)
    ensures explicit.None? && !knownUser ==>
      && |r| == Min(3, |Kinds(CategoriesOf(CityPlaces(catalog, city)))|)
      && forall c :: c in r ==> exists p :: p in catalog && ContainsIgnoreCase(p.city, city) && p.category == c
  {
    match explicit
    case Some(Single(c)) => [c]
    case Some(Many(cs)) => cs
    case None =>
      if knownUser then MostFrequentCategories(ratings, catalog)
      else TopRatedCategories(catalog, city)
  }
}
