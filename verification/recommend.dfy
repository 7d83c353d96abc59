/** The whole recommendation for one request: resolve the categories, filter
    the catalog, build the content-based table, fuse it with the
    collaborative-filtering ratings, plan the days, and suggest flights. */
module Recommend {
  import opened Common
  import opened Seqs
  import opened Catalog
  import opened PlaceFilter
  import opened Categories
  import opened Neighbours
  import opened Fusion
  import opened Scheduler
  import opened Flights

  /** The request's parameters. `days` is `None` when the request leaves it
      out; `hours` is the daily time limit (8 when the request leaves it
      out); a `budget` of `None` or `0` means no budget. */
  datatype Request = Request(
    user: UserId,
    start: Coord,
    city: string,
    categories: Option<CategoryArg>,
    days: Option<int>,
    hours: real,
    budget: Option<real>,
    departure: Option<string>,
    destination: Option<string>)

  /** The tables the recommender reads. */
  datatype Tables = Tables(catalog: seq<Place>, ratings: seq<Rating>, flights: seq<Flight>)

  /** What the recommender obtains from outside its own logic: the trained
      model's rating prediction, the new-user jitter, the similarity matrix
      of a list of places (`None` when it cannot be built) and the distance
      between two points. */
  datatype Oracles = Oracles(
    predict: (UserId, PlaceId) -> real,
    jitter: PlaceId -> real,
    similarity: seq<Place> -> Option<seq<seq<real>>>,
    dist: Distance)

  /** The similarity oracle returns an n-by-n matrix for n places. */
  ghost predicate SquareSimilarity(o: Oracles)
  {
    forall ps :: o.similarity(ps).Some? ==> IsSquare(o.similarity(ps).value, |ps|)
  }

  /** Why a request produced no itinerary: with `days` absent, zero or
      negative the day loop never runs and the consistency figure is never
      assigned before it is returned. */
  datatype Failure = MseUnbound

  /** The response: one list of stops, one hour total and one spend total
      per day, the consistency figure and the flight suggestions. */
  datatype Itinerary = Itinerary(
    days: seq<DayPlan>,
    mse: Option<real>,
    flights: seq<Flight>)

  function ChosenCategories(req: Request, t: Tables): seq<Category>
  {
    ResolveCategories(req.categories, IsKnownUser(t.ratings, req.user), t.ratings, t.catalog, req.city)
  }

  function Candidates(req: Request, t: Tables): seq<Place>
  {
    FilterPlaces(t.catalog, Some(req.city), Some(ChosenCategories(req, t)))
  }

  /** A known user's ratings come from the model; a new user's from the
      catalog rating plus jitter. */
  function AffinityFor(req: Request, t: Tables, o: Oracles): (r: Affinity)
    ensures r.Predicted? <==> IsKnownUser(t.ratings, req.user)
    ensures forall p: Place :: IsKnownUser(t.ratings, req.user) ==> CfRating(r, p) == o.predict(req.user, p.id)
    ensures forall p: Place :: !IsKnownUser(t.ratings, req.user) ==> CfRating(r, p) == p.rating + o.jitter(p.id)
  {
    if IsKnownUser(t.ratings, req.user) then Predicted(pid => o.predict(req.user, pid))
    else Fallback(o.jitter)
  }

  /** The fused ranking the days are planned from: ascending by `mse`, one
      row per place, and every place a catalog place that passes the city
      and category filters. */
  function Ranking(req: Request, t: Tables, o: Oracles): (r: seq<Scored>)
    requires SquareSimilarity(o)
    ensures SortedBy(r, MseOf)
    ensures DistinctBy(r, IdOf)
    ensures forall k :: 0 <= k < |r| ==>
      r[k].place in t.catalog && Admits(r[k].place, Some(req.city), Some(ChosenCategories(req, t)))
    ensures Keys(r, IdOf) == NeighbourIds(CbfScores(Candidates(req, t), o.similarity(Candidates(req, t))))
    ensures forall k :: 0 <= k < |r| ==>
      r[k] in ScoreAll(AffinityFor(req, t, o), CbfScores(Candidates(req, t), o.similarity(Candidates(req, t))))
    ensures ScoredFor(req, t, o, r)
    ensures LeastPerPlace(AffinityFor(req, t, o), CbfScores(Candidates(req, t), o.similarity(Candidates(req, t))), r)
  {
    var places := Candidates(req, t);
    var cbf := CbfScores(places, o.similarity(places));
    var aff := AffinityFor(req, t, o);
    var r := Fuse(aff, cbf);
    RankedFromCandidates(aff, cbf, places, r);
    RankedRowsScored(req, t, o, aff, cbf, r);
    r
  }

  /** Every row carries the collaborative rating of the request's user kind
      (the model's prediction for a known user, rating plus jitter for a new
      one) and the squared error of that rating as its `mse`. */
  predicate ScoredFor(req: Request, t: Tables, o: Oracles, r: seq<Scored>)
  {
    forall k :: 0 <= k < |r| ==>
      && r[k].cf == (if IsKnownUser(t.ratings, req.user) then o.predict(req.user, r[k].place.id)
                     else r[k].place.rating + o.jitter(r[k].place.id))
      && r[k].mse == Square(r[k].place.rating - r[k].cf)
  }

  /** No candidate row of a kept place scores a lower `mse` than the kept row. */
  predicate LeastPerPlace(aff: Affinity, ns: seq<Neighbour>, r: seq<Scored>)
  {
    forall k, n :: 0 <= k < |r| && n in ns && n.place.id == r[k].place.id ==> r[k].mse <= ScoreRow(aff, n).mse
  }

  /** The rows of a fused table are scored for the request's user kind and
      keep the least `mse` of their place. */
  lemma RankedRowsScored(req: Request, t: Tables, o: Oracles, aff: Affinity, cbf: seq<Neighbour>, r: seq<Scored>)
    requires aff == AffinityFor(req, t, o)
    requires forall k :: 0 <= k < |r| ==> r[k] in ScoreAll(aff, cbf)
    requires forall k, i :: 0 <= k < |r| && 0 <= i < |cbf| && cbf[i].place.id == r[k].place.id ==>
      r[k].mse <= ScoreRow(aff, cbf[i]).mse
    ensures ScoredFor(req, t, o, r)
    ensures LeastPerPlace(aff, cbf, r)
  {
    var scored := ScoreAll(aff, cbf);
    forall k | 0 <= k < |r|
      ensures r[k].cf == CfRating(aff, r[k].place)
      ensures r[k].mse == Square(r[k].place.rating - r[k].cf)
    {
      var i :| 0 <= i < |scored| && scored[i] == r[k];
      assert r[k] == ScoreRow(aff, cbf[i]);
    }
    forall k, n | 0 <= k < |r| && n in cbf && n.place.id == r[k].place.id
      ensures r[k].mse <= ScoreRow(aff, n).mse
    {
      var i :| 0 <= i < |cbf| && cbf[i] == n;
    }
  }

  lemma RankedFromCandidates(aff: Affinity, cbf: seq<Neighbour>, places: seq<Place>, r: seq<Scored>)
    requires forall k :: 0 <= k < |cbf| ==> cbf[k].place in places
    requires forall k :: 0 <= k < |r| ==> r[k] in ScoreAll(aff, cbf)
    ensures forall k :: 0 <= k < |r| ==> r[k].place in places
  {
    forall k | 0 <= k < |r|
      ensures r[k].place in places
    {
      var scored := ScoreAll(aff, cbf);
      assert r[k] in scored;
      var i :| 0 <= i < |scored| && scored[i] == r[k];
    }
  }

  /** The days planned from a ranking, all starting at `start`. */
  function PlanTrip(ranking: seq<Scored>, start: Coord, days: nat, lim: Limits, dist: Distance): (r: seq<DayPlan>)
    ensures |r| == days
    ensures forall i :: 0 <= i < |r| ==> SoundDay(r[i], start, lim, dist)
    ensures forall i :: 0 <= i < |r| ==> IsSubseq(RowsOf(r[i].stops), ranking)
    ensures forall i, j :: 0 <= i < j < |r| ==> IdsOf(r[i].stops) !! IdsOf(r[j].stops)
    ensures forall i :: 0 <= i < |r| ==> (r[i].stops == [] <==> NoneFits(ranking, start, lim, dist, AllIds(r[..i])))
    ensures forall i :: 0 <= i < |r| ==> r[i] == PlanDay(ranking, start, lim, dist, AllIds(r[..i])).0
  {
    var p := Schedule(ranking, start, days, lim, dist, {});
    FromNothingSeen(ranking, start, lim, dist, p.days);
    p.days
  }

  /** With nothing visited before the trip, the places seen before day `i`
      are those of the earlier days alone. */
  lemma FromNothingSeen(ranking: seq<Scored>, start: Coord, lim: Limits, dist: Distance, days: seq<DayPlan>)
    requires forall i :: 0 <= i < |days| ==>
      (days[i].stops == [] <==> NoneFits(ranking, start, lim, dist, {} + AllIds(days[..i])))
    requires forall i :: 0 <= i < |days| ==> days[i] == PlanDay(ranking, start, lim, dist, {} + AllIds(days[..i])).0
    ensures forall i :: 0 <= i < |days| ==> (days[i].stops == [] <==> NoneFits(ranking, start, lim, dist, AllIds(days[..i])))
    ensures forall i :: 0 <= i < |days| ==> days[i] == PlanDay(ranking, start, lim, dist, AllIds(days[..i])).0
  {
    forall i | 0 <= i < |days|
      ensures {} + AllIds(days[..i]) == AllIds(days[..i])
    {
    }
  }

  /** The recommendation for a request. */
  function RecommendTrip(req: Request, t: Tables, o: Oracles): (r: Result<Itinerary, Failure>)
    requires SquareSimilarity(o)
    ensures r.Failure? <==> req.days.None? || req.days.value <= 0
    ensures r.Success? ==> |r.value.days| == req.days.value
    ensures r.Success? ==> forall i :: 0 <= i < |r.value.days| ==>
      SoundDay(r.value.days[i], req.start, Limits(req.hours, req.budget), o.dist)
    ensures r.Success? ==> forall i :: 0 <= i < |r.value.days| ==>
      IsSubseq(RowsOf(r.value.days[i].stops), Ranking(req, t, o))
    ensures r.Success? ==> forall i, j :: 0 <= i < j < |r.value.days| ==>
      IdsOf(r.value.days[i].stops) !! IdsOf(r.value.days[j].stops)
    ensures r.Success? ==> forall i :: 0 <= i < |r.value.days| ==>
      (r.value.days[i].stops == [] <==>
        NoneFits(Ranking(req, t, o), req.start, Limits(req.hours, req.budget), o.dist, AllIds(r.value.days[..i])))
    ensures r.Success? ==> forall i :: 0 <= i < |r.value.days| ==>
      r.value.days[i] == PlanDay(Ranking(req, t, o), req.start, Limits(req.hours, req.budget), o.dist, AllIds(r.value.days[..i])).0
    ensures r.Success? ==> r.value.mse == MeanMse(Ranking(req, t, o))
    ensures r.Success? ==> (r.value.mse.None? <==> Ranking(req, t, o) == [])
    ensures r.Success? ==> r.value.flights == RecommendFlights(t.flights, req.departure, req.destination, req.budget)
    ensures r.Success? ==> forall f :: f in r.value.flights ==>
      && f in t.flights
      && IsGiven(req.departure) && IsGiven(req.destination)
      && OnRoute(f, req.departure.value, req.destination.value)
  {
    if req.days.Some? && req.days.value > 0 then
      var ranking := Ranking(req, t, o);
      var days := PlanTrip(ranking, req.start, req.days.value, Limits(req.hours, req.budget), o.dist);
      var flights := RecommendFlights(t.flights, req.departure, req.destination, req.budget);
      assert |days| == req.days.value;
      Success(Itinerary(days, MeanMse(ranking), flights))
    else
      Failure(MseUnbound)
  }
}
