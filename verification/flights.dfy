/** Flight suggestions: city names are mapped to airport names, flights on
    the route are kept (within the budget when one is set), cheapest first,
    and an empty budgeted search falls back to the search without a budget. */
module Flights {
  import opened Common
  import opened Seqs
  import opened Catalog

  /** The airport serving each city the recommender knows by name. */
  const AirportNames: map<string, string> := map[
    "Jakarta" := "Bandar Udara Internasional Soekarno Hatta",
    "Yogyakarta" := "Bandar Udara Internasional Yogyakarta",
    "Semarang" := "Bandar Udara Jenderal Ahmad Yani",
    "Surabaya" := "Bandar Udara Internasional Juanda",
    "Singapore" := "Bandar Udara Internasional Changi Singapura",
    "Palembang" := "Bandar Udara Internasional Sultan Mahmud Badaruddin II",
    "Balikpapan" := "Bandar Udara Internasional Sultan Aji Muhammad Sulaiman Sepinggan Balikpapan",
    "Merauke" := "Bandar Udara Mopah",
    "Jakarta (Halim Perdanakusuma)" := "Bandar Udara Internasional Halim Perdanakusuma",
    "Banjarmasin" := "Bandar Udara Internasional Syamsudin Noor",
    "Jayapura" := "Bandar Udara Sentani",
    "Denpasar" := "Bandara Internasional I Gusti Ngurah Rai",
    "Makassar" := "Bandar Udara Internasional Sultan Hasanuddin",
    "Banda Aceh" := "Bandar Udara Internasional Sultan Iskandar Muda"
  ]

  /** The airport name for a city; a name the table does not know is
      taken to be an airport name already and passes through unchanged. */
  function AirportOf(city: string): (r: string)
    ensures city !in AirportNames ==> r == city
    ensures city in AirportNames ==> r in AirportNames.Values && r !in AirportNames
  {
    if city in AirportNames then AirportNames[city] else city
  }

  /** Mapping is idempotent: an airport name maps to itself. */
  lemma AirportOfIdempotent(city: string)
    ensures AirportOf(AirportOf(city)) == AirportOf(city)
  {
  }

  /** Two cities of the table never share an airport. */
  lemma AirportsAreDistinct(a: string, b: string)
    requires a in AirportNames && b in AirportNames
    requires AirportOf(a) == AirportOf(b)
    ensures a == b
  {
    CityOfAirport(a);
    CityOfAirport(b);
  }

  /** The city served by each airport of the table. */
  const AirportCities: map<string, string> := map[
    "Bandar Udara Internasional Soekarno Hatta" := "Jakarta",
    "Bandar Udara Internasional Yogyakarta" := "Yogyakarta",
    "Bandar Udara Jenderal Ahmad Yani" := "Semarang",
    "Bandar Udara Internasional Juanda" := "Surabaya",
    "Bandar Udara Internasional Changi Singapura" := "Singapore",
    "Bandar Udara Internasional Sultan Mahmud Badaruddin II" := "Palembang",
    "Bandar Udara Internasional Sultan Aji Muhammad Sulaiman Sepinggan Balikpapan" := "Balikpapan",
    "Bandar Udara Mopah" := "Merauke",
    "Bandar Udara Internasional Halim Perdanakusuma" := "Jakarta (Halim Perdanakusuma)",
    "Bandar Udara Internasional Syamsudin Noor" := "Banjarmasin",
    "Bandar Udara Sentani" := "Jayapura",
    "Bandara Internasional I Gusti Ngurah Rai" := "Denpasar",
    "Bandar Udara Internasional Sultan Hasanuddin" := "Makassar",
    "Bandar Udara Internasional Sultan Iskandar Muda" := "Banda Aceh"
  ]

  /** Each airport of the table maps back to the city it serves. */
  lemma CityOfAirport(city: string)
    requires city in AirportNames
    ensures AirportNames[city] in AirportCities && AirportCities[AirportNames[city]] == city
  {
  }

  function PriceOf(f: Flight): real
  {
    f.price
  }

  predicate OnRoute(f: Flight, from: string, to: string)
  {
    f.departure == AirportOf(from) && f.arrival == AirportOf(to)
  }

  /** Within the budget, where `None` and `0` mean no budget. */
  predicate Affordable(f: Flight, budget: Option<real>)
  {
    !IsSet(budget) || f.price <= budget.value
  }

  function Matches(from: string, to: string, budget: Option<real>): Flight -> bool
  {
    f => OnRoute(f, from, to) && Affordable(f, budget)
  }

  /** The flights on the route from `from` to `to` within the budget, cheapest
      first: exactly those rows of the table, each as often as it occurs. */
  function FilterFlights(flights: seq<Flight>, from: string, to: string, budget: Option<real>): (r: seq<Flight>)
    ensures SortedBy(r, PriceOf)
    ensures forall f :: multiset(r)[f] == if OnRoute(f, from, to) && Affordable(f, budget) then multiset(flights)[f] else 0
    ensures forall f :: f in r <==> f in flights && OnRoute(f, from, to) && Affordable(f, budget)
    ensures multiset(r) == multiset(Filter(flights, Matches(from, to, budget)))
  {
    var kept := Filter(flights, Matches(from, to, budget));
    var r := SortBy(kept, PriceOf);
    assert forall f :: f in r <==> f in multiset(r);
    assert forall f :: f in kept <==> f in multiset(kept);
    r
  }

  /** The flight suggestions for a request: none unless both cities are
      given; otherwise the budgeted search, or the unbudgeted one when the
      budgeted search finds nothing and a budget is set. */
  function RecommendFlights(flights: seq<Flight>, from: Option<string>, to: Option<string>, budget: Option<real>): (r: seq<Flight>)
    ensures !(IsGiven(from) && IsGiven(to)) ==> r == []
    ensures SortedBy(r, PriceOf)
    ensures forall f :: f in r ==> f in flights && IsGiven(from) && IsGiven(to) && OnRoute(f, from.value, to.value)
    ensures IsGiven(from) && IsGiven(to) && SomeAffordable(flights, from.value, to.value, budget) ==>
      multiset(r) == multiset(Filter(flights, Matches(from.value, to.value, budget)))
    ensures IsGiven(from) && IsGiven(to) && !SomeAffordable(flights, from.value, to.value, budget) ==>
      multiset(r) == multiset(Filter(flights, Matches(from.value, to.value, None)))
  {
    if IsGiven(from) && IsGiven(to) then
      var r := FilterFlights(flights, from.value, to.value, budget);
      RetryFacts(flights, from.value, to.value, budget, r);
      if r == [] && IsSet(budget) then FilterFlights(flights, from.value, to.value, None) else r
    else []
  }

  /** Some flight of the table is on the route and within the budget. */
  predicate SomeAffordable(flights: seq<Flight>, from: string, to: string, budget: Option<real>)
  {
    exists f :: f in flights && OnRoute(f, from, to) && Affordable(f, budget)
  }

  /** The budgeted search is empty exactly when no route flight is within the
      budget; without a set budget it then equals the unbudgeted search. */
  lemma RetryFacts(flights: seq<Flight>, from: string, to: string, budget: Option<real>, r: seq<Flight>)
    requires r == FilterFlights(flights, from, to, budget)
    ensures r == [] <==> !SomeAffordable(flights, from, to, budget)
    ensures !IsSet(budget) ==>
      multiset(Filter(flights, Matches(from, to, budget))) == multiset(Filter(flights, Matches(from, to, None)))
  {
    if SomeAffordable(flights, from, to, budget) {
      var g :| g in flights && OnRoute(g, from, to) && Affordable(g, budget);
      assert g in r;
    }
    if r != [] {
      assert r[0] in r;
    }
    if !IsSet(budget) {
      UnsetBudgetMatchesAll(flights, from, to, budget);
    }
  }

  lemma UnsetBudgetMatchesAll(flights: seq<Flight>, from: string, to: string, budget: Option<real>)
    requires !IsSet(budget)
    ensures multiset(Filter(flights, Matches(from, to, budget))) == multiset(Filter(flights, Matches(from, to, None)))
  {
    var a := Filter(flights, Matches(from, to, budget));
    var b := Filter(flights, Matches(from, to, None));
    forall x
      ensures multiset(a)[x] == multiset(b)[x]
    {
      assert Matches(from, to, budget)(x) == Matches(from, to, None)(x);
    }
  }

  /** With both cities given, the suggestions are empty exactly when the
      table has no flight on the route at all, whatever the budget. */
  lemma {:induction false} NoFlightsIffNoRoute(flights: seq<Flight>, from: string, to: string, budget: Option<real>)
    requires |from| > 0 && |to| > 0
    ensures RecommendFlights(flights, Some(from), Some(to), budget) == [] <==>
      forall f :: f in flights ==> !OnRoute(f, from, to)
  {
    var r := RecommendFlights(flights, Some(from), Some(to), budget);
    if f :| f in flights && OnRoute(f, from, to) {
      SomeFlightFound(flights, from, to, budget, f);
    } else if r != [] {
      assert r[0] in r;
    }
  }

  lemma {:induction false} SomeFlightFound(flights: seq<Flight>, from: string, to: string, budget: Option<real>, f: Flight)
    requires |from| > 0 && |to| > 0
    requires f in flights && OnRoute(f, from, to)
    ensures RecommendFlights(flights, Some(from), Some(to), budget) != []
  {
    var within := FilterFlights(flights, from, to, budget);
    var all := FilterFlights(flights, from, to, None);
    assert f in all;
    if IsSet(budget) {
      assert within == [] ==> RecommendFlights(flights, Some(from), Some(to), budget) == all;
    } else {
      assert f in within;
    }
  }

  /** When some flight on the route is within the budget, every suggestion
      is within the budget. */
  lemma BudgetRespectedWhenPossible(flights: seq<Flight>, from: string, to: string, budget: Option<real>, g: Flight)
    requires |from| > 0 && |to| > 0
    requires g in flights && OnRoute(g, from, to) && Affordable(g, budget)
    ensures forall f :: f in RecommendFlights(flights, Some(from), Some(to), budget) ==> Affordable(f, budget)
  {
    var within := FilterFlights(flights, from, to, budget);
    assert g in within;
    assert RecommendFlights(flights, Some(from), Some(to), budget) == within;
  }
}
