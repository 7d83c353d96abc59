/** The records the recommender reads: catalog places (one row per place,
    after the per-place aggregation of the rating table), rating rows and
    flights. */
module Catalog {

  type PlaceId = int
  type UserId = int
  type Category = string

  /** A catalog row: `Time_Minutes` is the expected visit length and
      `Rating` the catalog rating of the place. */
  datatype Place = Place(
    id: PlaceId,
    name: string,
    category: Category,
    city: string,
    price: real,
    minutes: real,
    lat: real,
    lng: real,
    rating: real)

  /** One row of the rating table. */
  datatype Rating = Rating(user: UserId, place: PlaceId, score: real)

  /** One row of the flight table. */
  datatype Flight = Flight(departure: string, arrival: string, price: real)

  /** Place identities are unique, as they are in the aggregated catalog. */
  predicate UniqueIds(ps: seq<Place>)
  {
    forall i, j :: 0 <= i < j < |ps| ==> ps[i].id != ps[j].id
  }

  /** A user is known when some rating row carries the user's id. */
  predicate IsKnownUser(ratings: seq<Rating>, user: UserId)
  {
    exists k :: 0 <= k < |ratings| && ratings[k].user == user
  }
}
