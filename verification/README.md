# Tourist itinerary recommender — a Dafny model of its decision logic

This project models the decision logic of a Flask tourism recommender
(`app.py`). Given a request, the recommender:

- chooses the categories of interest;
- keeps the catalog places in the requested city with those categories;
- builds a content-based table of similar places;
- gives every row a collaborative-filtering rating and a consistency score
  `mse = (Rating - cf_rating)^2`;
- ranks the rows by ascending `mse`, keeping one row per place;
- plans a multi-day itinerary greedily from that ranking;
- suggests flights between two cities.

The model is functional: immutable records and sequences, and the scheduler
is a fold over days and ranking rows.

## Modules

- `Common`: `Option`, `Result`, Python truthiness of the optional request
  values. A budget of `None` or `0` imposes no limit, and an empty string
  filters nothing.
- `Seqs`: order-preserving filter, stable sort by a real key, keep-first
  de-duplication by a key, subsequences.
- `Text`: case-insensitive substring test for city matching.
- `Catalog`: place, rating and flight records.
- `PlaceFilter`: `filter_places`.
- `Categories`: category resolution.
  - Explicit categories are kept; a single one is wrapped in a list.
  - An existing user gets the two most frequent categories of the rating
    table.
  - A new user gets the three best-rated categories among the places of
    their city.
- `Neighbours`: the neighbour selection of `calculate_cbf_scores`. The
  similarity matrix is an input.
- `Fusion`: the `mse` score, the sort by `mse`, the de-duplication on
  `Place_Id`, and the mean `mse`.
- `Scheduler`: the day loop.
  - Each day restarts at the traveller's position.
  - Each day rescans the whole ranking.
  - It skips places visited on any earlier day, places that would push the
    day past its hour limit, and places that would push the day past a set
    budget.
- `Flights`: `map_city_to_airport`, `filter_flights`, and the budget
  fallback of the request handler.
- `Recommend`: the whole `recommend_tourist_destinations` pipeline over
  abstract oracles:
  - the trained model's rating prediction;
  - the new-user jitter;
  - the similarity matrix builder;
  - the distance function.

## Where the model follows the code rather than the documentation

- **Explicit categories.** An explicit category list is used whenever it is
  not `None`, even when it is empty; an empty list then filters nothing.
- **Neighbour slots.** Each anchor gets `min(10, n) - 1` slots of the
  ascending argsort, and the anchor itself normally takes one of them. So
  at most `min(10, n) - 2` neighbours come out when a place is most similar
  to itself, not ten (`Neighbours.SelfTakesASlot`). For `n = 1` the slice
  `[-0:]` is the whole row, which then holds only the anchor.
- **Existing users.** The existing-user path counts categories over the
  whole rating table joined with the catalog. The ratings of the requesting
  user, which the code selects, are never used.
- **No days.** When `days` is absent, zero or negative, the day loop never
  runs and the mean `mse` is never assigned. Returning it then fails, and
  the model returns `Failure(MseUnbound)` instead of an empty itinerary.
- **Travel time.** At the assumed 60 km/h, the travel minutes of a leg
  equal its kilometres (`Scheduler.TravelMinutes`).

## Model

| member | source | states |
|---|---|---|
| PlaceFilter.FilterPlaces | app.py:257-280 | The kept rows are exactly the catalog rows that pass both tests, in catalog order and with their multiplicities. City test: the city is absent or empty, or the place's city contains it ignoring case. Category test: the list is absent or empty, or it lists the place's category. |
| PlaceFilter.FiltersCompose | app.py:270-278 | Filtering by city and then by category gives the same rows as filtering by both at once. |
| PlaceFilter.FilterIdempotent | app.py:257-280 | Filtering a filtered table again with the same arguments changes nothing. |
| PlaceFilter.NoFilterKeepsAll | app.py:270-278 | With neither a city nor categories, every catalog row is kept. |
| Text.SubstringAtSomePosition | app.py:272 | The scanning substring test holds exactly when some window of the text equals the needle. |
| Text.CaseOfArgumentsIrrelevant | app.py:272 | Lower-casing either argument first does not change the case-insensitive verdict. |
| Categories.CategoryOf | app.py:327 | The catalog lookup finds a category exactly when some catalog row has the id, and the category is that row's. |
| Categories.RatedCategories | app.py:327-330 | The joined category column holds each category exactly as often as there are ratings of catalog places of that category, so its value counts are the rating counts per category. Every entry is the category of some catalog place. |
| Categories.Kinds | app.py:330 | The distinct categories: no repeats, and exactly the values of the column. |
| Categories.TopBy | app.py:340-342 | Gives the first k distinct candidates by descending score: exactly min(k, n) of them, distinct, in non-increasing score order, and no left-out candidate scores higher than a chosen one. |
| Categories.MostFrequent | app.py:330-334 | Gives min(2, number of distinct categories) categories, most frequent first. No category left out occurs more often than a chosen one. |
| Categories.MostFrequentCategories | app.py:327-334 | The existing-user choice has min(2, number of rated categories) distinct categories, each with at least one rating. They come in non-increasing order of rating count, and no category left out has more ratings than a chosen one. |
| Categories.CityPlaces | app.py:338 | Holds exactly the catalog rows whose city contains the user's city, ignoring case. |
| Categories.BestRated | app.py:339-342 | Gives exactly min(3, number of distinct categories of the places) distinct categories of the places, by non-increasing mean rating. No category left out has a higher mean than a chosen one. |
| Categories.TopRatedCategories | app.py:338-342 | The new-user choice has min(3, number of categories in the city) distinct categories, each the category of a place whose city contains the user's city. They come in non-increasing mean rating over the city's places. No place of the city has a left-out category with a higher mean than a chosen one. |
| Categories.ResolveCategories | app.py:320-350 | An explicit list is used unchanged and an explicit single category becomes a one-element list. Otherwise an existing user gets the most-frequent choice: min(2, number of rated categories) categories, all present in the rating table. A new user gets the top-rated choice: min(3, number of categories in the city), each the category of a place whose city contains the user's city. |
| Neighbours.ArgSort | app.py:166 | The argsort of a row has one entry per index, each a valid index. |
| Neighbours.ArgSortFacts | app.py:166 | The argsort is a permutation of the row's indices: every index occurs, none twice, and the values ascend along it. |
| Neighbours.TopOf | app.py:165-166 | The reversed tail slice holds min(10, n) - 1 indices, or all n when that is 0. Entry p is entry n - 1 - p of the argsort, so every entry is a valid index. |
| Neighbours.TopOfOrder | app.py:165-166 | The slice repeats no index and lists its indices in non-increasing similarity. |
| Neighbours.TopOfBeatsRest | app.py:165-166 | No index outside the slice is more similar than an index in it. |
| Neighbours.NeighbourIndices | app.py:164-169 | An index is chosen exactly when it is in the top slice and is not the anchor. Between min(10, n) - 2 and min(10, n) - 1 indices are chosen, all valid indices other than the anchor. |
| Neighbours.ChosenOrder | app.py:165-169 | The chosen indices do not repeat and come in non-increasing similarity. |
| Neighbours.ChosenBeatRest | app.py:165-169 | No index left out, apart from the anchor, is more similar than a chosen one. |
| Neighbours.SelfTakesASlot | app.py:165-169 | When an anchor is strictly more similar to itself than to every other place and n >= 2, exactly min(10, n) - 2 neighbours are chosen. |
| Neighbours.AnchorRows | app.py:168-175 | An anchor emits one row per chosen neighbour, in the order they are chosen. Row k carries place j and the anchor's similarity to j, for j the k-th chosen index. So it has between min(10, n) - 2 and min(10, n) - 1 rows. |
| Neighbours.AnchorRowsOrder | app.py:168-175 | An anchor's rows are rows of places of the list, in non-increasing similarity. With unique ids no row is the anchor itself. |
| Neighbours.AnchorRowsChosen | app.py:168-175 | An anchor's rows are exactly the rows (place j, similarity to j) of its chosen neighbours j. |
| Neighbours.TableSize | app.py:163-175 | The table built from all anchors has between n * (min(10, n) - 2) and n * (min(10, n) - 1) rows. |
| Neighbours.TablePlaces | app.py:163-175 | Every row of the table is about a place of the filtered list. |
| Neighbours.TableCovers | app.py:163-175 | The table holds the row (place j, similarity of anchor i to j) for every anchor i and every neighbour j chosen for it. |
| Neighbours.TableOnlyChosen | app.py:163-175 | Every row of the table is the row of some anchor i and a neighbour j chosen for it. |
| Neighbours.CbfScores | app.py:145-182 | An empty place list or a similarity matrix that could not be built gives an empty table. Otherwise the table holds the row (place j, similarity of anchor i to j) for every anchor i and every neighbour j chosen for it, and no other rows. It has between n * (min(10, n) - 2) and n * (min(10, n) - 1) rows. |
| Fusion.ScoreRow | app.py:365-403 | A fused row keeps the neighbour's place and similarity. Its collaborative rating is the model's prediction for a known user, or the place's rating plus its jitter for a new user. Its `mse` is the square of the difference between the place's rating and that collaborative rating. |
| Fusion.Fuse | app.py:401-409 | The fused ranking has ascending `mse` and pairwise-distinct place ids, and it covers exactly the place ids of the content-based table. Each kept row comes from the merged table and has the least `mse` among the rows of its place. |
| Fusion.MeanMse | app.py:473 | The mean `mse` is absent (NaN in the source) exactly when the ranking is empty. |
| Fusion.MeanWithin | app.py:473 | The mean lies between any lower and upper bound of the rows' `mse`. |
| Fusion.FusedMeanBounds | app.py:473 | For a non-empty ranking, 0 <= first row's `mse` <= mean <= last row's `mse`. |
| Fusion.FallbackRanksByJitter | app.py:372-382 | For a new user each row's `mse` is the square of its place's jitter, so the ranking orders places by the size of their jitter alone. |
| Scheduler.TravelMinutes | app.py:209-211 | At 60 km/h the travel minutes equal the kilometres. |
| Scheduler.Step | app.py:431-464 | A row is taken exactly when its place is unvisited, the day's hours stay within the limit, and a set budget is not exceeded. Taking it appends the leg from the current position, adds its hours and price, moves the traveller there and marks it visited. Otherwise the state is unchanged. |
| Scheduler.ScanDay | app.py:429-464 | The scan keeps the stops already taken. It adds only rows of the ranking, in ranking order. The visited set grows by exactly the new stops' places. It adds nothing exactly when its starting state would take no row of the ranking. |
| Scheduler.ScanSkipsRejected | app.py:430-447 | Rows that the current state does not take leave the scan's state as it was. |
| Scheduler.ScanTakesFirstFit | app.py:430-464 | Greedy choice: the next stop is the leg to the first row that is unvisited and fits the state after the previous stop. The scan then continues from the updated state with the rows after that one. |
| Scheduler.StepKeepsInvariant | app.py:432-464 | One step preserves the day invariant: the totals are the sums over the stops, the limits hold, the legs chain from the start, the ids are distinct and unvisited before the day, and the visited set tracks them. |
| Scheduler.ScanKeepsInvariant | app.py:430-464 | The invariant holds from the first ranking row to the last. |
| Scheduler.PlanDay | app.py:420-470 | A finished day is sound. It starts at the traveller's position and repeats no earlier-visited place. Its stops are a subsequence of the ranking, and the visited set grows by exactly its places. The day is empty exactly when no unvisited ranking row fits an empty day on its own. |
| Scheduler.Schedule | app.py:412-470 | There is one plan per day and every day is sound. Each day's stops are a subsequence of the ranking. No place appears on two days or was visited before. The final visited set is the initial one plus every scheduled place. Day i is empty exactly when no ranking row unvisited before day i fits an empty day on its own. Day i is the greedy day planned from the initial visited set plus the places of days 0 to i - 1. |
| Scheduler.GreedyCons | app.py:412-470 | Prepending a greedy first day to greedy later days, planned with that day's places added to the visited set, gives a trip in which every day is greedy for the places visited before it. |
| Scheduler.EmptyDayEndsTrip | app.py:420-470 | Once a day takes nothing, every later day takes nothing either. |
| Scheduler.TooLongNeverScheduled | app.py:439-443 | With non-negative distances and visit lengths, no place whose visit alone exceeds the daily hour limit is ever scheduled. |
| Scheduler.DayOpensWithFirstFit | app.py:425-464 | A day opens with the leg from the traveller's position to the first ranking row that is unvisited and fits an empty day on its own. |
| Scheduler.BothFittingRowsAppear | app.py:430-464 | Take rows k < m. Suppose row k is the first row an empty day takes, and row m is the first row after it that the day takes once it holds row k. Then the day's first two stops are the legs to row k and to row m. The first leg starts at the traveller's position, and the second starts where row k left the traveller. |
| Flights.AirportOf | app.py:220-238 | A city missing from the table maps to itself. A listed city maps to a listed airport name, which is not itself a city key, so mapping twice is mapping once. |
| Flights.FilterFlights | app.py:242-255 | Keeps exactly the flights whose departure and arrival equal the mapped airports and whose price is within a set budget, each as often as in the table, cheapest first. |
| Flights.RetryFacts | app.py:252-255 | The budgeted search is empty exactly when no route flight is within the budget. Without a set budget it holds the same flights as the unbudgeted search. |
| Flights.RecommendFlights | app.py:308-315 | Unless both cities are given there are no suggestions. Otherwise the suggestions are cheapest first. When some route flight is within the budget, they are every route flight within the budget, each as often as in the table. Otherwise they are every route flight regardless of price. |
| Flights.NoFlightsIffNoRoute | app.py:309-315 | With both cities given, the suggestions are empty exactly when the table has no flight on the route, whatever the budget. This holds because of the unbudgeted retry. |
| Flights.BudgetRespectedWhenPossible | app.py:310-315 | When some flight on the route is within the budget, every suggestion is within it. |
| Recommend.AffinityFor | app.py:318-382 | The prediction branch is chosen exactly when the user has a rating. A known user's collaborative rating for a place is the model's prediction. A new user's is the place's rating plus its jitter. |
| Recommend.Ranking | app.py:318-409 | The ranking planned from has ascending `mse` and distinct place ids. Every ranked place is a catalog place that passes the city filter and the resolved category filter. Its place ids are exactly those of the content-based table built from the filtered places. Every row is a scored row of that table. Its collaborative rating follows the user's kind, and its `mse` is the squared difference from the place's rating. No table row of the same place scores a lower `mse`. |
| Recommend.RankedRowsScored | app.py:366-409 | Rows taken from a scored table carry the collaborative rating of the user's kind and the squared error of that rating. Rows that are least-`mse` by table index are least-`mse` against every table row of their place. |
| Recommend.PlanTrip | app.py:412-470 | The trip has exactly the requested number of sound days. Each day is a subsequence of the ranking, and no place appears on two days. Day i is empty exactly when no ranking row unvisited by days 0 to i - 1 fits an empty day. Day i is the greedy day planned after the places of days 0 to i - 1. |
| Recommend.RecommendTrip | app.py:283-475 | The request fails exactly when `days` is absent or not positive. Otherwise it gives exactly `days` sound days, each a subsequence of the ranking, with no place on two days. A day is empty exactly when no ranking row still unvisited fits an empty day. Each day is the greedy day planned from the ranking after the places of the earlier days. The mean `mse` is the mean over that ranking, and it is absent exactly when the ranking is empty. The flights are the flight recommendation for the requested cities and budget, so each one is a flight of the table on the requested route. |

## Left out

- CSV loading and the pandas table preparation (grouping, merging, median imputation) are left out because they are data I/O. The catalog is one record per place.
- The Keras model (construction, training, loading and `predict_ratings`) is left out because it is a foreign library. It is the `predict` oracle.
- TF-IDF vectorisation and cosine similarity are left out because they are library floating-point code. The similarity matrix is an oracle result. It is `None` when the vectoriser fails, and it is assumed square.
- The haversine formula in `calculate_distance` is left out because it is floating-point trigonometry. The distance is an oracle that always returns a number, assumed non-negative where a lemma needs it. Its `None` return on an exception is left out.
- The `np.random.uniform` jitter is left out because it is random. The per-place jitter is an oracle. The catalog rating is the place's own rating, so the fallback to the overall mean is unreachable.
- The Flask route, JSON conversion, the duplicated call in the handler and all `print` logging are left out because they are HTTP and console glue.
- Floating point is modelled as exact `real` arithmetic. NaN is represented only by the absent mean of an empty ranking.
- Tie order is not modelled. Where several orders are possible for equal keys, the model fixes one and its contracts say nothing about the order of tied rows. The source sorts keys that can tie in these places:
  - the pandas `sort_values` on `mse` (app.py:406) and on price (app.py:255) use an unstable quicksort; the model sorts stably;
  - the numpy `argsort` of a similarity row (app.py:166) also uses quicksort. Among equal similarities its order decides which indices fall in the `[-(n-1):]` slice, and so whether the anchor takes a slot. The model's argsort keeps equal values in index order;
  - `groupby` (app.py:340) sorts the category keys alphabetically before the descending sort by mean rating, so ties among categories come out in a library-dependent order. Among equal means the model keeps the categories in order of first occurrence.
- Text.ContainsIgnoreCase: `str.contains(case=False)` is a regular-expression search with Unicode case folding. The model uses a literal substring test with ASCII lower-casing.
- Recommend.RecommendTrip: failure is promised only for a missing or non-positive `days`. Two further failure paths are not modelled, because they depend on library behaviour outside the model:
  - a coordinate the distance computation rejects, such as an infinite or `None` latitude, makes `calculate_distance` return `None`, and unpacking it then raises;
  - for an existing user whose content-based table is empty, the trained model is asked to predict zero samples, which the library rejects.
- Recommend.RecommendTrip: `user_city` is taken to be a string. With `None` the new-user path would raise inside pandas. The `is_new_user` flag is ignored by the source and not modelled.
- Flights.RecommendFlights: the rows are flight records; the other flight columns are carried through unchanged in the source and not modelled.
