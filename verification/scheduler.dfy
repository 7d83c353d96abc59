/** The day-by-day itinerary builder: each day starts again at the
    traveller's starting point and scans the fused ranking in order, taking
    every place that has not been visited yet and still fits the day's hour
    limit and, when one is given, the day's budget. */
module Scheduler {
  import opened Common
  import opened Seqs
  import opened Catalog
  import opened Fusion

  datatype Coord = Coord(lat: real, lng: real)

  function Location(p: Place): Coord
  {
    Coord(p.lat, p.lng)
  }

  /** The great-circle distance in kilometres between two points. */
  type Distance = (Coord, Coord) -> real

  /** Travel minutes for a leg at the assumed average speed of 60 km/h: the
      number of minutes equals the number of kilometres. */
  function TravelMinutes(km: real): (m: real)
    ensures m == km
    ensures km >= 0.0 ==> m >= 0.0
  {
    (km / 60.0) * 60.0
  }

  /** A scheduled stop: the fused row, the leg's length and its travel time. */
  datatype Stop = Stop(row: Scored, km: real, travel: real)

  /** Hours a stop costs the day: its visit plus the leg that reaches it. */
  function StopHours(s: Stop): real
  {
    s.row.place.minutes / 60.0 + s.travel / 60.0
  }

  function StopId(s: Stop): PlaceId
  {
    s.row.place.id
  }

  /** The day's limits: hours per day and an optional budget per day
      (`None` or `0` means no budget). */
  datatype Limits = Limits(hours: real, budget: Option<real>)

  /** The running state of one day's scan. */
  datatype DayState = DayState(stops: seq<Stop>, hours: real, spend: real, pos: Coord, visited: set<PlaceId>)

  /** One finished day. */
  datatype DayPlan = DayPlan(stops: seq<Stop>, hours: real, spend: real)

  /** The whole itinerary and the places visited by the end of it. */
  datatype Plan = Plan(days: seq<DayPlan>, visited: set<PlaceId>)

  function TotalHours(stops: seq<Stop>): real
  {
    if stops == [] then 0.0 else TotalHours(stops[..|stops| - 1]) + StopHours(stops[|stops| - 1])
  }

  function TotalSpend(stops: seq<Stop>): real
  {
    if stops == [] then 0.0 else TotalSpend(stops[..|stops| - 1]) + stops[|stops| - 1].row.place.price
  }

  function IdsOf(stops: seq<Stop>): set<PlaceId>
  {
    set k | 0 <= k < |stops| :: StopId(stops[k])
  }

  /** The fused rows of the stops, in order. */
  function RowsOf(stops: seq<Stop>): (r: seq<Scored>)
    ensures |r| == |stops|
    ensures forall k :: 0 <= k < |stops| ==> r[k] == stops[k].row
  {
    seq(|stops|, k requires 0 <= k < |stops| => stops[k].row)
  }

  predicate DistinctIds(stops: seq<Stop>)
  {
    forall i, j :: 0 <= i < j < |stops| ==> StopId(stops[i]) != StopId(stops[j])
  }

  /** Where the leg to stop `k` starts: the day's start or the previous stop. */
  function From(stops: seq<Stop>, start: Coord, k: nat): Coord
    requires k <= |stops|
  {
    if k == 0 then start else Location(stops[k - 1].row.place)
  }

  /** Every leg is measured from where the previous stop left the traveller. */
  predicate Chained(stops: seq<Stop>, start: Coord, dist: Distance)
  {
    forall k :: 0 <= k < |stops| ==>
      && stops[k].km == dist(From(stops, start, k), Location(stops[k].row.place))
      && stops[k].travel == TravelMinutes(stops[k].km)
  }

  /** The leg from the current position to the place of `row`. */
  function Leg(st: DayState, row: Scored, dist: Distance): (s: Stop)
    ensures s.row == row && s.travel == s.km
    ensures s.km == dist(st.pos, Location(row.place))
  {
    var km := dist(st.pos, Location(row.place));
    Stop(row, km, TravelMinutes(km))
  }

  /** A stop fits when the day's hours stay within the limit and, when a
      budget is set, the day's spending stays within it. */
  predicate Fits(st: DayState, s: Stop, lim: Limits)
  {
    && st.hours + StopHours(s) <= lim.hours
    && (!IsSet(lim.budget) || st.spend + s.row.place.price <= lim.budget.value)
  }

  /** The scan takes `row` in state `st`: its place has not been visited
      and the leg to it fits the day. */
  predicate Takes(st: DayState, row: Scored, lim: Limits, dist: Distance)
  {
    row.place.id !in st.visited && Fits(st, Leg(st, row, dist), lim)
  }

  /** One iteration of the scan: a visited place is skipped, a place that
      does not fit is skipped, anything else is taken and the traveller moves
      there. */
  function Step(st: DayState, row: Scored, lim: Limits, dist: Distance): (r: DayState)
    ensures |r.stops| == |st.stops| + 1 <==> row.place.id !in st.visited && Fits(st, Leg(st, row, dist), lim)
    ensures |r.stops| == |st.stops| ==> r == st
    ensures |r.stops| == |st.stops| + 1 ==>
      && r.stops == st.stops + [Leg(st, row, dist)]
      && r.hours == st.hours + StopHours(Leg(st, row, dist))
      && r.spend == st.spend + row.place.price
      && r.pos == Location(row.place)
      && r.visited == st.visited + {row.place.id}
    ensures |r.stops| == |st.stops| || |r.stops| == |st.stops| + 1
  {
    if row.place.id in st.visited then st
    else
      var s := Leg(st, row, dist);
      if st.hours + StopHours(s) > lim.hours then st
      else if IsSet(lim.budget) && st.spend + row.place.price > lim.budget.value then st
      else DayState(st.stops + [s], st.hours + StopHours(s), st.spend + row.place.price, Location(row.place), st.visited + {row.place.id})
  }

  /** The scan of one day over the whole ranking: the stops already taken
      stay, the new stops are rows of the ranking in ranking order, and the
      visited set grows by exactly the new stops' places. */
  function ScanDay(st: DayState, ranking: seq<Scored>, lim: Limits, dist: Distance): (r: DayState)
    ensures |st.stops| <= |r.stops| <= |st.stops| + |ranking|
    ensures r.stops[..|st.stops|] == st.stops
    ensures IsSubseq(RowsOf(r.stops[|st.stops|..]), ranking)
    ensures r.visited == st.visited + IdsOf(r.stops[|st.stops|..])
    ensures r.stops == st.stops <==> forall k :: 0 <= k < |ranking| ==> !Takes(st, ranking[k], lim, dist)
    decreases |ranking|
  {
    if ranking == [] then
      assert st.stops[|st.stops|..] == [] && st.stops[..|st.stops|] == st.stops;
      st
    else
      var next := Step(st, ranking[0], lim, dist);
      var r := ScanDay(next, ranking[1..], lim, dist);
      if |next.stops| == |st.stops| then
        SkipFacts(st, ranking, r);
        assert forall k :: 1 <= k < |ranking| ==> ranking[1..][k - 1] == ranking[k];
        r
      else
        TakeFacts(st, Leg(st, ranking[0], dist), next, ranking, r);
        SubseqCons(ranking[0], RowsOf(r.stops[|next.stops|..]), ranking);
        r
  }

  /** A skipped row leaves the later stops a subsequence of the whole ranking. */
  lemma SkipFacts(st: DayState, ranking: seq<Scored>, r: DayState)
    requires ranking != []
    requires |st.stops| <= |r.stops|
    requires IsSubseq(RowsOf(r.stops[|st.stops|..]), ranking[1..])
    ensures IsSubseq(RowsOf(r.stops[|st.stops|..]), ranking)
  {
    SubseqSkip(RowsOf(r.stops[|st.stops|..]), ranking);
  }

  /** A taken row heads the day's new stops. */
  lemma TakeFacts(st: DayState, s: Stop, next: DayState, ranking: seq<Scored>, r: DayState)
    requires ranking != [] && s.row == ranking[0]
    requires next.stops == st.stops + [s]
    requires next.visited == st.visited + {StopId(s)}
    requires |next.stops| <= |r.stops|
    requires r.stops[..|next.stops|] == next.stops
    requires IsSubseq(RowsOf(r.stops[|next.stops|..]), ranking[1..])
    requires r.visited == next.visited + IdsOf(r.stops[|next.stops|..])
    ensures r.stops[..|st.stops|] == st.stops
    ensures RowsOf(r.stops[|st.stops|..]) == [ranking[0]] + RowsOf(r.stops[|next.stops|..])
    ensures r.visited == st.visited + IdsOf(r.stops[|st.stops|..])
  {
    var later := r.stops[|next.stops|..];
    var added := r.stops[|st.stops|..];
    assert r.stops == st.stops + [s] + later;
    assert added == [s] + later;
    IdsCons(s, later);
  }

  lemma IdsCons(s: Stop, rest: seq<Stop>)
    ensures IdsOf([s] + rest) == {StopId(s)} + IdsOf(rest)
  {
    var all := [s] + rest;
    forall id | id in IdsOf(all)
      ensures id in {StopId(s)} + IdsOf(rest)
    {
      var k :| 0 <= k < |all| && StopId(all[k]) == id;
      if k > 0 {
        assert all[k] == rest[k - 1];
      }
    }
    forall id | id in IdsOf(rest)
      ensures id in IdsOf(all)
    {
      var k :| 0 <= k < |rest| && StopId(rest[k]) == id;
      assert all[k + 1] == rest[k];
    }
    assert StopId(all[0]) in IdsOf(all);
  }

  /** What holds of a day's state at every point of its scan, for a day that
      starts at `start` with the places in `before` already visited. */
  predicate DayInv(st: DayState, start: Coord, before: set<PlaceId>, lim: Limits, dist: Distance)
  {
    && st.hours == TotalHours(st.stops)
    && st.spend == TotalSpend(st.stops)
    && (st.stops == [] || st.hours <= lim.hours)
    && (st.stops == [] || !IsSet(lim.budget) || st.spend <= lim.budget.value)
    && Chained(st.stops, start, dist)
    && st.pos == From(st.stops, start, |st.stops|)
    && DistinctIds(st.stops)
    && IdsOf(st.stops) !! before
    && st.visited == before + IdsOf(st.stops)
  }

  /** The state a day starts from. */
  function Morning(start: Coord, visited: set<PlaceId>): (st: DayState)
    ensures st.stops == [] && st.visited == visited
  {
    DayState([], 0.0, 0.0, start, visited)
  }

  lemma {:induction false} StepKeepsInvariant(st: DayState, row: Scored, lim: Limits, dist: Distance, start: Coord, before: set<PlaceId>)
    requires DayInv(st, start, before, lim, dist)
    ensures DayInv(Step(st, row, lim, dist), start, before, lim, dist)
  {
    var r := Step(st, row, lim, dist);
    if |r.stops| == |st.stops| + 1 {
      var s := Leg(st, row, dist);
      SnocTotals(st.stops, s);
      SnocChained(st.stops, s, start, dist);
      assert StopId(s) !in IdsOf(st.stops);
      SnocDistinct(st.stops, s);
      IdsSnoc(st.stops, s);
      assert r.pos == From(r.stops, start, |r.stops|);
    }
  }

  lemma SnocTotals(stops: seq<Stop>, s: Stop)
    ensures TotalHours(stops + [s]) == TotalHours(stops) + StopHours(s)
    ensures TotalSpend(stops + [s]) == TotalSpend(stops) + s.row.place.price
  {
    assert (stops + [s])[..|stops|] == stops;
  }

  /** A leg measured from the end of the chain extends the chain. */
  lemma SnocChained(stops: seq<Stop>, s: Stop, start: Coord, dist: Distance)
    requires Chained(stops, start, dist)
    requires s.km == dist(From(stops, start, |stops|), Location(s.row.place))
    requires s.travel == TravelMinutes(s.km)
    ensures Chained(stops + [s], start, dist)
  {
    var all := stops + [s];
    forall k | 0 <= k < |all|
      ensures all[k].km == dist(From(all, start, k), Location(all[k].row.place))
      ensures all[k].travel == TravelMinutes(all[k].km)
    {
      if k < |stops| {
        assert all[k] == stops[k];
        assert From(all, start, k) == From(stops, start, k);
      } else {
        assert From(all, start, k) == From(stops, start, |stops|);
      }
    }
  }

  /** A stop whose place is new keeps the day free of repeated places. */
  lemma SnocDistinct(stops: seq<Stop>, s: Stop)
    requires DistinctIds(stops)
    requires StopId(s) !in IdsOf(stops)
    ensures DistinctIds(stops + [s])
  {
    var all := stops + [s];
    forall i, j | 0 <= i < j < |all|
      ensures StopId(all[i]) != StopId(all[j])
    {
      assert all[i] == stops[i];
      if j == |stops| {
        assert StopId(stops[i]) in IdsOf(stops);
      } else {
        assert all[j] == stops[j];
      }
    }
  }

  lemma IdsSnoc(stops: seq<Stop>, s: Stop)
    ensures IdsOf(stops + [s]) == IdsOf(stops) + {StopId(s)}
  {
    var all := stops + [s];
    forall id | id in IdsOf(all)
      ensures id in IdsOf(stops) + {StopId(s)}
    {
      var k :| 0 <= k < |all| && StopId(all[k]) == id;
      if k < |stops| {
        assert all[k] == stops[k];
      }
    }
    forall id | id in IdsOf(stops)
      ensures id in IdsOf(all)
    {
      var k :| 0 <= k < |stops| && StopId(stops[k]) == id;
      assert all[k] == stops[k];
    }
    assert StopId(all[|stops|]) in IdsOf(all);
  }

  /** The scan keeps the day invariant from the first row to the last. */
  lemma {:induction false} ScanKeepsInvariant(st: DayState, ranking: seq<Scored>, lim: Limits, dist: Distance, start: Coord, before: set<PlaceId>)
    requires DayInv(st, start, before, lim, dist)
    ensures DayInv(ScanDay(st, ranking, lim, dist), start, before, lim, dist)
    decreases |ranking|
  {
    if ranking != [] {
      StepKeepsInvariant(st, ranking[0], lim, dist, start, before);
      ScanKeepsInvariant(Step(st, ranking[0], lim, dist), ranking[1..], lim, dist, start, before);
    }
  }

  /** What a finished day guarantees: its totals are the sums over its
      stops, they respect the limits, every leg starts where the previous
      stop ended, and no place appears twice. */
  predicate SoundDay(d: DayPlan, start: Coord, lim: Limits, dist: Distance)
  {
    && d.hours == TotalHours(d.stops)
    && d.spend == TotalSpend(d.stops)
    && (d.stops == [] || d.hours <= lim.hours)
    && (d.stops == [] || !IsSet(lim.budget) || d.spend <= lim.budget.value)
    && Chained(d.stops, start, dist)
    && DistinctIds(d.stops)
  }

  /** No row of the ranking can open a day that starts at `start` with the
      places in `visited` already seen. */
  predicate NoneFits(ranking: seq<Scored>, start: Coord, lim: Limits, dist: Distance, visited: set<PlaceId>)
  {
    forall k :: 0 <= k < |ranking| ==> !Takes(Morning(start, visited), ranking[k], lim, dist)
  }

  /** One day's plan from the ranking, starting at `start`. */
  function PlanDay(ranking: seq<Scored>, start: Coord, lim: Limits, dist: Distance, visited: set<PlaceId>): (r: (DayPlan, set<PlaceId>))
    ensures SoundDay(r.0, start, lim, dist)
    ensures IdsOf(r.0.stops) !! visited
    ensures r.1 == visited + IdsOf(r.0.stops)
    ensures IsSubseq(RowsOf(r.0.stops), ranking)
    ensures r.0.stops == [] <==> NoneFits(ranking, start, lim, dist, visited)
  {
    var st := ScanDay(Morning(start, visited), ranking, lim, dist);
    ScanKeepsInvariant(Morning(start, visited), ranking, lim, dist, start, visited);
    assert st.stops[0..] == st.stops;
    (DayPlan(st.stops, st.hours, st.spend), st.visited)
  }

  function AllIds(days: seq<DayPlan>): set<PlaceId>
  {
    if days == [] then {} else IdsOf(days[0].stops) + AllIds(days[1..])
  }

  /** The itinerary over `days` days: every day is sound, no place is
      visited on two days or was visited before, and the visited set at the
      end holds exactly the places visited before and on the days. */
  function Schedule(ranking: seq<Scored>, start: Coord, days: nat, lim: Limits, dist: Distance, visited: set<PlaceId>): (r: Plan)
    ensures |r.days| == days
    ensures forall i :: 0 <= i < |r.days| ==> SoundDay(r.days[i], start, lim, dist)
    ensures forall i :: 0 <= i < |r.days| ==> IsSubseq(RowsOf(r.days[i].stops), ranking)
    ensures forall i :: 0 <= i < |r.days| ==> IdsOf(r.days[i].stops) !! visited
    ensures forall i, j :: 0 <= i < j < |r.days| ==> IdsOf(r.days[i].stops) !! IdsOf(r.days[j].stops)
    ensures r.visited == visited + AllIds(r.days)
    ensures forall i :: 0 <= i < |r.days| ==>
      (r.days[i].stops == [] <==> NoneFits(ranking, start, lim, dist, visited + AllIds(r.days[..i])))
    ensures forall i :: 0 <= i < |r.days| ==> r.days[i] == PlanDay(ranking, start, lim, dist, visited + AllIds(r.days[..i])).0
    decreases days
  {
    if days == 0 then Plan([], visited)
    else
      var (d, v) := PlanDay(ranking, start, lim, dist, visited);
      var rest := Schedule(ranking, start, days - 1, lim, dist, v);
      ConsSound(ranking, start, lim, dist, d, rest.days);
      ConsDisjoint(visited, d, v, rest.days, rest.visited);
      EmptyDaysFacts(ranking, start, lim, dist, visited, d, rest.days);
      GreedyCons(ranking, start, lim, dist, visited, d, v, rest.days);
      Plan([d] + rest.days, rest.visited)
  }

  /** Prepending a sound day drawn from the ranking keeps every day so. */
  lemma ConsSound(ranking: seq<Scored>, start: Coord, lim: Limits, dist: Distance, d: DayPlan, rest: seq<DayPlan>)
    requires SoundDay(d, start, lim, dist) && IsSubseq(RowsOf(d.stops), ranking)
    requires forall i :: 0 <= i < |rest| ==> SoundDay(rest[i], start, lim, dist)
    requires forall i :: 0 <= i < |rest| ==> IsSubseq(RowsOf(rest[i].stops), ranking)
    ensures forall i :: 0 <= i < |[d] + rest| ==> SoundDay(([d] + rest)[i], start, lim, dist)
    ensures forall i :: 0 <= i < |[d] + rest| ==> IsSubseq(RowsOf(([d] + rest)[i].stops), ranking)
  {
    var all := [d] + rest;
    forall i | 0 < i < |all|
      ensures all[i] == rest[i - 1]
    {
    }
  }

  /** Prepending a day whose places were unseen keeps the days pairwise
      disjoint and the visited set exact. */
  lemma ConsDisjoint(visited: set<PlaceId>, d: DayPlan, v: set<PlaceId>, rest: seq<DayPlan>, after: set<PlaceId>)
    requires IdsOf(d.stops) !! visited && v == visited + IdsOf(d.stops)
    requires forall i :: 0 <= i < |rest| ==> IdsOf(rest[i].stops) !! v
    requires forall i, j :: 0 <= i < j < |rest| ==> IdsOf(rest[i].stops) !! IdsOf(rest[j].stops)
    requires after == v + AllIds(rest)
    ensures forall i :: 0 <= i < |[d] + rest| ==> IdsOf(([d] + rest)[i].stops) !! visited
    ensures forall i, j :: 0 <= i < j < |[d] + rest| ==> IdsOf(([d] + rest)[i].stops) !! IdsOf(([d] + rest)[j].stops)
    ensures after == visited + AllIds([d] + rest)
  {
    var all := [d] + rest;
    assert all[1..] == rest;
    forall i | 0 < i < |all|
      ensures all[i] == rest[i - 1]
    {
    }
  }

  /** Prepending a day keeps the emptiness of each day tied to the places
      seen before it. */
  lemma EmptyDaysFacts(ranking: seq<Scored>, start: Coord, lim: Limits, dist: Distance, visited: set<PlaceId>, d: DayPlan, rest: seq<DayPlan>)
    requires d.stops == [] <==> NoneFits(ranking, start, lim, dist, visited)
    requires forall i :: 0 <= i < |rest| ==>
      (rest[i].stops == [] <==> NoneFits(ranking, start, lim, dist, (visited + IdsOf(d.stops)) + AllIds(rest[..i])))
    ensures forall i :: 0 <= i < |[d] + rest| ==>
      (([d] + rest)[i].stops == [] <==> NoneFits(ranking, start, lim, dist, visited + AllIds(([d] + rest)[..i])))
  {
    var all := [d] + rest;
    EarlierDays(d, rest, visited);
    forall i | 0 <= i < |all|
      ensures all[i].stops == [] <==> NoneFits(ranking, start, lim, dist, visited + AllIds(all[..i]))
    {
      if i > 0 {
        assert all[i] == rest[i - 1];
      }
    }
  }

  /** The places seen before day `i` of `[d] + rest` are the places seen
      before day `i - 1` of `rest`, plus those of `d`. */
  lemma EarlierDays(d: DayPlan, rest: seq<DayPlan>, visited: set<PlaceId>)
    ensures visited + AllIds(([d] + rest)[..0]) == visited
    ensures forall i :: 0 < i <= |rest| ==>
      visited + AllIds(([d] + rest)[..i]) == (visited + IdsOf(d.stops)) + AllIds(rest[..i - 1])
  {
    var all := [d] + rest;
    assert all[..0] == [];
    forall i | 0 < i <= |rest|
      ensures visited + AllIds(all[..i]) == (visited + IdsOf(d.stops)) + AllIds(rest[..i - 1])
    {
      assert all[..i][0] == d;
      assert all[..i][1..] == rest[..i - 1];
    }
  }

  /** A day that takes nothing ends the trip: every later day is empty too,
      since the visited set only grows and an empty day does not depend on
      the places visited. */
  lemma {:induction false} EmptyDayEndsTrip(ranking: seq<Scored>, start: Coord, days: nat, lim: Limits, dist: Distance, visited: set<PlaceId>, i: nat, j: nat)
    requires i < j < days
    requires Schedule(ranking, start, days, lim, dist, visited).days[i].stops == []
    ensures Schedule(ranking, start, days, lim, dist, visited).days[j].stops == []
  {
    var p := Schedule(ranking, start, days, lim, dist, visited);
    var before := visited + AllIds(p.days[..i]);
    var later := visited + AllIds(p.days[..j]);
    assert NoneFits(ranking, start, lim, dist, before);
    AllIdsGrow(p.days, i, j);
    NoneFitsGrows(ranking, start, lim, dist, before, later);
    assert p.days[j].stops == [] <==> NoneFits(ranking, start, lim, dist, later);
  }

  /** Prepending the day planned from `visited` to days each planned from
      the places seen before them keeps every day so planned. */
  lemma {:induction false} GreedyCons(ranking: seq<Scored>, start: Coord, lim: Limits, dist: Distance, visited: set<PlaceId>, d: DayPlan, v: set<PlaceId>, rest: seq<DayPlan>)
    requires d == PlanDay(ranking, start, lim, dist, visited).0
    requires v == visited + IdsOf(d.stops)
    requires forall j :: 0 <= j < |rest| ==> rest[j] == PlanDay(ranking, start, lim, dist, v + AllIds(rest[..j])).0
    ensures forall i :: 0 <= i < |[d] + rest| ==>
      ([d] + rest)[i] == PlanDay(ranking, start, lim, dist, visited + AllIds(([d] + rest)[..i])).0
  {
    var all := [d] + rest;
    EarlierDays(d, rest, visited);
    forall i | 0 <= i < |all|
      ensures all[i] == PlanDay(ranking, start, lim, dist, visited + AllIds(all[..i])).0
    {
      if i > 0 {
        assert all[i] == rest[i - 1];
      }
    }
  }

  /** Seeing more places never lets a row open an empty day. */
  lemma NoneFitsGrows(ranking: seq<Scored>, start: Coord, lim: Limits, dist: Distance, a: set<PlaceId>, b: set<PlaceId>)
    requires a <= b
    requires NoneFits(ranking, start, lim, dist, a)
    ensures NoneFits(ranking, start, lim, dist, b)
  {
    forall k | 0 <= k < |ranking|
      ensures !Takes(Morning(start, b), ranking[k], lim, dist)
    {
      assert !Takes(Morning(start, a), ranking[k], lim, dist);
    }
  }

  /** The places of a longer prefix of the days include those of a shorter one. */
  lemma {:induction false} AllIdsGrow(days: seq<DayPlan>, i: nat, j: nat)
    requires i <= j <= |days|
    ensures AllIds(days[..i]) <= AllIds(days[..j])
    decreases i
  {
    if i > 0 {
      AllIdsGrow(days[1..], i - 1, j - 1);
      assert days[..i][1..] == days[1..][..i - 1];
      assert days[..j][1..] == days[1..][..j - 1];
      assert days[..i][0] == days[..j][0];
    }
  }

  /** With non-negative visit lengths and distances every stop costs the day
      a non-negative number of hours, so no stop costs more than the day. */
  lemma {:induction false} StopWithinTotal(stops: seq<Stop>, k: nat)
    requires forall q :: 0 <= q < |stops| ==> StopHours(stops[q]) >= 0.0
    requires k < |stops|
    ensures 0.0 <= StopHours(stops[k]) <= TotalHours(stops)
    decreases |stops|
  {
    var front := stops[..|stops| - 1];
    TotalNonNegative(front);
    if k < |stops| - 1 {
      assert stops[k] == front[k];
      StopWithinTotal(front, k);
    }
  }

  lemma {:induction false} TotalNonNegative(stops: seq<Stop>)
    requires forall q :: 0 <= q < |stops| ==> StopHours(stops[q]) >= 0.0
    ensures TotalHours(stops) >= 0.0
    decreases |stops|
  {
    if stops != [] {
      var front := stops[..|stops| - 1];
      assert forall q :: 0 <= q < |front| ==> front[q] == stops[q];
      TotalNonNegative(front);
    }
  }

  /** With non-negative distances a stop costs at least its visit. */
  lemma {:induction false} LegsAreNonNegative(stops: seq<Stop>, start: Coord, dist: Distance)
    requires forall a, b :: dist(a, b) >= 0.0
    requires Chained(stops, start, dist)
    ensures forall q :: 0 <= q < |stops| ==> StopHours(stops[q]) >= stops[q].row.place.minutes / 60.0
  {
    forall q | 0 <= q < |stops|
      ensures StopHours(stops[q]) >= stops[q].row.place.minutes / 60.0
    {
      assert stops[q].travel == stops[q].km == dist(From(stops, start, q), Location(stops[q].row.place));
    }
  }

  /** The stops of a day drawn from the ranking have the visit lengths of
      rows of the ranking. */
  lemma {:induction false} VisitsFromRanking(stops: seq<Stop>, ranking: seq<Scored>)
    requires forall q :: 0 <= q < |ranking| ==> ranking[q].place.minutes >= 0.0
    requires IsSubseq(RowsOf(stops), ranking)
    ensures forall q :: 0 <= q < |stops| ==> stops[q].row.place.minutes >= 0.0
  {
    var rows := RowsOf(stops);
    SubseqMembers(rows, ranking);
    forall q | 0 <= q < |stops|
      ensures stops[q].row.place.minutes >= 0.0
    {
      assert rows[q] in ranking;
    }
  }

  /** In a sound day drawn from the ranking, a place whose visit alone is
      longer than the hour limit does not appear, provided distances and
      visit lengths are non-negative. */
  lemma {:induction false} TooLongNotInDay(d: DayPlan, ranking: seq<Scored>, start: Coord, lim: Limits, dist: Distance, k: nat)
    requires forall a, b :: dist(a, b) >= 0.0
    requires forall q :: 0 <= q < |ranking| ==> ranking[q].place.minutes >= 0.0
    requires SoundDay(d, start, lim, dist) && IsSubseq(RowsOf(d.stops), ranking)
    requires k < |d.stops|
    ensures d.stops[k].row.place.minutes / 60.0 <= lim.hours
  {
    LegsAreNonNegative(d.stops, start, dist);
    VisitsFromRanking(d.stops, ranking);
    StopWithinTotal(d.stops, k);
  }

  /** Over the whole itinerary, a place whose visit alone is longer than the
      day's hour limit is never scheduled. */
  lemma {:induction false} TooLongNeverScheduled(ranking: seq<Scored>, start: Coord, days: nat, lim: Limits, dist: Distance, visited: set<PlaceId>, i: nat, k: nat)
    requires forall a, b :: dist(a, b) >= 0.0
    requires forall q :: 0 <= q < |ranking| ==> ranking[q].place.minutes >= 0.0
    requires i < days && k < |Schedule(ranking, start, days, lim, dist, visited).days[i].stops|
    ensures Schedule(ranking, start, days, lim, dist, visited).days[i].stops[k].row.place.minutes / 60.0 <= lim.hours
  {
    var p := Schedule(ranking, start, days, lim, dist, visited);
    TooLongNotInDay(p.days[i], ranking, start, lim, dist, k);
  }

  /** Rows the scan does not take leave its state as it was. */
  lemma {:induction false} ScanSkipsRejected(st: DayState, ranking: seq<Scored>, lim: Limits, dist: Distance, k: nat)
    requires k <= |ranking|
    requires forall i :: 0 <= i < k ==> !Takes(st, ranking[i], lim, dist)
    ensures ScanDay(st, ranking, lim, dist) == ScanDay(st, ranking[k..], lim, dist)
    decreases k
  {
    if k > 0 {
      assert Step(st, ranking[0], lim, dist) == st;
      assert forall i :: 0 <= i < k - 1 ==> ranking[1..][i] == ranking[i + 1];
      ScanSkipsRejected(st, ranking[1..], lim, dist, k - 1);
      assert ranking[1..][k - 1..] == ranking[k..];
    }
  }

  /** Greedy choice: the next stop of a scan is the leg to the first row the
      current state takes, and the scan goes on from the state after that
      stop with the rows after it. */
  lemma {:induction false} ScanTakesFirstFit(st: DayState, ranking: seq<Scored>, lim: Limits, dist: Distance, k: nat)
    requires k < |ranking|
    requires Takes(st, ranking[k], lim, dist)
    requires forall i :: 0 <= i < k ==> !Takes(st, ranking[i], lim, dist)
    ensures ScanDay(st, ranking, lim, dist) == ScanDay(Step(st, ranking[k], lim, dist), ranking[k + 1..], lim, dist)
    ensures |ScanDay(st, ranking, lim, dist).stops| > |st.stops|
    ensures ScanDay(st, ranking, lim, dist).stops[|st.stops|] == Leg(st, ranking[k], dist)
  {
    ScanSkipsRejected(st, ranking, lim, dist, k);
    var rest := ranking[k..];
    assert rest[0] == ranking[k] && rest[1..] == ranking[k + 1..];
    var next := Step(st, ranking[k], lim, dist);
    var r := ScanDay(next, ranking[k + 1..], lim, dist);
    assert r.stops[..|next.stops|] == next.stops;
    assert r.stops[|st.stops|] == r.stops[..|next.stops|][|st.stops|];
  }

  /** A day opens with the leg to the first ranking row that is unvisited
      and fits an empty day on its own. */
  lemma {:induction false} DayOpensWithFirstFit(ranking: seq<Scored>, start: Coord, lim: Limits, dist: Distance, visited: set<PlaceId>, k: nat)
    requires k < |ranking|
    requires Takes(Morning(start, visited), ranking[k], lim, dist)
    requires forall i :: 0 <= i < k ==> !Takes(Morning(start, visited), ranking[i], lim, dist)
    ensures var d := PlanDay(ranking, start, lim, dist, visited).0;
      d.stops != [] && d.stops[0] == Leg(Morning(start, visited), ranking[k], dist)
  {
    ScanTakesFirstFit(Morning(start, visited), ranking, lim, dist, k);
  }

  /** The first two stops of a day: the leg to the first row that fits an
      empty day, then the leg to the first later row that fits after it,
      reached from where the first stop left the traveller. */
  lemma {:induction false} BothFittingRowsAppear(ranking: seq<Scored>, start: Coord, lim: Limits, dist: Distance, visited: set<PlaceId>, k: nat, m: nat)
    requires k < m < |ranking|
    requires Takes(Morning(start, visited), ranking[k], lim, dist)
    requires forall i :: 0 <= i < k ==> !Takes(Morning(start, visited), ranking[i], lim, dist)
    requires Takes(Step(Morning(start, visited), ranking[k], lim, dist), ranking[m], lim, dist)
    requires forall i :: k < i < m ==> !Takes(Step(Morning(start, visited), ranking[k], lim, dist), ranking[i], lim, dist)
    ensures var first := Step(Morning(start, visited), ranking[k], lim, dist);
      var d := PlanDay(ranking, start, lim, dist, visited).0;
      |d.stops| >= 2 &&
      d.stops[0] == Leg(Morning(start, visited), ranking[k], dist) &&
      d.stops[1] == Leg(first, ranking[m], dist)
  {
    var st := Morning(start, visited);
    var first := Step(st, ranking[k], lim, dist);
    var later := ranking[k + 1..];
    ScanTakesFirstFit(st, ranking, lim, dist, k);
    assert |first.stops| == 1;
    assert forall i :: 0 <= i < m - k - 1 ==> later[i] == ranking[k + 1 + i];
    ScanTakesFirstFit(first, later, lim, dist, m - k - 1);
  }
}
