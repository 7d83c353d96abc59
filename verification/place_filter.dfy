/** Selection of catalog places by city and category. */
module PlaceFilter {
  import opened Common
  import opened Seqs
  import opened Text
  import opened Catalog

  /** A place passes when the city filter is off (absent or empty) or the
      place's city contains the requested city ignoring case, and the
      category filter is off (absent or empty) or lists the place's category. */
  predicate Admits(p: Place, city: Option<string>, categories: Option<seq<Category>>)
  {
    && (!IsGiven(city) || ContainsIgnoreCase(p.city, city.value))
    && (categories.None? || categories.value == [] || p.category in categories.value)
  }

  /** The catalog rows admitted by the city and category filters, in catalog
      order and with their multiplicities. */
  function FilterPlaces(catalog: seq<Place>, city: Option<string>, categories: Option<seq<Category>>): (r: seq<Place>)
    ensures IsSubseq(r, catalog)
    ensures forall p :: p in r <==> p in catalog && Admits(p, city, categories)
    ensures forall p :: multiset(r)[p] == if Admits(p, city, categories) then multiset(catalog)[p] else 0
  {
    Filter(catalog, (p: Place) => Admits(p, city, categories))
  }

  /** The two filters are applied one after the other: filtering by city and
      then by category gives the same rows as filtering by both. */
  lemma {:induction false} FiltersCompose(catalog: seq<Place>, city: Option<string>, categories: Option<seq<Category>>)
    ensures FilterPlaces(FilterPlaces(catalog, city, None), None, categories) == FilterPlaces(catalog, city, categories)
  {
    if catalog != [] {
      FiltersCompose(catalog[1..], city, categories);
    }
  }

  /** Filtering twice with the same arguments changes nothing more. */
  lemma {:induction false} FilterIdempotent(catalog: seq<Place>, city: Option<string>, categories: Option<seq<Category>>)
    ensures FilterPlaces(FilterPlaces(catalog, city, categories), city, categories) == FilterPlaces(catalog, city, categories)
  {
    if catalog != [] {
      FilterIdempotent(catalog[1..], city, categories);
    }
  }

  /** With neither filter given every catalog row is kept. */
  lemma {:induction false} NoFilterKeepsAll(catalog: seq<Place>)
    ensures FilterPlaces(catalog, None, None) == catalog
  {
    if catalog != [] {
      NoFilterKeepsAll(catalog[1..]);
    }
  }
}
