/**
 * The restaurant queries (lib/grub-grab/restaurants.ts). The JSON dataset the
 * module imports is the parameter `rs`.
 */
module Restaurants {
  import opened Wrappers
  import opened Strings
  import opened Seqs
  import opened GrubTypes

  /** The position of the first restaurant with the slug, or `|rs|` when there is none. */
  function SlugIndex(rs: seq<Restaurant>, slug: string): (i: nat)
    ensures i <= |rs|
    ensures forall j :: 0 <= j < i ==> rs[j].slug != slug
    ensures i < |rs| ==> rs[i].slug == slug
  {
    if rs == [] || rs[0].slug == slug then 0 else 1 + SlugIndex(rs[1..], slug)
  }

  /** `getRestaurantBySlug`: the first restaurant with the slug, if any. */
  function RestaurantBySlug(rs: seq<Restaurant>, slug: string): (r: Option<Restaurant>)
    ensures r.None? <==> forall x :: x in rs ==> x.slug != slug
    ensures r.Some? ==> r.value.slug == slug
    ensures r.Some? ==> exists i :: 0 <= i < |rs| && rs[i] == r.value && forall j :: 0 <= j < i ==> rs[j].slug != slug
  {
    var i := SlugIndex(rs, slug);
    if i < |rs| then Some(rs[i]) else None
  }

  /** The search test: the lowercased name, location or cuisine contains `q`. */
  predicate MatchesQuery(x: Restaurant, q: string) {
    Contains(ToLower(x.name), q) || Contains(ToLower(LocationText(x.location)), q) || Contains(ToLower(x.cuisine), q)
  }

  function Matching(q: string): Restaurant -> bool {
    (x: Restaurant) => MatchesQuery(x, q)
  }

  /** `searchRestaurants`: all restaurants for a blank query, else those matching the trimmed, lowercased query. */
  function SearchRestaurants(rs: seq<Restaurant>, query: string): (r: seq<Restaurant>)
    ensures |r| <= |rs|
  {
    var q := ToLower(Trim(query));
    if q == [] then rs else Filter(rs, Matching(q))
  }

  /**
   * A blank query returns the whole dataset; any other query returns, in
   * dataset order, exactly the restaurants it matches.
   */
  lemma SearchExactly(rs: seq<Restaurant>, query: string)
    ensures var q := ToLower(Trim(query));
            var r := SearchRestaurants(rs, query);
            (Trim(query) == [] ==> r == rs)
            && (Trim(query) != [] ==>
                  IsSubsequence(r, rs) && forall x :: x in r <==> x in rs && MatchesQuery(x, q))
  {
    var q := ToLower(Trim(query));
    if q != [] {
      FilterKeeps(rs, Matching(q));
      FilterSubsequence(rs, Matching(q));
    }
  }

  /** Whitespace around the query does not change the result. */
  lemma SearchIgnoresPadding(rs: seq<Restaurant>, a: string, query: string, b: string)
    requires AllWhitespace(a) && AllWhitespace(b)
    ensures SearchRestaurants(rs, a + query + b) == SearchRestaurants(rs, query)
  {
    TrimPadding(a, query, b);
  }

  function AtLocation(l: Location): Restaurant -> bool {
    (x: Restaurant) => x.location == l
  }

  /** `getRestaurantsByLocation`. */
  function RestaurantsByLocation(rs: seq<Restaurant>, l: Location): (r: seq<Restaurant>)
    ensures forall x :: x in r ==> x in rs && x.location == l
  {
    Filter(rs, AtLocation(l))
  }

  /** Exactly the restaurants at the location, in dataset order. */
  lemma ByLocationExactly(rs: seq<Restaurant>, l: Location)
    ensures IsSubsequence(RestaurantsByLocation(rs, l), rs)
    ensures forall x :: x in rs && x.location == l ==> x in RestaurantsByLocation(rs, l)
  {
    FilterKeeps(rs, AtLocation(l));
    FilterSubsequence(rs, AtLocation(l));
  }

  function IsPopular(): Restaurant -> bool {
    (x: Restaurant) => x.popular
  }

  /** `getPopularRestaurants(limit)`. */
  function PopularRestaurants(rs: seq<Restaurant>, limit: nat): (r: seq<Restaurant>)
    ensures |r| <= limit
    ensures forall x :: x in r ==> x in rs && x.popular
  {
    var popular := Filter(rs, IsPopular());
    TakeMembers(popular, limit);
    Take(popular, limit)
  }

  /**
   * The first `limit` popular restaurants in dataset order: a prefix of all
   * popular ones, the whole of them when there are at most `limit`.
   */
  lemma PopularPrefix(rs: seq<Restaurant>, limit: nat)
    ensures var all := Filter(rs, IsPopular());
            var r := PopularRestaurants(rs, limit);
            r <= all && IsSubsequence(all, rs)
            && |r| == (if |all| < limit then |all| else limit)
            && (|all| <= limit ==> forall x :: x in rs && x.popular ==> x in r)
  {
    FilterKeeps(rs, IsPopular());
    FilterSubsequence(rs, IsPopular());
  }

  /** The six locations, in the order the counts are listed. */
  const LocationOrder: seq<Location> := [MagicKingdom, Epcot, HollywoodStudios, AnimalKingdom, DisneySprings, ResortHotels]

  function LocationEmoji(l: Location): string {
    match l
    case MagicKingdom => "\U{1F3F0}"
    case Epcot => "\U{1F30D}"
    case HollywoodStudios => "\U{1F3AC}"
    case AnimalKingdom => "\U{1F981}"
    case DisneySprings => "\U{1F6CD}\U{FE0F}"
    case ResortHotels => "\U{1F3E8}"
  }

  datatype LocationCount = LocationCount(location: Location, emoji: string, count: nat)

  function CountAt(rs: seq<Restaurant>, l: Location): nat {
    |Filter(rs, AtLocation(l))|
  }

  /** `getLocationCounts`: one entry per location, in the fixed order, with its restaurant count. */
  function LocationCounts(rs: seq<Restaurant>): (r: seq<LocationCount>)
    ensures |r| == 6
    ensures forall i :: 0 <= i < 6 ==> r[i].location == LocationOrder[i] && r[i].emoji == LocationEmoji(LocationOrder[i])
  {
    seq(6, i requires 0 <= i < 6 => LocationCount(LocationOrder[i], LocationEmoji(LocationOrder[i]), CountAt(rs, LocationOrder[i])))
  }

  function TotalCount(r: seq<LocationCount>): nat
    requires |r| == 6
  {
    r[0].count + r[1].count + r[2].count + r[3].count + r[4].count + r[5].count
  }

  lemma CountCons(rs: seq<Restaurant>, l: Location)
    requires rs != []
    ensures CountAt(rs, l) == CountAt(rs[1..], l) + (if rs[0].location == l then 1 else 0)
  {
  }

  /** Every restaurant is at exactly one of the six locations, so the counts add up to the dataset size. */
  lemma CountsCoverDataset(rs: seq<Restaurant>)
    ensures TotalCount(LocationCounts(rs)) == |rs|
  {
    var r := LocationCounts(rs);
    assert r[0].count == CountAt(rs, MagicKingdom) && r[1].count == CountAt(rs, Epcot);
    assert r[2].count == CountAt(rs, HollywoodStudios) && r[3].count == CountAt(rs, AnimalKingdom);
    assert r[4].count == CountAt(rs, DisneySprings) && r[5].count == CountAt(rs, ResortHotels);
    SixCountsCover(rs);
  }

  lemma {:induction false} SixCountsCover(rs: seq<Restaurant>)
    ensures CountAt(rs, MagicKingdom) + CountAt(rs, Epcot) + CountAt(rs, HollywoodStudios)
            + CountAt(rs, AnimalKingdom) + CountAt(rs, DisneySprings) + CountAt(rs, ResortHotels) == |rs|
  {
    if rs != [] {
      SixCountsCover(rs[1..]);
      CountCons(rs, MagicKingdom);
      CountCons(rs, Epcot);
      CountCons(rs, HollywoodStudios);
      CountCons(rs, AnimalKingdom);
      CountCons(rs, DisneySprings);
      CountCons(rs, ResortHotels);
    }
  }

  /** The location of each restaurant, in dataset order. */
  function LocationsOf(rs: seq<Restaurant>): seq<Location> {
    if rs == [] then [] else [rs[0].location] + LocationsOf(rs[1..])
  }

  /** Each listed count is the number of restaurants at that location. */
  lemma {:induction false} CountIsMultiplicity(rs: seq<Restaurant>, l: Location)
    ensures CountAt(rs, l) == multiset(LocationsOf(rs))[l]
  {
    if rs != [] {
      CountIsMultiplicity(rs[1..], l);
      CountCons(rs, l);
      assert multiset(LocationsOf(rs)) == multiset{rs[0].location} + multiset(LocationsOf(rs[1..]));
    }
  }

  lemma LocationCountsAreMultiplicities(rs: seq<Restaurant>)
    ensures forall i :: 0 <= i < 6 ==> LocationCounts(rs)[i].count == multiset(LocationsOf(rs))[LocationOrder[i]]
  {
    forall i | 0 <= i < 6 ensures LocationCounts(rs)[i].count == multiset(LocationsOf(rs))[LocationOrder[i]] {
      CountIsMultiplicity(rs, LocationOrder[i]);
    }
  }
}
