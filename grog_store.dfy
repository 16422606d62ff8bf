/**
 * Saved bar crawls (lib/grog-trot/store.ts): stored stops are put in
 * `stopOrder` order and each gets the venue its id names. The venue dataset
 * the module imports is the parameter `venues`.
 */
module GrogStore {
  import opened Wrappers
  import opened Seqs
  import opened GrogTypes

  datatype StoredStop = StoredStop(
    id: int,
    venueId: string,
    stopOrder: int,
    visited: bool,
    visitedAt: Option<string>,
    note: Option<string>)

  datatype StoredCrawl = StoredCrawl(
    id: string,
    userId: string,
    title: string,
    isPublic: bool,
    createdAt: string,
    updatedAt: string,
    stops: seq<StoredStop>)

  /** `{ ...stop, venue }`: every stored field and the venue found for it. */
  datatype HydratedStop = HydratedStop(
    id: int,
    venueId: string,
    stopOrder: int,
    visited: bool,
    visitedAt: Option<string>,
    note: Option<string>,
    venue: Option<Venue>)

  datatype HydratedCrawl = HydratedCrawl(
    id: string,
    userId: string,
    title: string,
    isPublic: bool,
    createdAt: string,
    updatedAt: string,
    stops: seq<HydratedStop>)

  /**
   * `venueById.get(id) ?? null` for `venueById = new Map(venues.map(...))`:
   * a later venue with the same id overwrites an earlier one, so the last wins.
   */
  function VenueById(venues: seq<Venue>, venueId: string): (r: Option<Venue>)
    ensures r.Some? ==> r.value in venues && r.value.id == venueId
    ensures r.None? <==> forall v :: v in venues ==> v.id != venueId
    decreases |venues|
  {
    if venues == [] then None
    else if venues[|venues| - 1].id == venueId then Some(venues[|venues| - 1])
    else VenueById(venues[..|venues| - 1], venueId)
  }

  /** The venue found is the last one with that id. */
  lemma {:induction false} VenueByIdIsLast(venues: seq<Venue>, venueId: string)
    ensures VenueById(venues, venueId).Some? ==>
              exists i :: 0 <= i < |venues| && venues[i] == VenueById(venues, venueId).value
                && forall j :: i < j < |venues| ==> venues[j].id != venueId
    decreases |venues|
  {
    if venues != [] && venues[|venues| - 1].id != venueId {
      var init := venues[..|venues| - 1];
      VenueByIdIsLast(init, venueId);
      if VenueById(init, venueId).Some? {
        var i :| 0 <= i < |init| && init[i] == VenueById(init, venueId).value
                 && forall j :: i < j < |init| ==> init[j].id != venueId;
        assert venues[i] == init[i];
        forall j | i < j < |venues| ensures venues[j].id != venueId {
          if j < |init| {
            assert venues[j] == init[j];
          }
        }
      }
    }
  }

  /** `getGrogVenueById`. */
  function GetGrogVenueById(venues: seq<Venue>, venueId: string): (r: Option<Venue>)
    ensures r == VenueById(venues, venueId)
    ensures r.None? <==> forall v :: v in venues ==> v.id != venueId
  {
    VenueById(venues, venueId)
  }

  /** The comparator `a.stopOrder - b.stopOrder` as a sort key. */
  function StopOrder(): StoredStop -> real {
    (s: StoredStop) => s.stopOrder as real
  }

  function HydrateStop(venues: seq<Venue>, s: StoredStop): HydratedStop {
    HydratedStop(s.id, s.venueId, s.stopOrder, s.visited, s.visitedAt, s.note, VenueById(venues, s.venueId))
  }

  /** The stored part of a hydrated stop: what the spread copied. */
  function Stored(h: HydratedStop): StoredStop {
    StoredStop(h.id, h.venueId, h.stopOrder, h.visited, h.visitedAt, h.note)
  }

  function StoredStops(hs: seq<HydratedStop>): seq<StoredStop> {
    seq(|hs|, i requires 0 <= i < |hs| => Stored(hs[i]))
  }

  /**
   * `hydrateStoredCrawl`: the crawl with its stops in stable `stopOrder`
   * order, each with its venue. The sort works on a copy; the stored crawl is
   * a value here, so it cannot change.
   */
  function HydrateStoredCrawl(venues: seq<Venue>, crawl: StoredCrawl): HydratedCrawl {
    var sorted := SortBy(crawl.stops, StopOrder());
    HydratedCrawl(crawl.id, crawl.userId, crawl.title, crawl.isPublic, crawl.createdAt, crawl.updatedAt,
                  seq(|sorted|, i requires 0 <= i < |sorted| => HydrateStop(venues, sorted[i])))
  }

  /** Hydration keeps the stops, field for field, in `stopOrder` order; it adds only the venue. */
  lemma HydratedStopsAreSorted(venues: seq<Venue>, crawl: StoredCrawl)
    ensures var r := HydrateStoredCrawl(venues, crawl);
            StoredStops(r.stops) == SortBy(crawl.stops, StopOrder())
            && |r.stops| == |crawl.stops|
            && multiset(StoredStops(r.stops)) == multiset(crawl.stops)
  {
    var r := HydrateStoredCrawl(venues, crawl);
    var sorted := SortBy(crawl.stops, StopOrder());
    assert StoredStops(r.stops) == sorted;
  }

  /** The hydrated stops never go down in `stopOrder`. */
  lemma HydratedInOrder(venues: seq<Venue>, crawl: StoredCrawl)
    ensures var r := HydrateStoredCrawl(venues, crawl);
            forall i, j :: 0 <= i < j < |r.stops| ==> r.stops[i].stopOrder <= r.stops[j].stopOrder
  {
    var sorted := SortBy(crawl.stops, StopOrder());
    SortByOrdered(crawl.stops, StopOrder());
    var r := HydrateStoredCrawl(venues, crawl);
    forall i, j | 0 <= i < j < |r.stops| ensures r.stops[i].stopOrder <= r.stops[j].stopOrder {
      assert StopOrder()(sorted[i]) <= StopOrder()(sorted[j]);
    }
  }

  /** Each hydrated stop carries the venue its id names, or none. */
  lemma HydratedVenues(venues: seq<Venue>, crawl: StoredCrawl)
    ensures var r := HydrateStoredCrawl(venues, crawl);
            forall i :: 0 <= i < |r.stops| ==>
              r.stops[i].venue == VenueById(venues, r.stops[i].venueId)
              && (r.stops[i].venue.None? <==> forall v :: v in venues ==> v.id != r.stops[i].venueId)
  {
  }

  /** Everything but the stops is copied unchanged. */
  lemma HydratedKeepsCrawl(venues: seq<Venue>, crawl: StoredCrawl)
    ensures var r := HydrateStoredCrawl(venues, crawl);
            r.id == crawl.id && r.userId == crawl.userId && r.title == crawl.title && r.isPublic == crawl.isPublic
            && r.createdAt == crawl.createdAt && r.updatedAt == crawl.updatedAt
  {
  }

  /** Stops that share a `stopOrder` stay in their stored order. */
  lemma HydratedStable(venues: seq<Venue>, crawl: StoredCrawl, k: int)
    ensures WithKey(StoredStops(HydrateStoredCrawl(venues, crawl).stops), StopOrder(), k as real)
            == WithKey(crawl.stops, StopOrder(), k as real)
  {
    HydratedStopsAreSorted(venues, crawl);
    SortByStable(crawl.stops, StopOrder(), k as real);
  }

  /** Stops already in order are not moved. */
  lemma HydrateSortedInput(venues: seq<Venue>, crawl: StoredCrawl)
    requires forall i, j :: 0 <= i < j < |crawl.stops| ==> crawl.stops[i].stopOrder <= crawl.stops[j].stopOrder
    ensures StoredStops(HydrateStoredCrawl(venues, crawl).stops) == crawl.stops
  {
    assert SortedBy(crawl.stops, StopOrder());
    SortBySorted(crawl.stops, StopOrder());
    HydratedStopsAreSorted(venues, crawl);
  }
}
