/**
 * The dashboard render-model builder (lib/dashboard/buildDashboardRenderModel.js):
 * sanitising and scoring newsletter items, the sticky bounded selection that
 * keeps last cycle's items in place, crowd coercion with carry-forward, the hot
 * tiles, and the assembly of the home and per-park sections.
 *
 * `now` (milliseconds) and `nowIso` (its ISO text) stand for the clock reads.
 */
module DashboardBuilder {
  import opened Wrappers
  import opened Seqs
  import opened Strings
  import opened DashboardTypes

  // ---------------------------------------------------------------- scoring

  /** CATEGORY_PRIORITY; a category outside the table weighs 0. */
  function CategoryPriority(c: Category): int {
    match c
    case EventAlert => 6
    case LimitedMerch => 5
    case Crowds => 4
    case Entertainment => 3
    case Food => 2
    case Other => 1
    case Unlisted(_) => 0
  }

  function UrgencyBoost(u: Urgency): int {
    if u == MustSeeToday then 4 else 0
  }

  /** CONFIDENCE_SCORE, a missing confidence counting as `med`. */
  function ConfidenceScore(c: Option<Confidence>): int {
    match c
    case None => 0
    case Some(High) => 1
    case Some(Med) => 0
    case Some(Low) => -10
  }

  /** MEANINGFUL_THRESHOLD: how much a fresh item must beat the current leader by. */
  const MeaningfulThreshold: real := 2.0

  const MsPerHour: int := 1000 * 60 * 60

  /** Hours since the item was updated, never negative. */
  function AgeHours(item: Item, now: int): (r: real)
    ensures r >= 0.0
  {
    var h := (now - item.updatedAt.ms) as real / MsPerHour as real;
    if h < 0.0 then 0.0 else h
  }

  /** `max(0, 2 - ageHours / 6)`. */
  function RecencyBoost(item: Item, now: int): (r: real)
    ensures 0.0 <= r <= 2.0
  {
    var b := 2.0 - AgeHours(item, now) / 6.0;
    if b < 0.0 then 0.0 else b
  }

  /** `scoreItem`: category weight + urgency boost + confidence + recency. */
  function ScoreItem(item: Item, now: int): (r: real)
    ensures -10.0 <= r <= 13.0
  {
    (CategoryPriority(item.category) + UrgencyBoost(item.urgency) + ConfidenceScore(item.confidence)) as real
      + RecencyBoost(item, now)
  }

  /** An item updated at or after `now` gets the full recency boost of 2. */
  lemma RecencyOfFreshItem(item: Item, now: int)
    requires item.updatedAt.ms >= now
    ensures RecencyBoost(item, now) == 2.0
    ensures ScoreItem(item, now)
         == (CategoryPriority(item.category) + UrgencyBoost(item.urgency) + ConfidenceScore(item.confidence)) as real + 2.0
  {
    assert (now - item.updatedAt.ms) as real <= 0.0;
  }

  /** After 12 hours the recency boost has decayed to 0. */
  lemma RecencyOfStaleItem(item: Item, now: int)
    requires now - item.updatedAt.ms >= 12 * MsPerHour
    ensures RecencyBoost(item, now) == 0.0
  {
    assert AgeHours(item, now) >= 12.0;
  }

  /** An older update never scores a higher recency boost. */
  lemma RecencyMonotone(older: Item, newer: Item, now: int)
    requires older.updatedAt.ms <= newer.updatedAt.ms
    ensures RecencyBoost(older, now) <= RecencyBoost(newer, now)
  {
    assert (now - newer.updatedAt.ms) as real <= (now - older.updatedAt.ms) as real;
    assert AgeHours(newer, now) <= AgeHours(older, now);
  }

  // ------------------------------------------------------------- sanitising

  /** `isExpired`: an `expires_at` that parses to a time at or before `now`. */
  predicate IsExpired(item: Item, now: int) {
    item.expiresAt.Some? && item.expiresAt.value <= now
  }

  /** `isLowConfidence`. */
  predicate IsLowConfidence(item: Item) {
    item.confidence == Some(Low)
  }

  /** The test `sanitizeItems` keeps an item by. */
  predicate Displayable(item: Item, now: int) {
    item.id != "" && !IsExpired(item, now) && !IsLowConfidence(item)
  }

  function DisplayableAt(now: int): Item -> bool {
    (x: Item) => Displayable(x, now)
  }

  /** `sanitizeItems`: only items that have an id, have not expired and are not low confidence. */
  function Sanitize(items: seq<Item>, now: int): (r: seq<Item>)
    ensures |r| <= |items|
    ensures forall x :: x in r ==> x in items && Displayable(x, now)
  {
    Filter(items, DisplayableAt(now))
  }

  /**
   * Sanitising keeps exactly the displayable items, each with all of its
   * occurrences, and drops every other one.
   */
  lemma SanitizeExactly(items: seq<Item>, now: int)
    ensures forall x :: x in Sanitize(items, now) <==> x in items && Displayable(x, now)
    ensures forall x :: Displayable(x, now) ==> multiset(Sanitize(items, now))[x] == multiset(items)[x]
    ensures forall x :: !Displayable(x, now) ==> multiset(Sanitize(items, now))[x] == 0
  {
    FilterKeeps(items, DisplayableAt(now));
    FilterCounts(items, DisplayableAt(now));
    forall x | !Displayable(x, now) ensures multiset(Sanitize(items, now))[x] == 0 {
      assert x !in Sanitize(items, now);
    }
  }

  lemma FilterCounts(items: seq<Item>, p: Item -> bool)
    ensures forall x :: p(x) ==> multiset(Filter(items, p))[x] == multiset(items)[x]
  {
    forall x | p(x) ensures multiset(Filter(items, p))[x] == multiset(items)[x] {
      FilterCount(items, p, x);
    }
  }

  /** Sanitising keeps the original order: it distributes over concatenation. */
  lemma SanitizeAppend(a: seq<Item>, b: seq<Item>, now: int)
    ensures Sanitize(a + b, now) == Sanitize(a, now) + Sanitize(b, now)
  {
    FilterAppend(a, b, DisplayableAt(now));
  }

  // ---------------------------------------------------------------- sorting

  function ScoreKey(now: int): Item -> real {
    (x: Item) => -ScoreItem(x, now)
  }

  predicate ScoreDescending(s: seq<Item>, now: int) {
    forall i, j :: 0 <= i < j < |s| ==> ScoreItem(s[j], now) <= ScoreItem(s[i], now)
  }

  /** `.sort((a, b) => scoreItem(b, now) - scoreItem(a, now))`: a stable sort by descending score. */
  function SortByScore(items: seq<Item>, now: int): (r: seq<Item>)
    ensures multiset(r) == multiset(items)
    ensures |r| == |items|
  {
    SortBy(items, ScoreKey(now))
  }

  /** The sorted items come by descending score. */
  lemma SortByScoreDescending(items: seq<Item>, now: int)
    ensures ScoreDescending(SortByScore(items, now), now)
  {
    SortByOrdered(items, ScoreKey(now));
    KeyOrderIsScoreOrder(SortByScore(items, now), now);
  }

  lemma KeyOrderIsScoreOrder(s: seq<Item>, now: int)
    requires SortedBy(s, ScoreKey(now))
    ensures ScoreDescending(s, now)
  {
    forall i, j | 0 <= i < j < |s| ensures ScoreItem(s[j], now) <= ScoreItem(s[i], now) {
      assert ScoreKey(now)(s[i]) <= ScoreKey(now)(s[j]);
    }
  }

  /** The head of a score-sorted sequence scores at least as high as every element. */
  lemma SortByScoreHead(items: seq<Item>, now: int)
    requires items != []
    ensures SortByScore(items, now)[0] in items
    ensures forall x :: x in items ==> ScoreItem(x, now) <= ScoreItem(SortByScore(items, now)[0], now)
  {
    var r := SortByScore(items, now);
    SortByScoreDescending(items, now);
    assert r[0] in multiset(items);
    forall x | x in items ensures ScoreItem(x, now) <= ScoreItem(r[0], now) {
      assert x in multiset(r);
      var j :| 0 <= j < |r| && r[j] == x;
      if j > 0 {
        assert ScoreItem(r[j], now) <= ScoreItem(r[0], now);
      }
    }
  }

  // ------------------------------------------------------------ sticky list

  function Ids(s: seq<Item>): (r: seq<string>)
    ensures |r| == |s| && forall i :: 0 <= i < |s| ==> r[i] == s[i].id
  {
    if s == [] then [] else [s[0].id] + Ids(s[1..])
  }

  /** No two items share an id. */
  predicate UniqueIds(s: seq<Item>) {
    forall i, j :: 0 <= i < j < |s| ==> s[i].id != s[j].id
  }

  /** No item of `a` shares its id with an item of `b`. */
  predicate DisjointIds(a: seq<Item>, b: seq<Item>) {
    forall x, y :: x in a && y in b ==> x.id != y.id
  }

  /** `candidateMap.has(id)`. */
  predicate IsCandidateId(cs: seq<Item>, id: string) {
    exists c :: c in cs && c.id == id
  }

  function IsCandidateIdIn(cs: seq<Item>): string -> bool {
    id => IsCandidateId(cs, id)
  }

  /** `candidateMap.get(id)`: the Map built from the candidates keeps the last item with each id. */
  function LastWithId(cs: seq<Item>, id: string): (r: Option<Item>)
    ensures r.Some? <==> IsCandidateId(cs, id)
    ensures r.Some? ==> r.value in cs && r.value.id == id
    ensures r.Some? ==> exists i :: 0 <= i < |cs| && cs[i] == r.value && forall j :: i < j < |cs| ==> cs[j].id != id
  {
    if cs == [] then None
    else if cs[|cs| - 1].id == id then Some(cs[|cs| - 1])
    else
      var r := LastWithId(cs[..|cs| - 1], id);
      assert cs == cs[..|cs| - 1] + [cs[|cs| - 1]];
      r
  }

  /** `prevIds.map((id) => candidateMap.get(id))`. */
  function LookupAll(cs: seq<Item>, ids: seq<string>): (r: seq<Item>)
    requires forall id :: id in ids ==> IsCandidateId(cs, id)
    ensures |r| == |ids|
    ensures forall i :: 0 <= i < |ids| ==> r[i] in cs && r[i].id == ids[i]
    ensures forall x :: x in r ==> x in cs
  {
    if ids == [] then [] else [LastWithId(cs, ids[0]).value] + LookupAll(cs, ids[1..])
  }

  /** `prevIds`: the previous ids that are still candidates, in their previous order. */
  function PrevIds(cs: seq<Item>, previous: seq<string>): (r: seq<string>)
    ensures forall id :: id in r ==> id in previous && IsCandidateId(cs, id)
  {
    Filter(previous, IsCandidateIdIn(cs))
  }

  /** `prevItems`: the carried items, in the previous order. */
  function PrevItems(cs: seq<Item>, previous: seq<string>): (r: seq<Item>)
    ensures |r| == |PrevIds(cs, previous)|
    ensures forall i :: 0 <= i < |r| ==> r[i] in cs && r[i].id == PrevIds(cs, previous)[i]
    ensures forall x :: x in r ==> x in cs
  {
    LookupAll(cs, PrevIds(cs, previous))
  }

  /**
   * Exactly the previous ids that are still candidates are carried, in their
   * previous order; nothing is carried exactly when none of them is.
   */
  lemma PrevIdsExactly(cs: seq<Item>, previous: seq<string>)
    ensures forall id :: id in PrevIds(cs, previous) <==> id in previous && IsCandidateId(cs, id)
    ensures PrevItems(cs, previous) == [] <==> forall id :: id in previous ==> !IsCandidateId(cs, id)
  {
    FilterKeeps(previous, IsCandidateIdIn(cs));
    var ids := PrevIds(cs, previous);
    if ids != [] {
      assert ids[0] in ids;
    }
  }

  function NotAmong(ids: seq<string>): Item -> bool {
    (c: Item) => c.id !in ids
  }

  function Carried(ids: seq<string>): Item -> bool {
    (c: Item) => c.id in ids
  }

  function OtherThan(id: string): Item -> bool {
    (x: Item) => x.id != id
  }

  /** `fresh`: the candidates not carried over, by descending score (stable). */
  function Fresh(cs: seq<Item>, prevIds: seq<string>, now: int): (r: seq<Item>)
    ensures forall x :: x in r ==> x in cs && x.id !in prevIds
  {
    var f := Filter(cs, NotAmong(prevIds));
    var r := SortByScore(f, now);
    assert forall x :: x in r ==> x in f by {
      forall x | x in r ensures x in f {
        assert x in multiset(r);
      }
    }
    r
  }

  /**
   * The fresh items are exactly the candidates whose id is not carried, each
   * with all of its occurrences, by descending score.
   */
  lemma FreshExactly(cs: seq<Item>, prevIds: seq<string>, now: int)
    ensures forall x :: x in Fresh(cs, prevIds, now) <==> x in cs && x.id !in prevIds
    ensures multiset(Fresh(cs, prevIds, now)) <= multiset(cs)
    ensures ScoreDescending(Fresh(cs, prevIds, now), now)
  {
    var p := NotAmong(prevIds);
    var f := Filter(cs, p);
    var r := Fresh(cs, prevIds, now);
    FilterKeeps(cs, p);
    FilterSub(cs, p);
    forall x | x in cs && x.id !in prevIds ensures x in r {
      assert p(x);
      assert x in multiset(f);
    }
    SortByScoreDescending(f, now);
  }

  /** The carried items and the fresh ones never share an id. */
  lemma CarriedFreshDisjoint(cs: seq<Item>, previous: seq<string>, now: int)
    ensures DisjointIds(PrevItems(cs, previous), Fresh(cs, PrevIds(cs, previous), now))
  {
    var prevIds := PrevIds(cs, previous);
    var prevItems := PrevItems(cs, previous);
    forall x, y | x in prevItems && y in Fresh(cs, prevIds, now) ensures x.id != y.id {
      var i :| 0 <= i < |prevItems| && prevItems[i] == x;
      assert x.id == prevIds[i];
    }
  }

  /**
   * `ordered` before the final slice: the carried items, with the best fresh
   * item in front when it beats the first carried one by MeaningfulThreshold
   * and all fresh items after them otherwise; the fresh items alone when
   * nothing is carried.
   */
  function Ordered(prevItems: seq<Item>, freshItems: seq<Item>, now: int): (r: seq<Item>)
    ensures forall x :: x in r ==> x in prevItems || x in freshItems
  {
    if prevItems == [] then freshItems
    else if freshItems != [] && ScoreItem(freshItems[0], now) - ScoreItem(prevItems[0], now) >= MeaningfulThreshold then
      [freshItems[0]] + Filter(prevItems, OtherThan(freshItems[0].id))
    else prevItems + freshItems
  }

  /** With disjoint ids, removing the promoted item from the carried ones removes nothing. */
  lemma OrderedCases(prevItems: seq<Item>, freshItems: seq<Item>, now: int)
    requires DisjointIds(prevItems, freshItems)
    ensures Ordered(prevItems, freshItems, now)
         == if prevItems == [] then freshItems
            else if freshItems != [] && ScoreItem(freshItems[0], now) - ScoreItem(prevItems[0], now) >= 2.0
            then [freshItems[0]] + prevItems
            else prevItems + freshItems
  {
    if prevItems != [] && freshItems != [] {
      assert freshItems[0] in freshItems;
      FilterAll(prevItems, OtherThan(freshItems[0].id));
    }
  }

  /**
   * `stickyList`: the carried items keep their previous order; one fresh item
   * may jump in front of them when it beats the first by MeaningfulThreshold,
   * otherwise the fresh items follow; at most `limit` items are kept.
   */
  function StickyList(cs: seq<Item>, previous: seq<string>, limit: nat, now: int): (r: seq<Item>)
    ensures |r| <= limit
    ensures forall x :: x in r ==> x in cs
  {
    var ordered := Ordered(PrevItems(cs, previous), Fresh(cs, PrevIds(cs, previous), now), now);
    TakeMembers(ordered, limit);
    Take(ordered, limit)
  }

  /** With at least one candidate and room for one, the sticky list is never empty. */
  lemma StickyNonEmpty(cs: seq<Item>, previous: seq<string>, limit: nat, now: int)
    requires cs != [] && limit >= 1
    ensures StickyList(cs, previous, limit, now) != []
  {
    var prevIds := PrevIds(cs, previous);
    var prevItems := PrevItems(cs, previous);
    var freshItems := Fresh(cs, prevIds, now);
    if prevItems == [] {
      assert prevIds == [];
      FreshExactly(cs, prevIds, now);
      assert cs[0] in freshItems;
    }
    assert Ordered(prevItems, freshItems, now) != [];
  }

  /** Cold start: with no previous id still a candidate, the top `limit` candidates by score. */
  lemma StickyColdStart(cs: seq<Item>, previous: seq<string>, limit: nat, now: int)
    requires forall id :: id in previous ==> !IsCandidateId(cs, id)
    ensures StickyList(cs, previous, limit, now) == Take(SortByScore(cs, now), limit)
  {
    FilterNone(previous, IsCandidateIdIn(cs));
    FilterAll(cs, NotAmong([]));
  }

  /**
   * The hysteresis rule once some items are carried: the best fresh item goes
   * in front of all carried ones when it beats the first by at least 2, and
   * the other fresh items are dropped; otherwise all fresh items follow the
   * carried ones in score order.
   */
  lemma StickyHysteresis(cs: seq<Item>, previous: seq<string>, limit: nat, now: int)
    requires PrevItems(cs, previous) != []
    ensures var prevItems := PrevItems(cs, previous);
            var freshItems := Fresh(cs, PrevIds(cs, previous), now);
            StickyList(cs, previous, limit, now)
              == if freshItems != [] && ScoreItem(freshItems[0], now) - ScoreItem(prevItems[0], now) >= 2.0
                 then Take([freshItems[0]] + prevItems, limit)
                 else Take(prevItems + freshItems, limit)
  {
    CarriedFreshDisjoint(cs, previous, now);
    OrderedCases(PrevItems(cs, previous), Fresh(cs, PrevIds(cs, previous), now), now);
  }

  /** The head of a score-descending sequence scores at least as high as every element. */
  lemma HeadScoresHighest(s: seq<Item>, x: Item, now: int)
    requires ScoreDescending(s, now) && x in s
    ensures ScoreItem(x, now) <= ScoreItem(s[0], now)
  {
    var j :| 0 <= j < |s| && s[j] == x;
    if j > 0 {
      assert ScoreItem(s[j], now) <= ScoreItem(s[0], now);
    }
  }

  /**
   * The first item shown is the first carried one, unless a fresh item beat it
   * by at least 2; that item is then the best-scoring fresh candidate.
   */
  lemma StickyLeader(cs: seq<Item>, previous: seq<string>, limit: nat, now: int)
    requires PrevItems(cs, previous) != [] && limit >= 1
    ensures var r := StickyList(cs, previous, limit, now);
            var prevItems := PrevItems(cs, previous);
            r != [] &&
            (r[0] == prevItems[0] ||
             (r[0] in cs && r[0].id !in PrevIds(cs, previous)
              && ScoreItem(r[0], now) >= ScoreItem(prevItems[0], now) + 2.0
              && forall c :: c in cs && c.id !in PrevIds(cs, previous) ==> ScoreItem(c, now) <= ScoreItem(r[0], now)))
  {
    var prevIds := PrevIds(cs, previous);
    var prevItems := PrevItems(cs, previous);
    var freshItems := Fresh(cs, prevIds, now);
    StickyHysteresis(cs, previous, limit, now);
    if freshItems != [] && ScoreItem(freshItems[0], now) - ScoreItem(prevItems[0], now) >= 2.0 {
      assert freshItems[0] in freshItems;
      FreshExactly(cs, prevIds, now);
      forall c | c in cs && c.id !in prevIds ensures ScoreItem(c, now) <= ScoreItem(freshItems[0], now) {
        HeadScoresHighest(freshItems, c, now);
      }
    }
  }

  /** The carried items of `ordered` are exactly the carried list, in its order. */
  lemma OrderedCarried(prevItems: seq<Item>, freshItems: seq<Item>, now: int, p: Item -> bool)
    requires DisjointIds(prevItems, freshItems)
    requires forall x :: x in prevItems ==> p(x)
    requires forall y :: y in freshItems ==> !p(y)
    ensures Filter(Ordered(prevItems, freshItems, now), p) == prevItems
  {
    OrderedCases(prevItems, freshItems, now);
    FilterAll(prevItems, p);
    FilterNone(freshItems, p);
    if prevItems != [] && freshItems != [] {
      assert freshItems[0] in freshItems;
      FilterNone([freshItems[0]], p);
      FilterAppend([freshItems[0]], prevItems, p);
    }
    FilterAppend(prevItems, freshItems, p);
  }

  /** When the carried list fits below the limit, slicing keeps all of it. */
  lemma OrderedSliceKeepsCarried(prevItems: seq<Item>, freshItems: seq<Item>, limit: nat, now: int, p: Item -> bool)
    requires DisjointIds(prevItems, freshItems) && |prevItems| < limit
    requires forall x :: x in prevItems ==> p(x)
    requires forall y :: y in freshItems ==> !p(y)
    ensures Filter(Take(Ordered(prevItems, freshItems, now), limit), p) == prevItems
  {
    OrderedCases(prevItems, freshItems, now);
    OrderedCarried(prevItems, freshItems, now, p);
    var ordered := Ordered(prevItems, freshItems, now);
    if ordered == prevItems + freshItems {
      TakeAppend(prevItems, freshItems, limit);
      var t := Take(freshItems, limit - |prevItems|);
      TakeMembers(freshItems, limit - |prevItems|);
      FilterNone(t, p);
      FilterAll(prevItems, p);
      FilterAppend(prevItems, t, p);
    }
  }

  /**
   * Carried items keep their previous relative order: the carried items shown
   * are a prefix of the carried list, and all of it when there is room for one
   * more item.
   */
  lemma StickyCarriedOrder(cs: seq<Item>, previous: seq<string>, limit: nat, now: int)
    ensures Filter(StickyList(cs, previous, limit, now), Carried(PrevIds(cs, previous))) <= PrevItems(cs, previous)
    ensures |PrevItems(cs, previous)| < limit ==>
              Filter(StickyList(cs, previous, limit, now), Carried(PrevIds(cs, previous))) == PrevItems(cs, previous)
  {
    var prevIds := PrevIds(cs, previous);
    var prevItems := PrevItems(cs, previous);
    var freshItems := Fresh(cs, prevIds, now);
    var p := Carried(prevIds);
    forall x | x in prevItems ensures p(x) {
      var i :| 0 <= i < |prevItems| && prevItems[i] == x;
    }
    CarriedFreshDisjoint(cs, previous, now);
    var ordered := Ordered(prevItems, freshItems, now);
    OrderedCarried(prevItems, freshItems, now, p);
    FilterPrefix(Take(ordered, limit), ordered, p);
    if |prevItems| < limit {
      OrderedSliceKeepsCarried(prevItems, freshItems, limit, now, p);
    }
  }

  lemma UniqueIdsSame(s: seq<Item>, a: Item, b: Item)
    requires UniqueIds(s) && a in s && b in s && a.id == b.id
    ensures a == b
  {
    var i :| 0 <= i < |s| && s[i] == a;
    var j :| 0 <= j < |s| && s[j] == b;
    assert i == j;
  }

  lemma {:induction false} UniqueIdsCount(s: seq<Item>, x: Item)
    requires UniqueIds(s)
    ensures multiset(s)[x] <= 1
  {
    if s != [] {
      assert UniqueIds(s[1..]) by {
        forall i, j | 0 <= i < j < |s[1..]| ensures s[1..][i].id != s[1..][j].id {
          assert s[1..][i] == s[i + 1] && s[1..][j] == s[j + 1];
        }
      }
      UniqueIdsCount(s[1..], x);
      assert s == [s[0]] + s[1..];
      if x == s[0] {
        assert x !in s[1..] by {
          forall j | 0 <= j < |s[1..]| ensures s[1..][j] != x {
            assert s[1..][j] == s[j + 1] && s[0].id != s[j + 1].id;
          }
        }
      }
    }
  }

  lemma CountOfRepeated(r: seq<Item>, i: nat, j: nat)
    requires i < j < |r| && r[i] == r[j]
    ensures multiset(r)[r[i]] >= 2
  {
    assert r == r[..j] + [r[j]] + r[j + 1..];
    assert r[i] == r[..j][i];
    assert r[i] in multiset(r[..j]);
  }

  /** Distinct ids survive taking a sub-multiset (a filter, a permutation). */
  lemma UniqueIdsSub(r: seq<Item>, s: seq<Item>)
    requires UniqueIds(s) && multiset(r) <= multiset(s)
    ensures UniqueIds(r)
  {
    forall i, j | 0 <= i < j < |r| ensures r[i].id != r[j].id {
      if r[i] == r[j] {
        CountOfRepeated(r, i, j);
        UniqueIdsCount(s, r[i]);
      } else {
        assert r[i] in multiset(r) && r[j] in multiset(r);
        assert r[i] in s && r[j] in s;
        if r[i].id == r[j].id {
          UniqueIdsSame(s, r[i], r[j]);
        }
      }
    }
  }

  lemma UniqueIdsPrefix(r: seq<Item>, s: seq<Item>)
    requires UniqueIds(s) && r <= s
    ensures UniqueIds(r)
  {
    forall i, j | 0 <= i < j < |r| ensures r[i].id != r[j].id {
      assert r[i] == s[i] && r[j] == s[j];
    }
  }

  lemma UniqueIdsAppend(a: seq<Item>, b: seq<Item>)
    requires UniqueIds(a) && UniqueIds(b) && DisjointIds(a, b)
    ensures UniqueIds(a + b)
  {
    var o := a + b;
    forall i, j | 0 <= i < j < |o| ensures o[i].id != o[j].id {
      if j < |a| {
        assert o[i] == a[i] && o[j] == a[j];
      } else if i >= |a| {
        assert o[i] == b[i - |a|] && o[j] == b[j - |a|];
      } else {
        assert o[i] == a[i] && o[j] == b[j - |a|];
        assert o[i] in a && o[j] in b;
      }
    }
  }

  /** Carried and fresh lists with distinct ids give an `ordered` list with distinct ids. */
  lemma OrderedUnique(prevItems: seq<Item>, freshItems: seq<Item>, now: int)
    requires UniqueIds(prevItems) && UniqueIds(freshItems) && DisjointIds(prevItems, freshItems)
    ensures UniqueIds(Ordered(prevItems, freshItems, now))
  {
    OrderedCases(prevItems, freshItems, now);
    if prevItems != [] && freshItems != [] {
      assert freshItems[0] in freshItems;
      assert DisjointIds([freshItems[0]], prevItems);
      UniqueIdsAppend([freshItems[0]], prevItems);
    }
    UniqueIdsAppend(prevItems, freshItems);
  }

  /** With unique candidate ids and a duplicate-free previous list, no id is shown twice. */
  lemma StickyNoDuplicates(cs: seq<Item>, previous: seq<string>, limit: nat, now: int)
    requires UniqueIds(cs) && NoDup(previous)
    ensures UniqueIds(StickyList(cs, previous, limit, now))
  {
    var prevIds := PrevIds(cs, previous);
    var prevItems := PrevItems(cs, previous);
    var freshItems := Fresh(cs, prevIds, now);
    FilterNoDup(previous, IsCandidateIdIn(cs));
    assert UniqueIds(prevItems) by {
      forall i, j | 0 <= i < j < |prevItems| ensures prevItems[i].id != prevItems[j].id {
        assert prevItems[i].id == prevIds[i] && prevItems[j].id == prevIds[j];
      }
    }
    FreshExactly(cs, prevIds, now);
    UniqueIdsSub(freshItems, cs);
    CarriedFreshDisjoint(cs, previous, now);
    OrderedUnique(prevItems, freshItems, now);
    var ordered := Ordered(prevItems, freshItems, now);
    UniqueIdsPrefix(Take(ordered, limit), ordered);
  }

  /**
   * After a reordering of candidates with unique ids, every item of `first`
   * (drawn from the candidates) is carried, as itself, in its old position.
   */
  lemma CarriedAfterReorder(reordered: seq<Item>, first: seq<Item>)
    requires UniqueIds(reordered)
    requires forall x :: x in first ==> x in reordered
    ensures PrevIds(reordered, Ids(first)) == Ids(first)
    ensures PrevItems(reordered, Ids(first)) == first
  {
    var ids := Ids(first);
    forall id | id in ids ensures IsCandidateIdIn(reordered)(id) {
      var i :| 0 <= i < |ids| && ids[i] == id;
      assert first[i] in first;
    }
    FilterAll(ids, IsCandidateIdIn(reordered));
    var prevItems := PrevItems(reordered, ids);
    forall i | 0 <= i < |first| ensures prevItems[i] == first[i] {
      assert first[i] in first;
      UniqueIdsSame(reordered, prevItems[i], first[i]);
    }
  }

  /**
   * Re-running on a mere reordering of the same candidates, with the first
   * run's ids as the previous list, returns the first run's items unchanged.
   */
  lemma StickyReorderStable(cs: seq<Item>, reordered: seq<Item>, limit: nat, now: int)
    requires UniqueIds(cs) && multiset(reordered) == multiset(cs)
    ensures var first := StickyList(cs, [], limit, now);
            StickyList(reordered, Ids(first), limit, now) == first
  {
    var sorted := SortByScore(cs, now);
    StickyColdStart(cs, [], limit, now);
    var first := Take(sorted, limit);
    var ids := Ids(first);
    UniqueIdsSub(reordered, cs);
    TakeMembers(sorted, limit);
    forall x | x in first ensures x in reordered {
      assert x in multiset(sorted);
    }
    CarriedAfterReorder(reordered, first);
    if first == [] {
      if limit > 0 {
        assert |cs| == |sorted|;
        assert |reordered| == |multiset(reordered)|;
      }
      StickyColdStart(reordered, ids, limit, now);
    } else {
      StickyHysteresis(reordered, ids, limit, now);
      var freshItems := Fresh(reordered, ids, now);
      if freshItems != [] {
        FreshAfterReorder(cs, reordered, limit, now);
        TakeAppend(first, freshItems, limit);
      }
    }
  }

  /**
   * After a reordering, a fresh item scores no higher than the first run's
   * leader, and its existence means the first run was full.
   */
  lemma FreshAfterReorder(cs: seq<Item>, reordered: seq<Item>, limit: nat, now: int)
    requires multiset(reordered) == multiset(cs)
    requires Take(SortByScore(cs, now), limit) != []
    requires Fresh(reordered, Ids(Take(SortByScore(cs, now), limit)), now) != []
    ensures var first := Take(SortByScore(cs, now), limit);
            var c := Fresh(reordered, Ids(first), now)[0];
            ScoreItem(c, now) - ScoreItem(first[0], now) < 2.0 && |first| == limit
  {
    var sorted := SortByScore(cs, now);
    var first := Take(sorted, limit);
    var ids := Ids(first);
    var freshItems := Fresh(reordered, ids, now);
    var c := freshItems[0];
    assert c in freshItems;
    assert c in cs by { assert c in multiset(reordered); }
    SortByScoreHead(cs, now);
    assert first[0] == sorted[0];
    assert c !in first by {
      forall k | 0 <= k < |first| ensures first[k] != c {
        assert ids[k] == first[k].id;
      }
    }
    assert c in sorted by {
      assert c in multiset(sorted);
    }
  }

  /** Stories A and B, B scoring higher, with no history show as [B, A]. */
  lemma StickyExampleFirst(a: Item, b: Item, now: int)
    requires ScoreItem(a, now) < ScoreItem(b, now)
    ensures StickyList([a, b], [], 5, now) == [b, a]
  {
    StickyColdStart([a, b], [], 5, now);
    assert ScoreKey(now)(b) < ScoreKey(now)(a);
    SortPair(a, b, ScoreKey(now));
  }

  /**
   * The worked example of the sticky rule: after [B, A], a new story C scoring
   * above B by less than 2 is appended, giving [B, A, C] rather than a re-sort
   * to [C, B, A].
   */
  lemma StickyExample(a: Item, b: Item, c: Item, now: int)
    requires a.id != b.id && b.id != c.id && a.id != c.id
    requires ScoreItem(a, now) < ScoreItem(b, now) <= ScoreItem(c, now) < ScoreItem(b, now) + 2.0
    ensures StickyList([a, b, c], [b.id, a.id], 5, now) == [b, a, c]
  {
    ExampleCarried(a, b, c);
    ExampleFresh(a, b, c, now);
    StickyHysteresis([a, b, c], [b.id, a.id], 5, now);
  }

  lemma ExampleCarried(a: Item, b: Item, c: Item)
    requires a.id != b.id && b.id != c.id && a.id != c.id
    ensures PrevIds([a, b, c], [b.id, a.id]) == [b.id, a.id]
    ensures PrevItems([a, b, c], [b.id, a.id]) == [b, a]
  {
    assert UniqueIds([a, b, c]);
    CarriedAfterReorder([a, b, c], [b, a]);
    assert Ids([b, a]) == [b.id, a.id];
  }

  lemma ExampleFresh(a: Item, b: Item, c: Item, now: int)
    requires a.id != b.id && b.id != c.id && a.id != c.id
    ensures Fresh([a, b, c], [b.id, a.id], now) == [c]
  {
    var p := NotAmong([b.id, a.id]);
    assert [a, b, c][1..] == [b, c] && [b, c][1..] == [c] && [c][1..] == [];
    assert Filter([c], p) == [c];
    assert Filter([b, c], p) == [c];
    assert Filter([a, b, c], p) == [c];
    SortSingle(c, ScoreKey(now));
  }

  // ------------------------------------------------------------ crowd tile

  function CrowdKey(p: CrowdPark): real {
    -(p.score as real)
  }

  /** The first park, in the given order, with a score of at least 8. */
  function FirstRising(ps: seq<CrowdPark>): (r: Option<CrowdPark>)
    ensures r.Some? ==> r.value in ps && r.value.score >= 8
    ensures r.None? <==> forall p :: p in ps ==> p.score < 8
    ensures ps != [] && ps[0].score >= 8 ==> r == Some(ps[0])
    ensures r.Some? ==> exists i :: 0 <= i < |ps| && ps[i] == r.value && forall j :: 0 <= j < i ==> ps[j].score < 8
  {
    if ps == [] then None
    else if ps[0].score >= 8 then Some(ps[0])
    else FirstRising(ps[1..])
  }

  function ParkName(p: Park): string {
    match p
    case MK => "Magic Kingdom"
    case EPCOT => "EPCOT"
    case DHS => "Hollywood Studios"
    case AK => "Animal Kingdom"
  }

  function ParkColor(p: Park): string {
    match p
    case MK => "blue"
    case EPCOT => "purple"
    case DHS => "red"
    case AK => "green"
  }

  /** `PARK_META[code]?.name || code`. */
  function NameForCode(code: string): string {
    if code == "MK" then ParkName(MK)
    else if code == "EPCOT" then ParkName(EPCOT)
    else if code == "DHS" then ParkName(DHS)
    else if code == "AK" then ParkName(AK)
    else code
  }

  /** `buildCrowdTile`: the synthesized crowds tile. */
  function BuildCrowdTile(crowds: CrowdsRaw, nowIso: string): (t: HotTile)
    ensures t.id == "hot-crowds" && t.category == Crowds && t.title == "Crowds"
  {
    var sorted := SortBy(crowds.parks, CrowdKey);
    var rising := FirstRising(sorted);
    var headline := if rising.Some? then "Crowds rising at " + NameForCode(rising.value.park) else "Crowds steady";
    var short :=
      if sorted != [] then sorted[0].crowdLabel + " (" + IntToString(sorted[0].score) + "/10)" else "Data limited";
    HotTile("hot-crowds", Crowds, "Crowds", short, headline,
            if crowds.generatedAt != "" then crowds.generatedAt else nowIso)
  }

  /** With no parks the crowds tile's short text is "Data limited"; otherwise it never is. */
  lemma CrowdTileEmpty(crowds: CrowdsRaw, nowIso: string)
    ensures var t := BuildCrowdTile(crowds, nowIso);
            (crowds.parks == [] <==> t.short == "Data limited")
            && (crowds.parks == [] ==> t.long == "Crowds steady")
  {
    var t := BuildCrowdTile(crowds, nowIso);
    if crowds.parks != [] {
      var sorted := SortBy(crowds.parks, CrowdKey);
      assert t.short == sorted[0].crowdLabel + " (" + IntToString(sorted[0].score) + "/10)";
      assert t.short[|t.short| - 1] == ')';
    }
  }

  /** The crowds tile reads "Crowds steady" exactly when no park scores 8 or more. */
  lemma CrowdTileSteady(crowds: CrowdsRaw, nowIso: string)
    ensures var t := BuildCrowdTile(crowds, nowIso);
            (forall p :: p in crowds.parks ==> p.score < 8) <==> t.long == "Crowds steady"
  {
    var t := BuildCrowdTile(crowds, nowIso);
    var sorted := SortBy(crowds.parks, CrowdKey);
    SortByMembers(crowds.parks, CrowdKey);
    var rising := FirstRising(sorted);
    if rising.Some? {
      var name := NameForCode(rising.value.park);
      assert rising.value in crowds.parks;
      assert t.long == "Crowds rising at " + name;
      assert t.long[7] == 'r' && "Crowds steady"[7] == 's';
    } else {
      assert t.long == "Crowds steady";
    }
  }

  /**
   * The crowds tile shows the label and score of a park with the highest
   * score, and names that park when it scores 8 or more.
   */
  lemma CrowdTileHighest(crowds: CrowdsRaw, nowIso: string)
    requires crowds.parks != []
    ensures var t := BuildCrowdTile(crowds, nowIso);
            exists h :: h in crowds.parks
              && (forall q :: q in crowds.parks ==> q.score <= h.score)
              && t.short == h.crowdLabel + " (" + IntToString(h.score) + "/10)"
              && (h.score >= 8 ==> t.long == "Crowds rising at " + NameForCode(h.park))
  {
    var sorted := SortBy(crowds.parks, CrowdKey);
    SortByFirstIsLeast(crowds.parks, CrowdKey);
    var h := sorted[0];
    forall q | q in crowds.parks ensures q.score <= h.score {
      assert CrowdKey(h) <= CrowdKey(q);
    }
  }

  // ----------------------------------------------------------- crowd coerce

  const DataLimited: string := "Data limited"

  /** `crowd?.data_quality || 'limited'`. */
  function QualityOf(crowd: Option<CrowdPark>): DataQuality {
    if crowd.Some? && crowd.value.dataQuality.Some? then crowd.value.dataQuality.value else Limited
  }

  /** `badData`: no entry, or an entry of quality `bad`. */
  predicate IsBadData(crowd: Option<CrowdPark>) {
    crowd.None? || QualityOf(crowd) == Bad
  }

  function Clamp(x: int, lo: int, hi: int): int
    requires lo <= hi
  {
    if x < lo then lo else if x > hi then hi else x
  }

  /** The previous entry carried forward, marked "Data limited". */
  function CarriedCrowd(previousCrowd: RenderCrowd): (r: RenderCrowd)
    ensures r.note == Some(DataLimited) && r.dataQuality == Limited
    ensures r.park == previousCrowd.park && r.score == previousCrowd.score
    ensures r.crowdLabel == previousCrowd.crowdLabel && r.avgWaitMin == previousCrowd.avgWaitMin
    ensures r.generatedAt == previousCrowd.generatedAt
  {
    previousCrowd.(note := Some(DataLimited), dataQuality := Limited)
  }

  /** `Math.max(1, Math.min(10, crowd?.score || previousCrowd?.score || 5))`. */
  function CrowdScore(crowd: Option<CrowdPark>, previousCrowd: Option<RenderCrowd>): (r: int)
    ensures 1 <= r <= 10
    ensures crowd.Some? && crowd.value.score != 0 ==>
              r == (if crowd.value.score > 10 then 10 else if crowd.value.score < 1 then 1 else crowd.value.score)
    ensures (crowd.None? || crowd.value.score == 0) && previousCrowd.Some? && previousCrowd.value.score != 0 ==>
              r == (if previousCrowd.value.score > 10 then 10
                    else if previousCrowd.value.score < 1 then 1 else previousCrowd.value.score)
    ensures (crowd.None? || crowd.value.score == 0) && (previousCrowd.None? || previousCrowd.value.score == 0) ==> r == 5
  {
    var score :=
      if crowd.Some? && crowd.value.score != 0 then crowd.value.score
      else if previousCrowd.Some? && previousCrowd.value.score != 0 then previousCrowd.value.score
      else 5;
    Clamp(score, 1, 10)
  }

  /** `crowd?.label || previousCrowd?.label || 'Moderate'`. */
  function CrowdLabelOf(crowd: Option<CrowdPark>, previousCrowd: Option<RenderCrowd>): (r: string)
    ensures r != ""
    ensures crowd.Some? && crowd.value.crowdLabel != "" ==> r == crowd.value.crowdLabel
    ensures (crowd.None? || crowd.value.crowdLabel == "") && previousCrowd.Some? && previousCrowd.value.crowdLabel != "" ==>
              r == previousCrowd.value.crowdLabel
    ensures (crowd.None? || crowd.value.crowdLabel == "") && (previousCrowd.None? || previousCrowd.value.crowdLabel == "") ==>
              r == "Moderate"
  {
    if crowd.Some? && crowd.value.crowdLabel != "" then crowd.value.crowdLabel
    else if previousCrowd.Some? && previousCrowd.value.crowdLabel != "" then previousCrowd.value.crowdLabel
    else "Moderate"
  }

  /** A fresh entry: the feed's fields, each falling back to the previous entry and then to a default. */
  function FreshCrowd(park: Park, crowd: Option<CrowdPark>, previousCrowd: Option<RenderCrowd>, nowIso: string): (r: RenderCrowd)
    ensures r.park == ParkCodeText(park)
    ensures r.score == CrowdScore(crowd, previousCrowd) && r.crowdLabel == CrowdLabelOf(crowd, previousCrowd)
    ensures r.dataQuality == QualityOf(crowd)
    ensures r.note == (if r.dataQuality != Good then Some(DataLimited) else None)
    ensures crowd.Some? && crowd.value.avgWaitMin.Some? ==> r.avgWaitMin == crowd.value.avgWaitMin.value
    ensures (crowd.None? || crowd.value.avgWaitMin.None?) && previousCrowd.Some? ==> r.avgWaitMin == previousCrowd.value.avgWaitMin
    ensures (crowd.None? || crowd.value.avgWaitMin.None?) && previousCrowd.None? ==> r.avgWaitMin == 0
    ensures crowd.Some? && crowd.value.generatedAt != "" ==> r.generatedAt == crowd.value.generatedAt
    ensures (crowd.None? || crowd.value.generatedAt == "") && previousCrowd.Some? && previousCrowd.value.generatedAt != "" ==>
              r.generatedAt == previousCrowd.value.generatedAt
    ensures (crowd.None? || crowd.value.generatedAt == "") && (previousCrowd.None? || previousCrowd.value.generatedAt == "") ==>
              r.generatedAt == nowIso
  {
    var quality := QualityOf(crowd);
    var avgWait :=
      if crowd.Some? && crowd.value.avgWaitMin.Some? then crowd.value.avgWaitMin.value
      else if previousCrowd.Some? then previousCrowd.value.avgWaitMin
      else 0;
    var generatedAt :=
      if crowd.Some? && crowd.value.generatedAt != "" then crowd.value.generatedAt
      else if previousCrowd.Some? && previousCrowd.value.generatedAt != "" then previousCrowd.value.generatedAt
      else nowIso;
    RenderCrowd(ParkCodeText(park), CrowdScore(crowd, previousCrowd), CrowdLabelOf(crowd, previousCrowd),
                avgWait, quality, generatedAt, if quality != Good then Some(DataLimited) else None)
  }

  /**
   * `coerceCrowd`: a missing or bad entry with a previous one carries the
   * previous forward marked "Data limited"; otherwise a fresh entry with its
   * score clamped to [1,10], falling back field by field to the previous entry
   * and then to the defaults.
   */
  function CoerceCrowd(park: Park, crowd: Option<CrowdPark>, previousCrowd: Option<RenderCrowd>, nowIso: string): (r: RenderCrowd)
    ensures IsBadData(crowd) && previousCrowd.Some? ==>
              r == previousCrowd.value.(note := Some(DataLimited), dataQuality := Limited)
    ensures !(IsBadData(crowd) && previousCrowd.Some?) ==> r == FreshCrowd(park, crowd, previousCrowd, nowIso)
  {
    if IsBadData(crowd) && previousCrowd.Some? then CarriedCrowd(previousCrowd.value)
    else FreshCrowd(park, crowd, previousCrowd, nowIso)
  }

  /**
   * The cases of `coerceCrowd` field by field: a fresh score above 10 gives
   * 10, a non-zero one below 1 gives 1, a zero or missing one falls back to the
   * previous score, clamped, and then to 5; the label, the wait and the time
   * fall back to the previous entry and then to "Moderate", 0 and now.
   */
  lemma CoerceCrowdCases(park: Park, crowd: Option<CrowdPark>, previousCrowd: Option<RenderCrowd>, nowIso: string)
    ensures var r := CoerceCrowd(park, crowd, previousCrowd, nowIso);
            var newEntry := !(IsBadData(crowd) && previousCrowd.Some?);
            var noScore := crowd.None? || crowd.value.score == 0;
            var noLabel := crowd.None? || crowd.value.crowdLabel == "";
            (!newEntry ==>
               (r.park == previousCrowd.value.park && r.score == previousCrowd.value.score
                && r.crowdLabel == previousCrowd.value.crowdLabel && r.avgWaitMin == previousCrowd.value.avgWaitMin
                && r.generatedAt == previousCrowd.value.generatedAt
                && r.dataQuality == Limited && r.note == Some(DataLimited)))
            && (newEntry ==>
                  (r.park == ParkCodeText(park) && r.dataQuality == QualityOf(crowd)
                   && (r.note.Some? <==> r.dataQuality != Good)))
            && (newEntry && crowd.Some? && crowd.value.score > 10 ==> r.score == 10)
            && (newEntry && crowd.Some? && crowd.value.score < 1 && crowd.value.score != 0 ==> r.score == 1)
            && (newEntry && crowd.Some? && 1 <= crowd.value.score <= 10 ==> r.score == crowd.value.score)
            && (newEntry && noScore && previousCrowd.Some? && 1 <= previousCrowd.value.score <= 10 ==> r.score == previousCrowd.value.score)
            && (newEntry && noScore && previousCrowd.Some? && previousCrowd.value.score > 10 ==> r.score == 10)
            && (newEntry && noScore && (previousCrowd.None? || previousCrowd.value.score == 0) ==> r.score == 5)
            && (newEntry && noLabel && (previousCrowd.None? || previousCrowd.value.crowdLabel == "") ==> r.crowdLabel == "Moderate")
            && (newEntry && (crowd.None? || crowd.value.avgWaitMin.None?) && previousCrowd.None? ==> r.avgWaitMin == 0)
            && (newEntry && (crowd.None? || crowd.value.generatedAt == "") && previousCrowd.None? ==> r.generatedAt == nowIso)
  {
  }

  /** `crowdsRaw?.parks?.[park]`: the crowd entry keyed by the park's code. */
  function CrowdFor(crowds: CrowdsRaw, park: Park): (r: Option<CrowdPark>)
    ensures r.Some? ==> r.value in crowds.parks && r.value.park == ParkCodeText(park)
    ensures r.None? <==> forall p :: p in crowds.parks ==> p.park != ParkCodeText(park)
  {
    FirstWithPark(crowds.parks, ParkCodeText(park))
  }

  function FirstWithPark(ps: seq<CrowdPark>, code: string): (r: Option<CrowdPark>)
    ensures r.Some? ==> r.value in ps && r.value.park == code
    ensures r.None? <==> forall p :: p in ps ==> p.park != code
  {
    if ps == [] then None
    else if ps[0].park == code then Some(ps[0])
    else FirstWithPark(ps[1..], code)
  }

  // ---------------------------------------------------------- tiles, items

  function WithCategory(c: Category): Item -> bool {
    (x: Item) => x.category == c
  }

  /** `pickCategoryItem`: the sticky selection among the pool's items of one category. */
  function PickCategoryItem(pool: seq<Item>, category: Category, now: int, previous: seq<string>, limit: nat): (r: seq<Item>)
    ensures |r| <= limit
    ensures forall x :: x in r ==> x in pool && x.category == category
  {
    StickyList(Filter(pool, WithCategory(category)), previous, limit, now)
  }

  function HotTitle(c: Category): string {
    if c == EventAlert then "Events & Alerts" else if c == LimitedMerch then "Limited Merch" else "Crowds"
  }

  /** `normalizeHotTile`. */
  function NormalizeHotTile(item: Item): HotTile {
    HotTile("hot-" + item.id, item.category, HotTitle(item.category), item.short, item.long, item.updatedAt.iso)
  }

  /** `toRenderItem`. */
  function ToRenderItem(item: Item): RenderItem {
    RenderItem(item.id, item.category, item.park, item.short, item.long, item.updatedAt.iso)
  }

  function ToRenderItems(s: seq<Item>): (r: seq<RenderItem>)
    ensures |r| == |s| && forall i :: 0 <= i < |s| ==> r[i] == ToRenderItem(s[i])
  {
    if s == [] then [] else [ToRenderItem(s[0])] + ToRenderItems(s[1..])
  }

  function RenderIds(s: seq<RenderItem>): (r: seq<string>)
    ensures |r| == |s| && forall i :: 0 <= i < |s| ==> r[i] == s[i].id
  {
    if s == [] then [] else [s[0].id] + RenderIds(s[1..])
  }

  /** Ids of the previous items of one category (`previous.filter((x) => x.category === c)`). */
  function RenderIdsOfCategory(s: seq<RenderItem>, c: Category): seq<string> {
    if s == [] then []
    else (if s[0].category == c then [s[0].id] else []) + RenderIdsOfCategory(s[1..], c)
  }

  /** Ids of previous home hot tiles of one category, as the tiles store them ("hot-" + item id). */
  function HotTileIdsAsWritten(tiles: seq<HotTile>, c: Category): seq<string> {
    if tiles == [] then []
    else (if tiles[0].category == c then [tiles[0].id] else []) + HotTileIdsAsWritten(tiles[1..], c)
  }

  /** A tile id with the "hot-" prefix that `normalizeHotTile` adds removed. */
  function StripHotPrefix(id: string): (r: string)
    ensures r == id || "hot-" + r == id
  {
    if |id| >= 4 && id[..4] == "hot-" then id[4..] else id
  }

  lemma StripNormalized(item: Item)
    ensures StripHotPrefix(NormalizeHotTile(item).id) == item.id
  {
    var id := NormalizeHotTile(item).id;
    assert id[..4] == "hot-" && id[4..] == item.id;
  }

  /** Ids of previous home hot tiles of one category, mapped back to item ids: the stored ids, each stripped. */
  function HotTileItemIds(tiles: seq<HotTile>, c: Category): (r: seq<string>)
    ensures |r| == |HotTileIdsAsWritten(tiles, c)| <= |tiles|
    ensures forall k :: 0 <= k < |r| ==> r[k] == StripHotPrefix(HotTileIdsAsWritten(tiles, c)[k])
  {
    if tiles == [] then []
    else (if tiles[0].category == c then [StripHotPrefix(tiles[0].id)] else []) + HotTileItemIds(tiles[1..], c)
  }

  predicate IsUrgent(item: Item) {
    item.urgency == MustSeeToday
  }

  function Urgent(): Item -> bool {
    (x: Item) => IsUrgent(x)
  }

  // ------------------------------------------------------- previous model

  function PrevHome(previous: Option<RenderModel>): Option<HomeModel> {
    if previous.Some? then Some(previous.value.home) else None
  }

  function PrevPark(previous: Option<RenderModel>, park: Park): Option<ParkModel> {
    if previous.Some? && park in previous.value.parks then Some(previous.value.parks[park]) else None
  }

  function FirstSnapshot(ss: seq<ParkSnapshot>, park: Park): (r: Option<ParkSnapshot>)
    ensures r.Some? ==> r.value in ss && r.value.park == park
  {
    if ss == [] then None else if ss[0].park == park then Some(ss[0]) else FirstSnapshot(ss[1..], park)
  }

  function FirstSummary(ss: seq<ParkSummary>, park: Park): (r: Option<ParkSummary>)
    ensures r.Some? ==> r.value in ss && r.value.park == park
  {
    if ss == [] then None else if ss[0].park == park then Some(ss[0]) else FirstSummary(ss[1..], park)
  }

  // ---------------------------------------------------------- home section

  /** Sticky selection over a pool sorted by score, shown as render items. */
  function Section(candidates: seq<Item>, previous: seq<string>, limit: nat, now: int): (r: seq<RenderItem>)
    ensures |r| <= limit
  {
    ToRenderItems(StickyList(SortByScore(candidates, now), previous, limit, now))
  }

  /** Every item a section shows is the rendering of one of its candidates. */
  lemma SectionFromCandidates(candidates: seq<Item>, previous: seq<string>, limit: nat, now: int)
    ensures forall x :: x in Section(candidates, previous, limit, now) ==>
              exists i :: i in candidates && x == ToRenderItem(i)
  {
    var s := StickyList(SortByScore(candidates, now), previous, limit, now);
    var r := ToRenderItems(s);
    forall x | x in r ensures exists i :: i in candidates && x == ToRenderItem(i) {
      var k :| 0 <= k < |r| && r[k] == x;
      assert s[k] in s;
      assert s[k] in multiset(SortByScore(candidates, now));
    }
  }

  /** Every item shown came from `source` and passed sanitising. */
  predicate FromDisplayable(r: seq<RenderItem>, source: seq<Item>, now: int) {
    forall x :: x in r ==> exists i :: i in source && Displayable(i, now) && x == ToRenderItem(i)
  }

  function HomePool(n: NewsletterRaw, now: int): seq<Item> {
    Sanitize(n.home.mustSee + n.home.topStories + n.home.hotTiles, now)
  }

  function HomeMustSee(n: NewsletterRaw, previous: Option<RenderModel>, now: int): (r: seq<RenderItem>)
    ensures |r| <= 1
  {
    var prev := PrevHome(previous);
    Section(Filter(Sanitize(n.home.mustSee, now), Urgent()),
            if prev.Some? then RenderIds(prev.value.mustSee) else [], 1, now)
  }

  function EventFallback(n: NewsletterRaw): HotTile {
    HotTile("hot-event-fallback", EventAlert, "Events & Alerts", "No urgent alerts", "No urgent alerts right now.", n.generatedAt)
  }

  function MerchFallback(n: NewsletterRaw): HotTile {
    HotTile("hot-merch-fallback", LimitedMerch, "Limited Merch", "No merch alerts", "No limited merch alert right now.", n.generatedAt)
  }

  /**
   * One home hot tile: the sticky pick among the pool's items of the category,
   * as a tile, or the fallback when the category has no item.
   */
  function HotTileOrFallback(pool: seq<Item>, c: Category, previousIds: seq<string>, fallback: HotTile, now: int): (t: HotTile)
    ensures t == fallback || (t.category == c && t.title == HotTitle(c))
  {
    var picked := PickCategoryItem(pool, c, now, previousIds, 1);
    if picked != [] then
      assert picked[0] in picked;
      NormalizeHotTile(picked[0])
    else fallback
  }

  /** The previous home hot-tile ids of one category, as item ids. */
  function PrevHotIds(previous: Option<RenderModel>, c: Category): seq<string> {
    var prev := PrevHome(previous);
    if prev.Some? then HotTileItemIds(prev.value.hotTiles, c) else []
  }

  /** `hotTiles`: exactly an event tile, a merch tile and the crowds tile, in that order. */
  function HomeHotTiles(n: NewsletterRaw, crowds: CrowdsRaw, previous: Option<RenderModel>, now: int, nowIso: string): (r: seq<HotTile>)
    ensures |r| == 3
    ensures r[2] == BuildCrowdTile(crowds, nowIso)
  {
    var pool := HomePool(n, now);
    [HotTileOrFallback(pool, EventAlert, PrevHotIds(previous, EventAlert), EventFallback(n), now),
     HotTileOrFallback(pool, LimitedMerch, PrevHotIds(previous, LimitedMerch), MerchFallback(n), now),
     BuildCrowdTile(crowds, nowIso)]
  }

  /**
   * A home hot tile is the fallback when the pool has no item of its
   * category, and otherwise the tile of one of the pool's items of that category.
   */
  lemma HotTileChoice(pool: seq<Item>, c: Category, previousIds: seq<string>, fallback: HotTile, now: int)
    ensures var t := HotTileOrFallback(pool, c, previousIds, fallback, now);
            ((forall x :: x in pool ==> x.category != c) ==> t == fallback)
            && ((exists x :: x in pool && x.category == c) ==>
                  exists x :: x in pool && x.category == c && t == NormalizeHotTile(x))
  {
    var cands := Filter(pool, WithCategory(c));
    var picked := PickCategoryItem(pool, c, now, previousIds, 1);
    FilterKeeps(pool, WithCategory(c));
    if x :| x in pool && x.category == c {
      assert x in cands;
      StickyNonEmpty(cands, previousIds, 1, now);
      assert picked[0] in picked;
    }
  }

  /** The first home tile is an event tile and the second a merch tile, with their titles. */
  lemma HomeHotTilesShape(n: NewsletterRaw, crowds: CrowdsRaw, previous: Option<RenderModel>, now: int, nowIso: string)
    ensures var r := HomeHotTiles(n, crowds, previous, now, nowIso);
            r[0].category == EventAlert && r[0].title == "Events & Alerts"
            && r[1].category == LimitedMerch && r[1].title == "Limited Merch"
  {
  }

  /** The home event tile: the fallback exactly when the pool holds no displayable event alert. */
  lemma HomeEventTile(n: NewsletterRaw, crowds: CrowdsRaw, previous: Option<RenderModel>, now: int, nowIso: string)
    ensures var t, pool := HomeHotTiles(n, crowds, previous, now, nowIso)[0], HomePool(n, now);
            ((forall x :: x in pool ==> x.category != EventAlert) ==> t == EventFallback(n))
            && ((exists x :: x in pool && x.category == EventAlert) ==>
                  exists x :: x in pool && x.category == EventAlert && t == NormalizeHotTile(x))
  {
    HotTileChoice(HomePool(n, now), EventAlert, PrevHotIds(previous, EventAlert), EventFallback(n), now);
  }

  /*
   * Previous hot tiles store "hot-" + the item id, while the candidates are
   * keyed by the item id alone. Passed on as they are stored, the previous
   * tile ids never match a candidate, so the hot tiles lose their stickiness.
   */

  lemma AsWrittenSingle(t: HotTile, c: Category)
    requires t.category == c
    ensures HotTileIdsAsWritten([t], c) == [t.id]
  {
    assert [t][1..] == [];
  }

  /** As written: the id stored for a previous tile is never a candidate id, so nothing is carried. */
  lemma AsWrittenIdsNotCarried(cands: seq<Item>, x: Item)
    requires forall y :: y in cands ==> y.id != "hot-" + x.id
    ensures PrevIds(cands, HotTileIdsAsWritten([NormalizeHotTile(x)], x.category)) == []
  {
    var ids := HotTileIdsAsWritten([NormalizeHotTile(x)], x.category);
    AsWrittenSingle(NormalizeHotTile(x), x.category);
    FilterNone(ids, IsCandidateIdIn(cands));
  }

  /** Corrected: the item shown in a previous tile is carried whenever it is still a candidate. */
  lemma CorrectedIdsCarried(cands: seq<Item>, x: Item)
    requires x in cands
    ensures PrevIds(cands, HotTileItemIds([NormalizeHotTile(x)], x.category)) == [x.id]
  {
    StripNormalized(x);
    var ids := HotTileItemIds([NormalizeHotTile(x)], x.category);
    assert ids == [x.id];
    assert IsCandidateIdIn(cands)(x.id);
    FilterAll(ids, IsCandidateIdIn(cands));
  }

  /** Two items of the tile's category are both candidates, in pool order. */
  lemma PairCandidates(a: Item, b: Item, c: Category)
    requires a.category == c && b.category == c
    ensures Filter([a, b], WithCategory(c)) == [a, b]
  {
    assert [a, b][1..] == [b] && [b][1..] == [];
  }

  /** The tile is the one of the single item the sticky pick returns. */
  lemma TileOfPick(pool: seq<Item>, c: Category, previousIds: seq<string>, fallback: HotTile, now: int, x: Item)
    requires StickyList(Filter(pool, WithCategory(c)), previousIds, 1, now) == [x]
    ensures HotTileOrFallback(pool, c, previousIds, fallback, now) == NormalizeHotTile(x)
  {
  }

  /** With A and B both candidates and no previous id among them, B wins the pick on score. */
  lemma PairPickUncarried(a: Item, b: Item, previousIds: seq<string>, now: int)
    requires a.id !in previousIds && b.id !in previousIds
    requires ScoreItem(a, now) < ScoreItem(b, now)
    ensures StickyList([a, b], previousIds, 1, now) == [b]
  {
    forall id | id in previousIds ensures !IsCandidateId([a, b], id) {
      assert forall y :: y in [a, b] ==> y == a || y == b;
    }
    StickyColdStart([a, b], previousIds, 1, now);
    assert ScoreKey(now)(b) < ScoreKey(now)(a);
    SortPair(a, b, ScoreKey(now));
  }

  /** With A carried and B ahead of it by less than 2, A keeps the pick. */
  lemma PairPickCarried(a: Item, b: Item, now: int)
    requires a.id != b.id
    requires ScoreItem(b, now) < ScoreItem(a, now) + 2.0
    ensures StickyList([a, b], [a.id], 1, now) == [a]
  {
    assert PrevIds([a, b], [a.id]) == [a.id] by {
      assert IsCandidateIdIn([a, b])(a.id);
      FilterAll([a.id], IsCandidateIdIn([a, b]));
    }
    assert PrevItems([a, b], [a.id]) == [a] by {
      assert [a, b][..1] == [a];
      assert LastWithId([a, b], a.id) == LastWithId([a], a.id);
    }
    assert Fresh([a, b], [a.id], now) == [b] by {
      assert [a, b][1..] == [b] && [b][1..] == [];
      assert Filter([a, b], NotAmong([a.id])) == [b];
      SortSingle(b, ScoreKey(now));
    }
    StickyHysteresis([a, b], [a.id], 1, now);
  }

  /**
   * As written: last run's tile showed A; B now scores higher by less than 2,
   * yet the tile switches to B, as though there were no previous tile.
   */
  lemma HotTileFlipsAsWritten(a: Item, b: Item, c: Category, fallback: HotTile, now: int)
    requires a.category == c && b.category == c && b.id != "hot-" + a.id
    requires ScoreItem(a, now) < ScoreItem(b, now) < ScoreItem(a, now) + 2.0
    ensures HotTileOrFallback([a, b], c, HotTileIdsAsWritten([NormalizeHotTile(a)], c), fallback, now)
         == NormalizeHotTile(b)
  {
    var ids := HotTileIdsAsWritten([NormalizeHotTile(a)], c);
    AsWrittenSingle(NormalizeHotTile(a), a.category);
    assert |a.id| < |"hot-" + a.id|;
    PairCandidates(a, b, c);
    PairPickUncarried(a, b, ids, now);
    TileOfPick([a, b], c, ids, fallback, now, b);
  }

  /** Corrected: in the same situation the tile keeps showing A. */
  lemma HotTileKeptCorrected(a: Item, b: Item, c: Category, fallback: HotTile, now: int)
    requires a.category == c && b.category == c && a.id != b.id
    requires ScoreItem(a, now) < ScoreItem(b, now) < ScoreItem(a, now) + 2.0
    ensures HotTileOrFallback([a, b], c, HotTileItemIds([NormalizeHotTile(a)], c), fallback, now)
         == NormalizeHotTile(a)
  {
    var ids := HotTileItemIds([NormalizeHotTile(a)], c);
    StripNormalized(a);
    assert [NormalizeHotTile(a)][1..] == [];
    assert ids == [a.id];
    PairCandidates(a, b, c);
    PairPickCarried(a, b, now);
    TileOfPick([a, b], c, ids, fallback, now, a);
  }


  function HomeTopStories(n: NewsletterRaw, previous: Option<RenderModel>, now: int): (r: seq<RenderItem>)
    ensures |r| <= 5
  {
    var prev := PrevHome(previous);
    Section(Sanitize(n.home.topStories, now), if prev.Some? then RenderIds(prev.value.topStories) else [], 5, now)
  }

  function HomeResortSpotlight(n: NewsletterRaw, previous: Option<RenderModel>, now: int): (r: seq<RenderItem>)
    ensures |r| <= 2
  {
    var prev := PrevHome(previous);
    Section(Sanitize(n.home.resortsBlurb, now), if prev.Some? then RenderIds(prev.value.resortSpotlight) else [], 2, now)
  }

  /** A section over sanitised items shows only displayable items of its source. */
  lemma SanitizedSection(source: seq<Item>, previous: seq<string>, limit: nat, now: int)
    ensures FromDisplayable(Section(Sanitize(source, now), previous, limit, now), source, now)
  {
    SectionFromCandidates(Sanitize(source, now), previous, limit, now);
  }

  /** Home lists show only displayable items of their own feed list; must-see items are urgent. */
  lemma HomeListsFromFeed(n: NewsletterRaw, previous: Option<RenderModel>, now: int)
    ensures FromDisplayable(HomeTopStories(n, previous, now), n.home.topStories, now)
    ensures FromDisplayable(HomeResortSpotlight(n, previous, now), n.home.resortsBlurb, now)
    ensures forall x :: x in HomeMustSee(n, previous, now) ==>
              exists i :: i in n.home.mustSee && Displayable(i, now) && IsUrgent(i) && x == ToRenderItem(i)
  {
    var prev := PrevHome(previous);
    SanitizedSection(n.home.topStories, if prev.Some? then RenderIds(prev.value.topStories) else [], 5, now);
    SanitizedSection(n.home.resortsBlurb, if prev.Some? then RenderIds(prev.value.resortSpotlight) else [], 2, now);
    SectionFromCandidates(Filter(Sanitize(n.home.mustSee, now), Urgent()),
                          if prev.Some? then RenderIds(prev.value.mustSee) else [], 1, now);
  }

  /** `parksRaw[park]`, or a feed with nothing in it. */
  function ParkFeedOf(n: NewsletterRaw, park: Park): ParkFeed {
    if park in n.parks then n.parks[park] else ParkFeed("", [], [], [], [])
  }

  function SnapshotHeadline(n: NewsletterRaw, park: Park, now: int): (r: string)
    ensures r != ""
  {
    var summary := FirstSummary(n.home.parksSummary, park);
    var headlines := Sanitize(ParkFeedOf(n, park).headlines, now);
    if summary.Some? && summary.value.headline != "" then summary.value.headline
    else if headlines != [] && headlines[0].short != "" then headlines[0].short
    else "No major updates"
  }

  function Snapshot(n: NewsletterRaw, crowds: CrowdsRaw, previous: Option<RenderModel>, park: Park, now: int, nowIso: string): (r: ParkSnapshot)
    ensures r.park == park && r.name == ParkName(park) && r.color == ParkColor(park)
  {
    var prev := PrevHome(previous);
    var previousSnap := if prev.Some? then FirstSnapshot(prev.value.parkSnapshots, park) else None;
    var crowd := CoerceCrowd(park, CrowdFor(crowds, park), if previousSnap.Some? then Some(previousSnap.value.crowd) else None, nowIso);
    ParkSnapshot(park, ParkName(park), ParkColor(park), crowd, SnapshotHeadline(n, park, now))
  }

  /** `PARKS.map(buildParkSnapshot)`: one snapshot per park of `order`, in that order. */
  function Snapshots(n: NewsletterRaw, crowds: CrowdsRaw, previous: Option<RenderModel>, order: seq<Park>, now: int, nowIso: string): (r: seq<ParkSnapshot>)
    ensures |r| == |order| && forall i :: 0 <= i < |order| ==> r[i].park == order[i]
  {
    if order == [] then []
    else [Snapshot(n, crowds, previous, order[0], now, nowIso)] + Snapshots(n, crowds, previous, order[1..], now, nowIso)
  }

  /** The home section; every list within its cap, the snapshots in park order. */
  function HomeSection(n: NewsletterRaw, crowds: CrowdsRaw, previous: Option<RenderModel>, now: int, nowIso: string): (h: HomeModel)
    ensures |h.mustSee| <= 1 && |h.topStories| <= 5 && |h.resortSpotlight| <= 2
    ensures |h.hotTiles| == 3
    ensures |h.parkSnapshots| == 4
    ensures forall i :: 0 <= i < 4 ==> h.parkSnapshots[i].park == ParkOrder[i]
  {
    HomeModel(
      HomeMustSee(n, previous, now),
      HomeHotTiles(n, crowds, previous, now, nowIso),
      HomeTopStories(n, previous, now),
      Snapshots(n, crowds, previous, ParkOrder, now, nowIso),
      HomeResortSpotlight(n, previous, now))
  }

  // ---------------------------------------------------------- park section

  function ParkPool(source: ParkFeed, now: int): seq<Item> {
    Sanitize(source.hot + source.headlines + source.mustSee, now)
  }

  /** The order of a park's hot picks: event alert, limited merch, crowds. */
  const HotOrder: seq<Category> := [EventAlert, LimitedMerch, Crowds]

  function Categories(s: seq<Item>): (r: seq<Category>)
    ensures |r| == |s|
  {
    if s == [] then [] else [s[0].category] + Categories(s[1..])
  }

  function RenderCategories(s: seq<RenderItem>): (r: seq<Category>)
    ensures |r| == |s|
  {
    if s == [] then [] else [s[0].category] + RenderCategories(s[1..])
  }

  lemma {:induction false} CategoriesAppend(a: seq<Item>, b: seq<Item>)
    ensures Categories(a + b) == Categories(a) + Categories(b)
  {
    if a == [] {
      assert a + b == b;
    } else {
      assert (a + b)[0] == a[0] && (a + b)[1..] == a[1..] + b;
      CategoriesAppend(a[1..], b);
    }
  }

  lemma {:induction false} RenderKeepsCategories(s: seq<Item>)
    ensures RenderCategories(ToRenderItems(s)) == Categories(s)
  {
    if s != [] {
      assert ToRenderItems(s)[1..] == ToRenderItems(s[1..]);
      RenderKeepsCategories(s[1..]);
    }
  }

  /** The categories of a pick of at most one item, all of category `c`. */
  lemma SinglePick(e: seq<Item>, c: Category)
    requires |e| <= 1 && forall x :: x in e ==> x.category == c
    ensures Categories(e) == [] || Categories(e) == [c]
  {
    if e != [] {
      assert e[0] in e;
      assert e[1..] == [];
    }
  }

  /** Picks of at most one event alert, one merch item and one crowds item concatenate in that order. */
  lemma RankedConcat(e: seq<Item>, m: seq<Item>, c: seq<Item>)
    requires |e| <= 1 && forall x :: x in e ==> x.category == EventAlert
    requires |m| <= 1 && forall x :: x in m ==> x.category == LimitedMerch
    requires |c| <= 1 && forall x :: x in c ==> x.category == Crowds
    ensures IsSubsequence(Categories(e + m + c), HotOrder)
  {
    CategoriesAppend(e + m, c);
    CategoriesAppend(e, m);
    SinglePick(e, EventAlert);
    SinglePick(m, LimitedMerch);
    SinglePick(c, Crowds);
    SubsequenceOfOrder(Categories(e), Categories(m), Categories(c));
  }

  lemma SubsequenceOfOrder(ce: seq<Category>, cm: seq<Category>, cc: seq<Category>)
    requires ce == [] || ce == [EventAlert]
    requires cm == [] || cm == [LimitedMerch]
    requires cc == [] || cc == [Crowds]
    ensures IsSubsequence(ce + cm + cc, HotOrder)
  {
    var tail := [LimitedMerch, Crowds];
    assert HotOrder == [EventAlert] + tail;
    assert IsSubsequence(cm + cc, tail) by {
      assert tail == [LimitedMerch] + [Crowds];
      assert IsSubsequence(cc, [Crowds]);
      SubsequenceStep(cm, cc, LimitedMerch, [Crowds]);
    }
    SubsequenceStep(ce, cm + cc, EventAlert, tail);
    assert ce + cm + cc == ce + (cm + cc);
  }

  /** Putting `x` or nothing in front keeps a subsequence of `rest` a subsequence of `[x] + rest`. */
  lemma SubsequenceStep<T>(head: seq<T>, a: seq<T>, x: T, rest: seq<T>)
    requires head == [] || head == [x]
    requires IsSubsequence(a, rest)
    ensures IsSubsequence(head + a, [x] + rest)
  {
    if head == [] {
      assert head + a == a;
      SubsequenceCons(a, x, rest);
    } else {
      assert (head + a)[0] == x && (head + a)[1..] == a;
      assert ([x] + rest)[1..] == rest;
    }
  }

  /** The event, merch and crowds picks of a park: at most one of each, in that order. */
  function HotPicks(pool: seq<Item>, prevHot: seq<RenderItem>, now: int): (r: seq<Item>)
    ensures forall x :: x in r ==> x in pool
    ensures IsSubsequence(Categories(r), HotOrder)
  {
    var e := PickCategoryItem(pool, EventAlert, now, RenderIdsOfCategory(prevHot, EventAlert), 1);
    var m := PickCategoryItem(pool, LimitedMerch, now, RenderIdsOfCategory(prevHot, LimitedMerch), 1);
    var c := PickCategoryItem(pool, Crowds, now, RenderIdsOfCategory(prevHot, Crowds), 1);
    RankedConcat(e, m, c);
    e + m + c
  }

  /** Rendering the picks keeps their categories, and there are at most three of them. */
  lemma RenderedPicks(picked: seq<Item>)
    requires IsSubsequence(Categories(picked), HotOrder)
    ensures var r := ToRenderItems(Take(picked, 3));
            |r| <= 3 && IsSubsequence(RenderCategories(r), HotOrder)
  {
    SubsequenceLength(Categories(picked), HotOrder);
    assert Take(picked, 3) == picked;
    RenderKeepsCategories(picked);
  }

  /**
   * A park's `hot` list: at most one event alert, one limited-merch item and
   * one crowds item, in that order, and nothing else.
   */
  function ParkHot(source: ParkFeed, prev: Option<ParkModel>, now: int): (r: seq<RenderItem>)
    ensures |r| <= 3
    ensures IsSubsequence(RenderCategories(r), HotOrder)
  {
    var picked := HotPicks(ParkPool(source, now), if prev.Some? then prev.value.hot else [], now);
    RenderedPicks(picked);
    ToRenderItems(Take(picked, 3))
  }

  function ParkCrowd(crowds: CrowdsRaw, previous: Option<RenderModel>, park: Park, nowIso: string): RenderCrowd {
    var prev := PrevPark(previous, park);
    CoerceCrowd(park, CrowdFor(crowds, park), if prev.Some? then Some(prev.value.crowd) else None, nowIso)
  }

  /** `todayVibe`: the feed's text, or "<Park name> feels <label> today." */
  function TodayVibe(source: ParkFeed, park: Park, crowd: RenderCrowd): string {
    if source.todayVibe != "" then source.todayVibe
    else ParkName(park) + " feels " + ToLower(crowd.crowdLabel) + " today."
  }

  /** One park's section; every list within its cap. */
  function ParkSection(n: NewsletterRaw, crowds: CrowdsRaw, previous: Option<RenderModel>, park: Park, now: int, nowIso: string): (m: ParkModel)
    ensures m.park == park
    ensures |m.mustSee| <= 1 && |m.hot| <= 3 && |m.headlines| <= 6 && |m.resortTieIns| <= 3
    ensures m.crowd == ParkCrowd(crowds, previous, park, nowIso)
  {
    var source := ParkFeedOf(n, park);
    var prev := PrevPark(previous, park);
    var crowd := ParkCrowd(crowds, previous, park, nowIso);
    ParkModel(
      park,
      crowd,
      TodayVibe(source, park, crowd),
      Section(Filter(Sanitize(source.mustSee, now), Urgent()), if prev.Some? then RenderIds(prev.value.mustSee) else [], 1, now),
      ParkHot(source, prev, now),
      Section(Sanitize(source.headlines, now), if prev.Some? then RenderIds(prev.value.headlines) else [], 6, now),
      Section(Sanitize(source.resortBlurbs, now), if prev.Some? then RenderIds(prev.value.resortTieIns) else [], 3, now))
  }

  // ---------------------------------------------------------------- builder

  /** `buildParkSection` for the given inputs, as a function of the park. */
  function SectionOf(n: NewsletterRaw, crowds: CrowdsRaw, previous: Option<RenderModel>, now: int, nowIso: string): Park -> ParkModel {
    (p: Park) => ParkSection(n, crowds, previous, p, now, nowIso)
  }

  /** Filling a map over the park order gives one entry for each of the four parks, and no other. */
  lemma FilledParks<V>(f: Park -> V)
    ensures FillMap(ParkOrder, f).Keys == {MK, EPCOT, DHS, AK}
    ensures forall p: Park :: FillMap(ParkOrder, f)[p] == f(p)
  {
    FillMapContents(ParkOrder, f);
    assert ParkOrder[0] == MK && ParkOrder[1] == EPCOT && ParkOrder[2] == DHS && ParkOrder[3] == AK;
    assert (set p | p in ParkOrder) == {MK, EPCOT, DHS, AK};
    forall p: Park ensures p in ParkOrder {
      assert p.MK? || p.EPCOT? || p.DHS? || p.AK?;
    }
  }

  /** The render model's `parks` has an entry for each of the four parks and for no other key. */
  lemma BuiltParkKeys(n: NewsletterRaw, crowds: CrowdsRaw, previous: Option<RenderModel>, now: int, nowIso: string)
    ensures FillMap(ParkOrder, SectionOf(n, crowds, previous, now, nowIso)).Keys == {MK, EPCOT, DHS, AK}
  {
    FilledParks(SectionOf(n, crowds, previous, now, nowIso));
  }

  /** The entry of each park is that park's section. */
  lemma BuiltParkSection(n: NewsletterRaw, crowds: CrowdsRaw, previous: Option<RenderModel>, now: int, nowIso: string, p: Park)
    ensures var parks := FillMap(ParkOrder, SectionOf(n, crowds, previous, now, nowIso));
            p in parks && parks[p] == ParkSection(n, crowds, previous, p, now, nowIso)
  {
    FilledParks(SectionOf(n, crowds, previous, now, nowIso));
  }

  /** The `forEach` over the parks in order, storing `section(park)` under each park. */
  method FillParks(section: Park -> ParkModel) returns (parks: map<Park, ParkModel>)
    ensures parks == FillMap(ParkOrder, section)
  {
    parks := map[];
    for i := 0 to |ParkOrder|
      invariant parks == FillMap(ParkOrder[..i], section)
    {
      var park := ParkOrder[i];
      assert ParkOrder[..i + 1][..i] == ParkOrder[..i];
      parks := parks[park := section(park)];
    }
    assert ParkOrder[..|ParkOrder|] == ParkOrder;
  }

  /**
   * `buildDashboardRenderModel`: the home section, then the four park
   * sections filled in park order.
   */
  method BuildDashboardRenderModel(n: NewsletterRaw, crowds: CrowdsRaw, previous: Option<RenderModel>, now: int, nowIso: string)
    returns (model: RenderModel)
    ensures model.home == HomeSection(n, crowds, previous, now, nowIso)
    ensures model.parks == FillMap(ParkOrder, SectionOf(n, crowds, previous, now, nowIso))
    ensures model.generatedAt == if n.generatedAt != "" then n.generatedAt else nowIso
    ensures model.crowdGeneratedAt == if crowds.generatedAt != "" then crowds.generatedAt else nowIso
  {
    var home := HomeSection(n, crowds, previous, now, nowIso);
    var parks := FillParks(SectionOf(n, crowds, previous, now, nowIso));
    model := RenderModel(
      if n.generatedAt != "" then n.generatedAt else nowIso,
      if crowds.generatedAt != "" then crowds.generatedAt else nowIso,
      home,
      parks);
  }
}
