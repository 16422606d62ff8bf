/**
 * The dining-alert store (lib/grub-grab/alert-manager.ts): alerts by id, and
 * for each chat the ids of its alerts. The uuid generator, the clock, date
 * parsing and the restaurant dataset are parameters.
 *
 * A JavaScript Map iterates in insertion order and so does a Set, so the
 * store keeps the key order of `alertsById` and each user's id set as
 * sequences.
 */
module AlertManager {
  import opened Wrappers
  import opened Strings
  import opened Seqs
  import opened GrubTypes
  import opened Restaurants

  datatype CreateAlertInput = CreateAlertInput(
    restaurantSlug: string,
    telegramChatId: string,
    startDate: string,
    endDate: string,
    partySize: int,
    mealPreference: MealPreference,
    timePreference: TimePreference)

  /** The errors `createAlert` throws, one per check, in the order they are made. */
  datatype CreateError = ChatIdRequired | PartySizeOutOfRange | InvalidDateRange | RestaurantNotFound | TooManyActiveAlerts

  datatype Created = Created(alert: DiningAlert) | Rejected(error: CreateError)

  const DayMs: int := 86400000
  const MaxActivePerUser: nat := 3

  /**
   * `isValidDateRange`, the dates already parsed (None for an invalid date):
   * start no later than end, start no earlier than today's UTC midnight, end
   * no later than 60 days from now.
   */
  predicate IsValidDateRange(start: Option<int>, end: Option<int>, nowMs: int) {
    start.Some? && end.Some? && start.value <= end.value
    && start.value >= nowMs - nowMs % DayMs
    && end.value <= nowMs + 60 * DayMs
  }

  /** A valid range starts and ends inside a window of less than 61 days. */
  lemma ValidRangeSpan(start: Option<int>, end: Option<int>, nowMs: int)
    requires IsValidDateRange(start, end, nowMs)
    ensures 0 <= end.value - start.value < 61 * DayMs
    ensures nowMs - DayMs < start.value
  {
  }

  // ------------------------------------------------------------ the state

  /** What the store holds: alerts by id (with the Map's key order) and each chat's ids. */
  datatype StoreState = StoreState(byId: map<string, DiningAlert>, order: seq<string>, byUser: map<string, seq<string>>)

  const EmptyStore: StoreState := StoreState(map[], [], map[])

  /**
   * The two indexes agree: the key order lists the ids once each; every id
   * keys an alert with that id; every chat's ids are distinct, non-empty and
   * name alerts of that chat; and every alert is listed under its chat.
   */
  ghost predicate Consistent(s: StoreState) {
    OrderMatches(s) && KeyedById(s) && UsersOwn(s) && AllListed(s)
  }

  /** The key order lists every stored id exactly once. */
  ghost predicate OrderMatches(s: StoreState) {
    NoDup(s.order) && forall id :: id in s.order <==> id in s.byId
  }

  ghost predicate KeyedById(s: StoreState) {
    forall id :: id in s.byId ==> s.byId[id].id == id
  }

  /** Each chat's id set is non-empty, duplicate-free, and names stored alerts of that chat. */
  ghost predicate UsersOwn(s: StoreState) {
    forall u :: u in s.byUser ==>
      s.byUser[u] != [] && NoDup(s.byUser[u])
      && forall id :: id in s.byUser[u] ==> id in s.byId && s.byId[id].telegramChatId == u
  }

  /** Every stored alert is listed under its chat. */
  ghost predicate AllListed(s: StoreState) {
    forall id :: id in s.byId ==> s.byId[id].telegramChatId in s.byUser && id in s.byUser[s.byId[id].telegramChatId]
  }

  /** The number of active alerts among `ids`. */
  function CountActive(ids: seq<string>, m: map<string, DiningAlert>): nat {
    if ids == [] then 0
    else (if ids[0] in m && m[ids[0]].status == Active then 1 else 0) + CountActive(ids[1..], m)
  }

  /** No chat has more than three active alerts. */
  ghost predicate WithinLimit(s: StoreState) {
    forall u :: u in s.byUser ==> CountActive(s.byUser[u], s.byId) <= MaxActivePerUser
  }

  function UserIds(s: StoreState, u: string): seq<string> {
    if u in s.byUser then s.byUser[u] else []
  }

  /** `ids.map((id) => alertsById.get(id)).filter(Boolean)`. */
  function Present(ids: seq<string>, m: map<string, DiningAlert>): (r: seq<DiningAlert>)
    ensures forall a :: a in r <==> exists id :: id in ids && id in m && m[id] == a
  {
    if ids == [] then []
    else
      var rest := Present(ids[1..], m);
      assert forall id :: id in ids <==> id == ids[0] || id in ids[1..];
      (if ids[0] in m then [m[ids[0]]] else []) + rest
  }

  function CreatedKey(): DiningAlert -> real {
    (a: DiningAlert) => -(a.createdAt.ms as real)
  }

  /** `listAlertsByUser`: the chat's alerts, newest first ([] for an unknown chat). */
  function AlertsByUser(s: StoreState, u: string): (r: seq<DiningAlert>)
    ensures u !in s.byUser ==> r == []
  {
    SortBy(Present(UserIds(s, u), s.byId), CreatedKey())
  }

  predicate IsActive(a: DiningAlert) {
    a.status == Active
  }

  function ActiveOnly(): DiningAlert -> bool {
    (a: DiningAlert) => IsActive(a)
  }

  /** `listAllActiveAlerts`: the active alerts in the Map's order. */
  function ActiveAlerts(s: StoreState): (r: seq<DiningAlert>) {
    Filter(Present(s.order, s.byId), ActiveOnly())
  }

  /** Exactly the alerts the chat owns, newest first. */
  lemma AlertsByUserExactly(s: StoreState, u: string)
    requires UsersOwn(s) && AllListed(s)
    ensures forall a :: a in AlertsByUser(s, u) <==> a in s.byId.Values && a.telegramChatId == u
    ensures SortedBy(AlertsByUser(s, u), CreatedKey())
    ensures forall i, j :: 0 <= i < j < |AlertsByUser(s, u)| ==>
              AlertsByUser(s, u)[j].createdAt.ms <= AlertsByUser(s, u)[i].createdAt.ms
  {
    var p := Present(UserIds(s, u), s.byId);
    var r := AlertsByUser(s, u);
    SortByOrdered(p, CreatedKey());
    UserAlertsExactly(s, u);
    forall a ensures a in r <==> a in p {
      assert a in r <==> a in multiset(p);
    }
    forall i, j | 0 <= i < j < |r| ensures r[j].createdAt.ms <= r[i].createdAt.ms {
      assert CreatedKey()(r[i]) <= CreatedKey()(r[j]);
    }
  }

  /** Before sorting: the alerts found for the chat's ids are exactly the chat's alerts. */
  lemma UserAlertsExactly(s: StoreState, u: string)
    requires UsersOwn(s) && AllListed(s)
    ensures forall a :: a in Present(UserIds(s, u), s.byId) <==> a in s.byId.Values && a.telegramChatId == u
  {
    forall a | a in s.byId.Values && a.telegramChatId == u ensures a in Present(UserIds(s, u), s.byId) {
      var id :| id in s.byId && s.byId[id] == a;
      assert id in UserIds(s, u);
    }
  }

  /** Exactly the stored alerts whose status is active. */
  lemma ActiveAlertsExactly(s: StoreState)
    requires OrderMatches(s)
    ensures forall a :: a in ActiveAlerts(s) <==> a in s.byId.Values && a.status == Active
  {
    var p := Present(s.order, s.byId);
    FilterKeeps(p, ActiveOnly());
  }

  /** The active count `createAlert` takes from the sorted list is the count over the chat's ids. */
  lemma {:induction false} PresentActiveCount(ids: seq<string>, m: map<string, DiningAlert>)
    ensures |Filter(Present(ids, m), ActiveOnly())| == CountActive(ids, m)
  {
    if ids != [] {
      PresentActiveCount(ids[1..], m);
      var head := if ids[0] in m then [m[ids[0]]] else [];
      FilterAppend(head, Present(ids[1..], m), ActiveOnly());
    }
  }

  lemma ListedActiveCount(s: StoreState, u: string)
    ensures |Filter(AlertsByUser(s, u), ActiveOnly())| == CountActive(UserIds(s, u), s.byId)
  {
    var p := Present(UserIds(s, u), s.byId);
    FilterLengthPerm(AlertsByUser(s, u), p, ActiveOnly());
    PresentActiveCount(UserIds(s, u), s.byId);
  }

  // ------------------------------------------------------------ createAlert

  function RefOf(r: Restaurant): RestaurantRef {
    RestaurantRef(r.id, r.name, r.slug, r.disneyUrl, r.location)
  }

  /** The alert `createAlert` builds: active, with no checks, finds or triggered dates yet. */
  function NewAlert(id: string, chat: string, r: Restaurant, input: CreateAlertInput, now: Instant): DiningAlert {
    DiningAlert(id, chat, RefOf(r), DateRange(input.startDate, input.endDate), input.partySize,
                input.mealPreference, input.timePreference, chat, Active, now, None, [], 0, 0)
  }

  /** `createAlert` trims the chat id first and works with the trimmed one throughout. */
  function CreateOutcome(s: StoreState, input: CreateAlertInput, rs: seq<Restaurant>,
                         parseDate: string -> Option<int>, now: Instant, id: string): Created
  {
    CreateTrimmed(s, input.(telegramChatId := Trim(input.telegramChatId)), rs, parseDate, now, id)
  }

  /** The checks of `createAlert`, in order, and the alert it builds when all pass. */
  function CreateTrimmed(s: StoreState, input: CreateAlertInput, rs: seq<Restaurant>,
                         parseDate: string -> Option<int>, now: Instant, id: string): Created
  {
    var chat := input.telegramChatId;
    if chat == [] then Rejected(ChatIdRequired)
    else if input.partySize < 2 || input.partySize > 10 then Rejected(PartySizeOutOfRange)
    else if !IsValidDateRange(parseDate(input.startDate), parseDate(input.endDate), now.ms) then Rejected(InvalidDateRange)
    else
      var restaurant := RestaurantBySlug(rs, input.restaurantSlug);
      if restaurant.None? then Rejected(RestaurantNotFound)
      else if |Filter(AlertsByUser(s, chat), ActiveOnly())| >= MaxActivePerUser then Rejected(TooManyActiveAlerts)
      else Created(NewAlert(id, chat, restaurant.value, input, now))
  }

  /**
   * An alert is created exactly when the trimmed chat id is non-empty, the
   * party is 2 to 10, the dates are valid, the restaurant exists and the chat
   * has fewer than three active alerts; it then carries the trimmed chat id
   * as both owner fields, the restaurant of the slug, and fresh counters.
   */
  lemma CreateOutcomeExactly(s: StoreState, input: CreateAlertInput, rs: seq<Restaurant>,
                             parseDate: string -> Option<int>, now: Instant, id: string)
    ensures var r := CreateOutcome(s, input, rs, parseDate, now, id);
            var chat := Trim(input.telegramChatId);
            (r.Created? <==>
               chat != [] && 2 <= input.partySize <= 10
               && IsValidDateRange(parseDate(input.startDate), parseDate(input.endDate), now.ms)
               && (exists x :: x in rs && x.slug == input.restaurantSlug)
               && CountActive(UserIds(s, chat), s.byId) < MaxActivePerUser)
            && (r.Created? ==>
                  r.alert.id == id && r.alert.telegramChatId == chat && r.alert.userId == chat
                  && r.alert.restaurant.slug == input.restaurantSlug
                  && r.alert.status == Active && r.alert.totalChecks == 0 && r.alert.successfulFinds == 0
                  && r.alert.triggeredDates == [] && r.alert.lastChecked == None
                  && r.alert.partySize == input.partySize && r.alert.createdAt == now)
  {
    var trimmed := input.(telegramChatId := Trim(input.telegramChatId));
    CreateTrimmedExactly(s, trimmed, rs, parseDate, now, id);
  }

  /** `CreateOutcomeExactly` for a chat id that is already trimmed. */
  lemma CreateTrimmedExactly(s: StoreState, input: CreateAlertInput, rs: seq<Restaurant>,
                             parseDate: string -> Option<int>, now: Instant, id: string)
    ensures var r := CreateTrimmed(s, input, rs, parseDate, now, id);
            var chat := input.telegramChatId;
            (r.Created? <==>
               chat != [] && 2 <= input.partySize <= 10
               && IsValidDateRange(parseDate(input.startDate), parseDate(input.endDate), now.ms)
               && (exists x :: x in rs && x.slug == input.restaurantSlug)
               && CountActive(UserIds(s, chat), s.byId) < MaxActivePerUser)
            && (r.Created? ==>
                  r.alert.id == id && r.alert.telegramChatId == chat && r.alert.userId == chat
                  && r.alert.restaurant.slug == input.restaurantSlug
                  && r.alert.status == Active && r.alert.totalChecks == 0 && r.alert.successfulFinds == 0
                  && r.alert.triggeredDates == [] && r.alert.lastChecked == None
                  && r.alert.partySize == input.partySize && r.alert.createdAt == now)
  {
    ListedActiveCount(s, input.telegramChatId);
  }

  /** Whitespace around the chat id changes nothing: the id is trimmed first. */
  lemma CreateIgnoresChatPadding(s: StoreState, input: CreateAlertInput, rs: seq<Restaurant>,
                                 parseDate: string -> Option<int>, now: Instant, id: string, a: string, b: string)
    requires AllWhitespace(a) && AllWhitespace(b)
    ensures CreateOutcome(s, input.(telegramChatId := a + input.telegramChatId + b), rs, parseDate, now, id)
         == CreateOutcome(s, input, rs, parseDate, now, id)
  {
    TrimPadding(a, input.telegramChatId, b);
    CreateDependsOnTrim(s, input, a + input.telegramChatId + b, rs, parseDate, now, id);
  }

  lemma CreateDependsOnTrim(s: StoreState, input: CreateAlertInput, chatId: string, rs: seq<Restaurant>,
                            parseDate: string -> Option<int>, now: Instant, id: string)
    requires Trim(chatId) == Trim(input.telegramChatId)
    ensures CreateOutcome(s, input.(telegramChatId := chatId), rs, parseDate, now, id)
         == CreateOutcome(s, input, rs, parseDate, now, id)
  {
    assert input.(telegramChatId := chatId).(telegramChatId := Trim(chatId))
        == input.(telegramChatId := Trim(input.telegramChatId));
  }

  /** The state after a successful create: the alert under its id, last in key order, and its id added to its chat. */
  function Inserted(s: StoreState, a: DiningAlert): StoreState {
    StoreState(s.byId[a.id := a], s.order + [a.id], s.byUser[a.telegramChatId := UserIds(s, a.telegramChatId) + [a.id]])
  }

  lemma InsertedConsistent(s: StoreState, a: DiningAlert)
    requires Consistent(s) && a.id !in s.byId
    ensures Consistent(Inserted(s, a))
  {
    var t := Inserted(s, a);
    var u := a.telegramChatId;
    assert a.id !in UserIds(s, u);
    assert a.id !in s.order;
    forall v | v in t.byUser
      ensures forall id :: id in t.byUser[v] ==> id in t.byId && t.byId[id].telegramChatId == v
    {
      if v != u {
        assert t.byUser[v] == s.byUser[v];
        assert a.id !in s.byUser[v];
      }
    }
  }

  lemma {:induction false} CountActiveAppend(ids: seq<string>, id: string, m: map<string, DiningAlert>)
    ensures CountActive(ids + [id], m) == CountActive(ids, m) + (if id in m && m[id].status == Active then 1 else 0)
  {
    if ids != [] {
      assert (ids + [id])[1..] == ids[1..] + [id];
      CountActiveAppend(ids[1..], id, m);
    } else {
      assert ids + [id] == [id];
    }
  }

  /** Storing an alert under an id outside `ids` leaves their count alone. */
  lemma {:induction false} CountActiveOther(ids: seq<string>, m: map<string, DiningAlert>, id: string, a: DiningAlert)
    requires id !in ids
    ensures CountActive(ids, m[id := a]) == CountActive(ids, m)
  {
    if ids != [] {
      CountActiveOther(ids[1..], m, id, a);
    }
  }

  /** No chat goes over three active alerts when the create was let through with fewer. */
  lemma InsertedWithinLimit(s: StoreState, a: DiningAlert)
    requires Consistent(s) && WithinLimit(s) && a.id !in s.byId
    requires CountActive(UserIds(s, a.telegramChatId), s.byId) < MaxActivePerUser
    ensures WithinLimit(Inserted(s, a))
  {
    var t := Inserted(s, a);
    forall v | v in t.byUser ensures CountActive(t.byUser[v], t.byId) <= MaxActivePerUser {
      if v == a.telegramChatId {
        assert a.id !in UserIds(s, v);
        CountActiveAppend(UserIds(s, v), a.id, t.byId);
        CountActiveOther(UserIds(s, v), s.byId, a.id, a);
      } else {
        assert a.id !in s.byUser[v];
        CountActiveOther(s.byUser[v], s.byId, a.id, a);
      }
    }
  }

  // ------------------------------------------------------------ removeAlert

  function Other(id: string): string -> bool {
    (x: string) => x != id
  }

  /** `removeAlert` succeeds exactly for a known id that the chat owns. */
  predicate CanRemove(s: StoreState, id: string, chat: string) {
    id in s.byId && s.byId[id].telegramChatId == chat
  }

  /** The state after a removal: the id gone from both indexes, and the chat's entry gone once it is empty. */
  function Removed(s: StoreState, id: string, chat: string): StoreState {
    var rest := Filter(UserIds(s, chat), Other(id));
    StoreState(s.byId - {id}, Filter(s.order, Other(id)),
               if chat !in s.byUser then s.byUser
               else if rest == [] then s.byUser - {chat}
               else s.byUser[chat := rest])
  }

  /**
   * After removing an alert its id is nowhere in the store, nothing else is,
   * and the chat keeps an entry exactly when it has other alerts left.
   */
  lemma RemovedExactly(s: StoreState, id: string, chat: string)
    requires UsersOwn(s) && AllListed(s) && CanRemove(s, id, chat)
    ensures var t := Removed(s, id, chat);
            t.byId == s.byId - {id}
            && (forall u :: u in t.byUser ==> id !in t.byUser[u])
            && (forall x :: x in t.order <==> x in s.order && x != id)
            && (chat in t.byUser <==> exists x :: x in s.byUser[chat] && x != id)
            && (forall u :: u != chat ==> (u in t.byUser <==> u in s.byUser))
  {
    var t := Removed(s, id, chat);
    FilterKeeps(s.order, Other(id));
    FilterKeeps(UserIds(s, chat), Other(id));
    var rest := Filter(UserIds(s, chat), Other(id));
    if rest != [] {
      assert rest[0] in rest;
    }
    forall u | u in t.byUser ensures id !in t.byUser[u] {
      if u != chat && id in s.byUser[u] {
        assert false;
      }
    }
  }

  lemma RemovedConsistent(s: StoreState, id: string, chat: string)
    requires Consistent(s) && CanRemove(s, id, chat)
    ensures Consistent(Removed(s, id, chat))
  {
    var t := Removed(s, id, chat);
    var rest := Filter(UserIds(s, chat), Other(id));
    FilterKeeps(s.order, Other(id));
    FilterNoDup(s.order, Other(id));
    FilterKeeps(UserIds(s, chat), Other(id));
    FilterNoDup(UserIds(s, chat), Other(id));
    forall x | x in t.byId ensures t.byId[x].telegramChatId in t.byUser && x in t.byUser[t.byId[x].telegramChatId] {
      var u := s.byId[x].telegramChatId;
      if u == chat {
        assert x in rest;
      }
    }
    forall u | u in t.byUser ensures forall x :: x in t.byUser[u] ==> x in t.byId && t.byId[x].telegramChatId == u {
      if u != chat {
        forall x | x in t.byUser[u] ensures x != id {
          assert s.byId[id].telegramChatId == chat;
        }
      }
    }
  }

  /** Dropping an id and its alert never raises the active count of the ids. */
  lemma {:induction false} CountActiveRemoved(ids: seq<string>, m: map<string, DiningAlert>, id: string)
    ensures CountActive(Filter(ids, Other(id)), m - {id}) <= CountActive(ids, m)
  {
    if ids != [] {
      CountActiveRemoved(ids[1..], m, id);
      var rest := Filter(ids[1..], Other(id));
      if ids[0] != id {
        assert Filter(ids, Other(id)) == [ids[0]] + rest;
        assert ([ids[0]] + rest)[1..] == rest;
        assert (ids[0] in m - {id}) == (ids[0] in m);
        if ids[0] in m {
          assert (m - {id})[ids[0]] == m[ids[0]];
        }
      } else {
        assert Filter(ids, Other(id)) == rest;
      }
    }
  }

  /** Removing an alert on an id outside `ids` leaves their count alone. */
  lemma {:induction false} CountActiveWithout(ids: seq<string>, m: map<string, DiningAlert>, id: string)
    requires id !in ids
    ensures CountActive(ids, m - {id}) == CountActive(ids, m)
  {
    if ids != [] {
      CountActiveWithout(ids[1..], m, id);
    }
  }

  lemma RemovedWithinLimit(s: StoreState, id: string, chat: string)
    requires UsersOwn(s) && WithinLimit(s) && CanRemove(s, id, chat)
    ensures WithinLimit(Removed(s, id, chat))
  {
    var t := Removed(s, id, chat);
    forall u | u in t.byUser ensures CountActive(t.byUser[u], t.byId) <= MaxActivePerUser {
      if u == chat {
        CountActiveRemoved(s.byUser[u], s.byId, id);
      } else {
        assert id !in s.byUser[u];
        CountActiveWithout(s.byUser[u], s.byId, id);
      }
    }
  }

  // ------------------------------------------------------- markAlertChecked

  /** The alert after a check: checked now, one more check, and one more find when slots were found. */
  function Checked(a: DiningAlert, now: Instant, foundSlots: int): DiningAlert {
    a.(lastChecked := Some(now), totalChecks := a.totalChecks + 1,
       successfulFinds := if foundSlots > 0 then a.successfulFinds + 1 else a.successfulFinds)
  }

  /** `markAlertChecked`: an unknown id changes nothing. */
  function MarkChecked(s: StoreState, id: string, now: Instant, foundSlots: int): StoreState {
    if id in s.byId then s.(byId := s.byId[id := Checked(s.byId[id], now, foundSlots)]) else s
  }

  /**
   * A check adds one to the alert's checks, adds one to its finds exactly when
   * slots were found, stamps it, and changes nothing else in the store.
   */
  lemma MarkCheckedExactly(s: StoreState, id: string, now: Instant, foundSlots: int)
    ensures var t := MarkChecked(s, id, now, foundSlots);
            t.order == s.order && t.byUser == s.byUser && t.byId.Keys == s.byId.Keys
            && (forall x :: x in s.byId && x != id ==> t.byId[x] == s.byId[x])
            && (id in s.byId ==>
                 var a, b := s.byId[id], t.byId[id];
                 b.totalChecks == a.totalChecks + 1
                 && (b.successfulFinds == a.successfulFinds + 1 <==> foundSlots > 0)
                 && (b.successfulFinds == a.successfulFinds <==> foundSlots <= 0)
                 && b.lastChecked == Some(now)
                 && b == a.(lastChecked := b.lastChecked, totalChecks := b.totalChecks, successfulFinds := b.successfulFinds))
  {
  }

  /** Replacing an alert by one with the same status leaves every count alone. */
  lemma {:induction false} CountActiveSameStatus(ids: seq<string>, m: map<string, DiningAlert>, id: string, a: DiningAlert)
    requires id in m && m[id].status == a.status
    ensures CountActive(ids, m[id := a]) == CountActive(ids, m)
  {
    if ids != [] {
      CountActiveSameStatus(ids[1..], m, id, a);
    }
  }

  /** A check keeps the store consistent and every chat within its limit. */
  lemma MarkCheckedKeeps(s: StoreState, id: string, now: Instant, foundSlots: int)
    requires Consistent(s) && WithinLimit(s)
    ensures Consistent(MarkChecked(s, id, now, foundSlots)) && WithinLimit(MarkChecked(s, id, now, foundSlots))
  {
    MarkCheckedOwners(s, id, now, foundSlots);
    SameOwnersConsistent(s, MarkChecked(s, id, now, foundSlots));
    MarkCheckedWithinLimit(s, id, now, foundSlots);
  }

  /** A check keeps the key order, the chats' lists, and every alert's id and chat. */
  lemma MarkCheckedOwners(s: StoreState, id: string, now: Instant, foundSlots: int)
    ensures var t := MarkChecked(s, id, now, foundSlots);
            t.order == s.order && t.byUser == s.byUser && t.byId.Keys == s.byId.Keys
            && forall x :: x in s.byId ==>
                 x in t.byId && t.byId[x].id == s.byId[x].id && t.byId[x].telegramChatId == s.byId[x].telegramChatId
  {
  }

  /** Changing alerts in ways that keep their ids and chats keeps the store consistent. */
  lemma SameOwnersConsistent(s: StoreState, t: StoreState)
    requires Consistent(s) && t.order == s.order && t.byUser == s.byUser && t.byId.Keys == s.byId.Keys
    requires forall x :: x in s.byId ==>
               x in t.byId && t.byId[x].id == s.byId[x].id && t.byId[x].telegramChatId == s.byId[x].telegramChatId
    ensures Consistent(t)
  {
  }

  lemma MarkCheckedWithinLimit(s: StoreState, id: string, now: Instant, foundSlots: int)
    requires WithinLimit(s)
    ensures WithinLimit(MarkChecked(s, id, now, foundSlots))
  {
    if id in s.byId {
      var t := MarkChecked(s, id, now, foundSlots);
      forall u | u in t.byUser ensures CountActive(t.byUser[u], t.byId) <= MaxActivePerUser {
        CountActiveSameStatus(s.byUser[u], s.byId, id, Checked(s.byId[id], now, foundSlots));
      }
    }
  }

  // ------------------------------------------------------------ the store

  /** Carries the invariants over to a state known to be equal. */
  lemma SameStateKeeps(s: StoreState, t: StoreState)
    requires Consistent(s) && WithinLimit(s) && t == s
    ensures Consistent(t) && WithinLimit(t)
  {
  }

  /** The process-wide store `getStore` creates on first use. */
  class AlertStore {
    var alertsById: map<string, DiningAlert>
    var idOrder: seq<string>
    var alertsByUser: map<string, seq<string>>

    function State(): StoreState
      reads this
    {
      StoreState(alertsById, idOrder, alertsByUser)
    }

    ghost predicate Valid()
      reads this
    {
      Consistent(State()) && WithinLimit(State())
    }

    /** `getStore` on first use: both indexes empty. */
    constructor ()
      ensures Valid() && State() == EmptyStore
    {
      alertsById := map[];
      idOrder := [];
      alertsByUser := map[];
    }

    /** `listAlertsByUser`. */
    function ListAlertsByUser(telegramChatId: string): (r: seq<DiningAlert>)
      reads this
      requires Valid()
      ensures forall a :: a in r <==> a in alertsById.Values && a.telegramChatId == telegramChatId
    {
      AlertsByUserExactly(State(), telegramChatId);
      AlertsByUser(State(), telegramChatId)
    }

    /** `listAllActiveAlerts`. */
    function ListAllActiveAlerts(): (r: seq<DiningAlert>)
      reads this
      requires Valid()
      ensures forall a :: a in r <==> a in alertsById.Values && a.status == Active
    {
      ActiveAlertsExactly(State());
      ActiveAlerts(State())
    }

    /**
     * `createAlert`. `newId` is what `crypto.randomUUID()` returns, taken to
     * be unused; `now` is the clock. A rejection leaves the store unchanged.
     */
    method CreateAlert(input: CreateAlertInput, rs: seq<Restaurant>, parseDate: string -> Option<int>,
                       now: Instant, newId: string) returns (r: Created)
      requires Valid() && newId !in alertsById
      modifies this
      ensures Valid()
      ensures r == CreateOutcome(old(State()), input, rs, parseDate, now, newId)
      ensures r.Rejected? ==> State() == old(State())
      ensures r.Created? ==> State() == Inserted(old(State()), r.alert)
    {
      var chat := Trim(input.telegramChatId);
      if chat == [] {
        return Rejected(ChatIdRequired);
      }
      if input.partySize < 2 || input.partySize > 10 {
        return Rejected(PartySizeOutOfRange);
      }
      if !IsValidDateRange(parseDate(input.startDate), parseDate(input.endDate), now.ms) {
        return Rejected(InvalidDateRange);
      }
      var restaurant := RestaurantBySlug(rs, input.restaurantSlug);
      if restaurant.None? {
        return Rejected(RestaurantNotFound);
      }
      var existing := Filter(ListAlertsByUser(chat), ActiveOnly());
      if |existing| >= MaxActivePerUser {
        return Rejected(TooManyActiveAlerts);
      }
      var alert := NewAlert(newId, chat, restaurant.value, input, now);
      ListedActiveCount(State(), chat);
      InsertedConsistent(State(), alert);
      InsertedWithinLimit(State(), alert);
      alertsById := alertsById[alert.id := alert];
      idOrder := idOrder + [alert.id];
      var userAlerts := if chat in alertsByUser then alertsByUser[chat] else [];
      userAlerts := userAlerts + [alert.id];
      alertsByUser := alertsByUser[chat := userAlerts];
      SameStateKeeps(Inserted(old(State()), alert), State());
      r := Created(alert);
    }

    /** `removeAlert`: false, with no change, unless the chat owns a stored alert with the id. */
    method RemoveAlert(alertId: string, telegramChatId: string) returns (removed: bool)
      requires Valid()
      modifies this
      ensures Valid()
      ensures removed == CanRemove(old(State()), alertId, telegramChatId)
      ensures State() == if removed then Removed(old(State()), alertId, telegramChatId) else old(State())
    {
      if alertId !in alertsById {
        return false;
      }
      if alertsById[alertId].telegramChatId != telegramChatId {
        return false;
      }
      RemovedConsistent(State(), alertId, telegramChatId);
      RemovedWithinLimit(State(), alertId, telegramChatId);
      alertsById := alertsById - {alertId};
      idOrder := Filter(idOrder, Other(alertId));
      if telegramChatId in alertsByUser {
        var userAlerts := Filter(alertsByUser[telegramChatId], Other(alertId));
        if userAlerts == [] {
          alertsByUser := alertsByUser - {telegramChatId};
        } else {
          alertsByUser := alertsByUser[telegramChatId := userAlerts];
        }
      }
      SameStateKeeps(Removed(old(State()), alertId, telegramChatId), State());
      removed := true;
    }

    /** `markAlertChecked`. */
    method MarkAlertChecked(alertId: string, foundSlots: int, now: Instant)
      requires Valid()
      modifies this
      ensures Valid()
      ensures State() == MarkChecked(old(State()), alertId, now, foundSlots)
    {
      if alertId !in alertsById {
        return;
      }
      MarkCheckedKeeps(State(), alertId, now, foundSlots);
      var alert := Checked(alertsById[alertId], now, foundSlots);
      alertsById := alertsById[alertId := alert];
      SameStateKeeps(MarkChecked(old(State()), alertId, now, foundSlots), State());
    }
  }
}
