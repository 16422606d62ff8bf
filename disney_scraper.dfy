/**
 * The availability simulation for dining alerts (lib/grub-grab/disney-scraper.ts):
 * the time and meal preference checks, the per-day deterministic slot pick,
 * and the day-by-day availability scan. Days are integers; the date text a
 * day prints as (`toISOString().slice(0, 10)`) is the parameter `dateText`.
 */
module DisneyScraper {
  import opened Seqs
  import opened Strings
  import opened GrubTypes

  /** `matchesTimePreference`. */
  predicate MatchesTimePreference(hour24: int, preference: TimePreference) {
    match preference
    case AnyTime => true
    case Morning => hour24 < 12
    case Afternoon => hour24 >= 12 && hour24 < 17
    case Evening => hour24 >= 17
  }

  /** `matchesMealPreference`. */
  predicate MatchesMealPreference(hour24: int, preference: MealPreference) {
    match preference
    case AnyMeal => true
    case OnlyMeal(Breakfast) => hour24 < 11
    case OnlyMeal(Lunch) => hour24 >= 11 && hour24 < 17
    case OnlyMeal(Dinner) => hour24 >= 17
  }

  /** Every hour falls in exactly one of morning, afternoon and evening; `any` takes all. */
  lemma TimePreferencesPartition(hour24: int)
    ensures MatchesTimePreference(hour24, AnyTime)
    ensures MatchesTimePreference(hour24, Morning) <==> hour24 < 12
    ensures MatchesTimePreference(hour24, Afternoon) <==> 12 <= hour24 < 17
    ensures MatchesTimePreference(hour24, Evening) <==> 17 <= hour24
    ensures (if MatchesTimePreference(hour24, Morning) then 1 else 0)
            + (if MatchesTimePreference(hour24, Afternoon) then 1 else 0)
            + (if MatchesTimePreference(hour24, Evening) then 1 else 0) == 1
  {
  }

  /** Every hour falls in exactly one of breakfast, lunch and dinner; `any` takes all. */
  lemma MealPreferencesPartition(hour24: int)
    ensures MatchesMealPreference(hour24, AnyMeal)
    ensures MatchesMealPreference(hour24, OnlyMeal(Breakfast)) <==> hour24 < 11
    ensures MatchesMealPreference(hour24, OnlyMeal(Lunch)) <==> 11 <= hour24 < 17
    ensures MatchesMealPreference(hour24, OnlyMeal(Dinner)) <==> 17 <= hour24
    ensures (if MatchesMealPreference(hour24, OnlyMeal(Breakfast)) then 1 else 0)
            + (if MatchesMealPreference(hour24, OnlyMeal(Lunch)) then 1 else 0)
            + (if MatchesMealPreference(hour24, OnlyMeal(Dinner)) then 1 else 0) == 1
  {
  }

  datatype SlotCandidate = SlotCandidate(time: string, hour24: int)

  /** The eight base slots of a day. */
  const BaseSlots: seq<SlotCandidate> := [
    SlotCandidate("8:15 AM", 8),
    SlotCandidate("9:40 AM", 9),
    SlotCandidate("11:30 AM", 11),
    SlotCandidate("1:05 PM", 13),
    SlotCandidate("2:45 PM", 14),
    SlotCandidate("5:15 PM", 17),
    SlotCandidate("6:40 PM", 18),
    SlotCandidate("8:10 PM", 20)
  ]

  /** The sum of the character codes of the seed. */
  function SeedHash(seed: string): nat
    decreases |seed|
  {
    if seed == [] then 0 else SeedHash(seed[..|seed| - 1]) + seed[|seed| - 1] as nat
  }

  /** `base.filter((_, idx) => (idx + hash) % 3 === 0)` from index `i` on. */
  function SlotsFrom(base: seq<SlotCandidate>, i: nat, hash: nat): seq<SlotCandidate>
    requires i <= |base|
    decreases |base| - i
  {
    if i == |base| then []
    else (if (i + hash) % 3 == 0 then [base[i]] else []) + SlotsFrom(base, i + 1, hash)
  }

  /** `buildDeterministicSlots`. */
  function BuildDeterministicSlots(seed: string): seq<SlotCandidate> {
    SlotsFrom(BaseSlots, 0, SeedHash(seed))
  }

  /** Only the hash modulo 3 matters. */
  lemma {:induction false} SlotsFromMod(base: seq<SlotCandidate>, i: nat, hash: nat)
    requires i <= |base|
    ensures SlotsFrom(base, i, hash) == SlotsFrom(base, i, hash % 3)
    decreases |base| - i
  {
    if i < |base| {
      SlotsFromMod(base, i + 1, hash);
      var r, q := hash % 3, hash / 3;
      assert i + hash == (i + r) + 3 * q;
      ModThree(i + r, q);
      assert (i + hash) % 3 == (i + r) % 3;
    }
  }

  /** Adding a multiple of 3 keeps the remainder. */
  lemma {:induction false} ModThree(x: nat, q: nat)
    ensures (x + 3 * q) % 3 == x % 3
  {
    if q > 0 {
      ModThree(x, q - 1);
      assert x + 3 * q == (x + 3 * (q - 1)) + 3;
    }
  }

  lemma SlotsOfResidue0()
    ensures SlotsFrom(BaseSlots, 0, 0) == [BaseSlots[0], BaseSlots[3], BaseSlots[6]]
  {
    assert SlotsFrom(BaseSlots, 6, 0) == [BaseSlots[6]];
    assert SlotsFrom(BaseSlots, 3, 0) == [BaseSlots[3], BaseSlots[6]];
  }

  lemma SlotsOfResidue1()
    ensures SlotsFrom(BaseSlots, 0, 1) == [BaseSlots[2], BaseSlots[5]]
  {
    assert SlotsFrom(BaseSlots, 5, 1) == [BaseSlots[5]];
    assert SlotsFrom(BaseSlots, 2, 1) == [BaseSlots[2], BaseSlots[5]];
  }

  lemma SlotsOfResidue2()
    ensures SlotsFrom(BaseSlots, 0, 2) == [BaseSlots[1], BaseSlots[4], BaseSlots[7]]
  {
    assert SlotsFrom(BaseSlots, 7, 2) == [BaseSlots[7]];
    assert SlotsFrom(BaseSlots, 4, 2) == [BaseSlots[4], BaseSlots[7]];
  }

  /**
   * The slots kept are the base slots whose index is congruent to minus the
   * hash modulo 3, in base order: three, two or three of them.
   */
  lemma DeterministicSlotsExactly(seed: string)
    ensures var h := SeedHash(seed);
            BuildDeterministicSlots(seed)
            == if h % 3 == 0 then [BaseSlots[0], BaseSlots[3], BaseSlots[6]]
               else if h % 3 == 2 then [BaseSlots[1], BaseSlots[4], BaseSlots[7]]
               else [BaseSlots[2], BaseSlots[5]]
  {
    var h := SeedHash(seed);
    SlotsFromMod(BaseSlots, 0, h);
    if h % 3 == 0 {
      SlotsOfResidue0();
    } else if h % 3 == 1 {
      SlotsOfResidue1();
    } else {
      SlotsOfResidue2();
    }
  }

  /** A day's seed: `${slug}-${date}-${partySize}`. */
  function DaySeed(alert: DiningAlert, date: string): string {
    alert.restaurant.slug + "-" + date + "-" + IntToString(alert.partySize)
  }

  /** A candidate passes when both the meal and the time preference accept its hour. */
  predicate Wanted(alert: DiningAlert, c: SlotCandidate) {
    MatchesMealPreference(c.hour24, alert.mealPreference) && MatchesTimePreference(c.hour24, alert.timePreference)
  }

  /** The slots one day's candidates give, in candidate order. */
  function SlotsOf(alert: DiningAlert, date: string, cs: seq<SlotCandidate>): seq<AvailableSlot>
    decreases |cs|
  {
    if cs == [] then []
    else
      SlotsOf(alert, date, cs[..|cs| - 1])
      + (if Wanted(alert, cs[|cs| - 1]) then [AvailableSlot(date, cs[|cs| - 1].time, alert.restaurant.disneyUrl)] else [])
  }

  /** The slots of one day. */
  function DaySlots(alert: DiningAlert, dateText: int -> string, day: int): seq<AvailableSlot> {
    SlotsOf(alert, dateText(day), BuildDeterministicSlots(DaySeed(alert, dateText(day))))
  }

  /** The slots of the days `first` through `last`, day by day, for any way of finding a day's slots. */
  function Days(day: int -> seq<AvailableSlot>, first: int, last: int): seq<AvailableSlot>
    decreases last - first
  {
    if last < first then [] else Days(day, first, last - 1) + day(last)
  }

  function DaySlotsOf(alert: DiningAlert, dateText: int -> string): int -> seq<AvailableSlot> {
    (d: int) => DaySlots(alert, dateText, d)
  }

  /** The slots of the days `first` through `last`. */
  function Availability(alert: DiningAlert, dateText: int -> string, first: int, last: int): seq<AvailableSlot> {
    Days(DaySlotsOf(alert, dateText), first, last)
  }

  /** The first day's slots come first. */
  lemma {:induction false} DaysFromStart(day: int -> seq<AvailableSlot>, start: int, end: int)
    requires start <= end
    ensures Days(day, start, end) == day(start) + Days(day, start + 1, end)
    decreases end - start
  {
    if start < end {
      DaysFromStart(day, start, end - 1);
    }
  }

  /** The inner `for`: push each wanted candidate, skip the rest. */
  method CollectDay(alert: DiningAlert, date: string, candidates: seq<SlotCandidate>, slots: seq<AvailableSlot>)
    returns (slots': seq<AvailableSlot>)
    ensures slots' == slots + SlotsOf(alert, date, candidates)
  {
    slots' := slots;
    var i := 0;
    while i < |candidates|
      invariant 0 <= i <= |candidates|
      invariant slots' == slots + SlotsOf(alert, date, candidates[..i])
    {
      var candidate := candidates[i];
      assert candidates[..i + 1][..i] == candidates[..i];
      if !MatchesMealPreference(candidate.hour24, alert.mealPreference) {
        i := i + 1;
        continue;
      }
      if !MatchesTimePreference(candidate.hour24, alert.timePreference) {
        i := i + 1;
        continue;
      }
      slots' := slots' + [AvailableSlot(date, candidate.time, alert.restaurant.disneyUrl)];
      i := i + 1;
    }
    assert candidates[..|candidates|] == candidates;
  }

  /**
   * `checkRestaurantAvailability` over the days `start` through `end`: every
   * day's slots, day after day.
   */
  method CheckRestaurantAvailability(alert: DiningAlert, dateText: int -> string, start: int, end: int)
    returns (slots: seq<AvailableSlot>)
    ensures slots == Availability(alert, dateText, start, end)
  {
    slots := [];
    var d := start;
    while d <= end
      invariant d == start || start < d <= end + 1
      invariant slots == Availability(alert, dateText, start, d - 1)
      decreases end - d
    {
      var date := dateText(d);
      var daySeed := DaySeed(alert, date);
      var candidates := BuildDeterministicSlots(daySeed);
      slots := CollectDay(alert, date, candidates, slots);
      d := d + 1;
    }
  }

  /** No days, no slots: a start after the end gives nothing. */
  lemma AvailabilityWhenReversed(alert: DiningAlert, dateText: int -> string, start: int, end: int)
    requires start > end
    ensures Availability(alert, dateText, start, end) == []
  {
  }

  /** The days are taken from the start, inclusively: the first day's slots come first. */
  lemma AvailabilityFromStart(alert: DiningAlert, dateText: int -> string, start: int, end: int)
    requires start <= end
    ensures Availability(alert, dateText, start, end)
            == DaySlots(alert, dateText, start) + Availability(alert, dateText, start + 1, end)
  {
    DaysFromStart(DaySlotsOf(alert, dateText), start, end);
  }

  /** Each slot of a day is a wanted candidate's time, booked at the restaurant's page. */
  lemma {:induction false} SlotsOfWanted(alert: DiningAlert, date: string, cs: seq<SlotCandidate>)
    ensures forall s :: s in SlotsOf(alert, date, cs) ==>
              s.date == date && s.bookingUrl == alert.restaurant.disneyUrl
              && exists c :: c in cs && c.time == s.time && Wanted(alert, c)
    decreases |cs|
  {
    if cs != [] {
      SlotsOfWanted(alert, date, cs[..|cs| - 1]);
      assert forall c :: c in cs[..|cs| - 1] ==> c in cs;
    }
  }

  /** Each wanted candidate of a day gives its slot. */
  lemma {:induction false} SlotsOfComplete(alert: DiningAlert, date: string, cs: seq<SlotCandidate>)
    ensures forall c :: c in cs && Wanted(alert, c) ==>
              AvailableSlot(date, c.time, alert.restaurant.disneyUrl) in SlotsOf(alert, date, cs)
    decreases |cs|
  {
    if cs != [] {
      var init := cs[..|cs| - 1];
      SlotsOfComplete(alert, date, init);
      forall c | c in cs && Wanted(alert, c)
        ensures AvailableSlot(date, c.time, alert.restaurant.disneyUrl) in SlotsOf(alert, date, cs)
      {
        if c != cs[|cs| - 1] {
          var k :| 0 <= k < |cs| && cs[k] == c;
          assert init[k] == c;
        }
      }
    }
  }

  /** Each wanted candidate of each day scanned gives its slot. */
  lemma {:induction false} AvailabilityComplete(alert: DiningAlert, dateText: int -> string, start: int, end: int,
                                                d: int, c: SlotCandidate)
    requires start <= d <= end && Wanted(alert, c)
    requires c in BuildDeterministicSlots(DaySeed(alert, dateText(d)))
    ensures AvailableSlot(dateText(d), c.time, alert.restaurant.disneyUrl) in Availability(alert, dateText, start, end)
    decreases end - start
  {
    var slot := AvailableSlot(dateText(d), c.time, alert.restaurant.disneyUrl);
    var earlier := Availability(alert, dateText, start, end - 1);
    var last := DaySlots(alert, dateText, end);
    assert Availability(alert, dateText, start, end) == earlier + last;
    if d < end {
      AvailabilityComplete(alert, dateText, start, end - 1, d, c);
      assert slot in earlier;
    } else {
      SlotsOfComplete(alert, dateText(d), BuildDeterministicSlots(DaySeed(alert, dateText(d))));
      assert slot in last;
    }
  }

  /** Every slot passes both preference checks and links to the restaurant's booking page. */
  lemma {:induction false} AvailabilitySlotsWanted(alert: DiningAlert, dateText: int -> string, start: int, end: int)
    ensures forall s :: s in Availability(alert, dateText, start, end) ==>
              s.bookingUrl == alert.restaurant.disneyUrl
              && exists c :: c in BaseSlots && c.time == s.time && Wanted(alert, c)
    decreases end - start
  {
    if start <= end {
      AvailabilitySlotsWanted(alert, dateText, start, end - 1);
      var date := dateText(end);
      var cs := BuildDeterministicSlots(DaySeed(alert, date));
      SlotsOfWanted(alert, date, cs);
      DeterministicSlotsExactly(DaySeed(alert, date));
    }
  }

  /** Every slot is dated with one of the days scanned. */
  lemma {:induction false} AvailabilityDates(alert: DiningAlert, dateText: int -> string, start: int, end: int)
    ensures forall s :: s in Availability(alert, dateText, start, end) ==>
              exists d :: start <= d <= end && s.date == dateText(d)
    decreases end - start
  {
    if start <= end {
      AvailabilityDates(alert, dateText, start, end - 1);
      var date := dateText(end);
      SlotsOfWanted(alert, date, BuildDeterministicSlots(DaySeed(alert, date)));
    }
  }
}
