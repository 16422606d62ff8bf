/**
 * The dining-availability message (lib/grub-grab/telegram-service.ts):
 * a fixed header, the restaurant, the alert's party and preferences, at most
 * five slots, and the booking link, one per line. Sending it is not modelled.
 */
module TelegramMessage {
  import opened Seqs
  import opened Strings
  import opened GrubTypes

  const MaxSlotLines := 5

  const Header := "\U{1F374} Goofy's Grub Grab Alert!"

  /** `• <date> at <time>`. */
  function SlotLine(slot: AvailableSlot): string {
    "\U{2022} " + slot.date + " at " + slot.time
  }

  function SlotLines(slots: seq<AvailableSlot>): (lines: seq<string>)
    ensures |lines| == |slots|
    ensures forall k :: 0 <= k < |slots| ==> lines[k] == SlotLine(slots[k])
  {
    seq(|slots|, k requires 0 <= k < |slots| => SlotLine(slots[k]))
  }

  function PartyLine(alert: DiningAlert): string {
    "Party of " + IntToString(alert.partySize) + " | " + MealPreferenceText(alert.mealPreference)
    + " | " + TimePreferenceText(alert.timePreference)
  }

  /** The lines of the message, before they are joined. */
  function MessageLines(alert: DiningAlert, slots: seq<AvailableSlot>): seq<string> {
    [Header, alert.restaurant.name + " has availability!", PartyLine(alert), ""]
    + SlotLines(Take(slots, MaxSlotLines))
    + ["", "Book now: " + alert.restaurant.disneyUrl]
  }

  /** `buildAvailabilityMessage`. */
  function BuildAvailabilityMessage(alert: DiningAlert, slots: seq<AvailableSlot>): string {
    Join(MessageLines(alert, slots), "\n")
  }

  /**
   * The header, the restaurant line and the party line come first, then a
   * blank line, one line for each of the first five slots in order, another
   * blank line, and the booking link last.
   */
  lemma MessageLayout(alert: DiningAlert, slots: seq<AvailableSlot>)
    ensures var lines := MessageLines(alert, slots);
            var n := Min(5, |slots|);
            |lines| == n + 6
            && lines[0] == Header
            && lines[1] == alert.restaurant.name + " has availability!"
            && lines[2] == "Party of " + IntToString(alert.partySize) + " | "
                           + MealPreferenceText(alert.mealPreference) + " | "
                           + TimePreferenceText(alert.timePreference)
            && lines[3] == "" && lines[n + 4] == ""
            && lines[n + 5] == "Book now: " + alert.restaurant.disneyUrl
            && forall k :: 0 <= k < n ==> lines[k + 4] == "\U{2022} " + slots[k].date + " at " + slots[k].time
  {
    var n := Min(5, |slots|);
    var top := Take(slots, MaxSlotLines);
    assert |top| == n;
    var lines := MessageLines(alert, slots);
    forall k | 0 <= k < n ensures lines[k + 4] == SlotLine(slots[k]) {
      assert top[k] == slots[k];
    }
  }

  /** Later slots never appear: the message depends only on the first five. */
  lemma MessageUsesFirstFive(alert: DiningAlert, a: seq<AvailableSlot>, b: seq<AvailableSlot>)
    requires Take(a, MaxSlotLines) == Take(b, MaxSlotLines)
    ensures BuildAvailabilityMessage(alert, a) == BuildAvailabilityMessage(alert, b)
  {
  }

  /** No line break inside any field the message quotes. */
  predicate SingleLineFields(alert: DiningAlert, slots: seq<AvailableSlot>) {
    '\n' !in alert.restaurant.name && '\n' !in alert.restaurant.disneyUrl
    && forall k :: 0 <= k < |slots| ==> '\n' !in slots[k].date && '\n' !in slots[k].time
  }

  /** When no quoted field has a line break, splitting the message at line breaks gives its lines back. */
  lemma MessageSplitsIntoLines(alert: DiningAlert, slots: seq<AvailableSlot>)
    requires SingleLineFields(alert, slots)
    ensures Split(BuildAvailabilityMessage(alert, slots), '\n') == MessageLines(alert, slots)
  {
    var lines := MessageLines(alert, slots);
    var n := Min(5, |slots|);
    MessageLayout(alert, slots);
    forall k | 0 <= k < |lines| ensures '\n' !in lines[k] {
      if k == 2 {
        PartyLineSingle(alert);
      } else if 4 <= k < n + 4 {
        SlotLineSingle(slots[k - 4]);
      }
    }
    SplitJoin(lines, '\n');
  }

  lemma PartyLineSingle(alert: DiningAlert)
    ensures '\n' !in PartyLine(alert)
  {
    var digits := IntToString(alert.partySize);
    assert forall c :: c in digits ==> c == '-' || IsDigit(c);
    assert '\n' !in MealPreferenceText(alert.mealPreference);
    assert '\n' !in TimePreferenceText(alert.timePreference);
  }

  lemma SlotLineSingle(slot: AvailableSlot)
    requires '\n' !in slot.date && '\n' !in slot.time
    ensures '\n' !in SlotLine(slot)
  {
  }
}
