/**
 * Virtual-queue drop reminders (components/VirtualQueueReminders.tsx): each
 * queue's "h:mm AM/PM" drop time is read and put on the 24-hour clock, and a
 * queue whose drop is within half an hour either side of the current minute
 * gets an alert text. The clock reading is a parameter; the interval timers
 * and the rendering are not modelled.
 */
module VirtualQueue {
  import opened Wrappers
  import opened Seqs
  import opened Strings

  datatype Queue = Queue(id: string, name: string, park: string, dropTime: string)

  /** The queues the component lists. */
  const VirtualQueues: seq<Queue> := [
    Queue("tron", "TRON Lightcycle / Run", "Magic Kingdom", "7:00 AM"),
    Queue("gotg", "Guardians of the Galaxy: Cosmic Rewind", "EPCOT", "1:00 PM")
  ]

  /** Half an hour, either side of the drop. */
  const AlertWindow := 30

  /** The drop time has a `:`, so `dropMinutesStr` exists (otherwise `split` is called on `undefined`). */
  predicate HasColon(dropTime: string) {
    |Split(dropTime, ':')| >= 2
  }

  datatype DropParts = DropParts(hour: Option<int>, minutes: Option<int>, period: Option<string>)

  /** `dropTime.split(":")`, then `split(" ")` on the second part, and `parseInt` of the numbers. */
  function ParseDropTime(dropTime: string): DropParts
    requires HasColon(dropTime)
  {
    var fields := Split(dropTime, ':');
    var sub := Split(fields[1], ' ');
    DropParts(ParseInt(fields[0]), ParseInt(sub[0]), if |sub| >= 2 then Some(sub[1]) else None)
  }

  /** The 12-hour to 24-hour step: PM adds 12 except at 12, 12 AM is 0. `None` is `NaN`, which stays `NaN`. */
  function To24Hour(hour: Option<int>, period: Option<string>): Option<int> {
    if period == Some("PM") && hour != Some(12) then
      (if hour.Some? then Some(hour.value + 12) else None)
    else if period == Some("AM") && hour == Some(12) then Some(0)
    else hour
  }

  /** The drop's minute of the day less the current one; midnight is not wrapped around. */
  function TimeUntilDrop(dropHour: int, dropMinutes: int, currentHours: int, currentMinutes: int): int {
    (dropHour * 60 + dropMinutes) - (currentHours * 60 + currentMinutes)
  }

  /** The alert text for the minutes until the drop, when within the window. */
  function AlertText(timeUntilDrop: int): Option<string> {
    if -AlertWindow <= timeUntilDrop <= AlertWindow then
      if timeUntilDrop > 0 then Some("DROP IN " + IntToString(timeUntilDrop) + " MIN")
      else if timeUntilDrop == 0 then Some("DROP NOW!")
      else Some("DROPPED")
    else None
  }

  /**
   * One queue's alert at the given time: none when a number read as `NaN`, as
   * every comparison then fails. A drop time without a `:` makes the source
   * throw; the callers below exclude it, and here it gives no alert. An alert
   * is always the text for some offset within the window.
   */
  function QueueAlert(queue: Queue, currentHours: int, currentMinutes: int): (r: Option<string>)
    ensures !HasColon(queue.dropTime) ==> r.None?
    ensures r.Some? ==> exists t :: -AlertWindow <= t <= AlertWindow && AlertText(t) == r
  {
    if !HasColon(queue.dropTime) then None
    else
      var parts := ParseDropTime(queue.dropTime);
      DropAlert(To24Hour(parts.hour, parts.period), parts.minutes, currentHours, currentMinutes)
  }

  /** The alert for a drop read as `hour` and `minutes` on the 24-hour clock. */
  function DropAlert(hour: Option<int>, minutes: Option<int>, currentHours: int, currentMinutes: int): (r: Option<string>)
    ensures r.Some? ==> exists t :: -AlertWindow <= t <= AlertWindow && AlertText(t) == r
  {
    if hour.None? || minutes.None? then None
    else
      var t := TimeUntilDrop(hour.value, minutes.value, currentHours, currentMinutes);
      AlertText(t)
  }

  predicate AllHaveColon(queues: seq<Queue>) {
    forall k :: 0 <= k < |queues| ==> HasColon(queues[k].dropTime)
  }

  /** The queues' alerts under the classification `alert`: a later queue with the same id overwrites. */
  function Alerts(queues: seq<Queue>, alert: Queue -> Option<string>): map<string, string>
    decreases |queues|
  {
    if queues == [] then map[]
    else
      var before := Alerts(queues[..|queues| - 1], alert);
      var last := queues[|queues| - 1];
      match alert(last)
      case None => before
      case Some(text) => before[last.id := text]
  }

  /** The classification at a given hour and minute. */
  function AlertAt(currentHours: int, currentMinutes: int): Queue -> Option<string> {
    (q: Queue) => QueueAlert(q, currentHours, currentMinutes)
  }

  /** `newAlerts` after the queues, in order: each stored text is the alert of a queue with that id. */
  function AlertsOf(queues: seq<Queue>, currentHours: int, currentMinutes: int): (r: map<string, string>)
    ensures forall id :: id in r ==>
              exists i :: 0 <= i < |queues| && queues[i].id == id && QueueAlert(queues[i], currentHours, currentMinutes) == Some(r[id])
  {
    var alert := AlertAt(currentHours, currentMinutes);
    forall id | id in Alerts(queues, alert)
      ensures exists i :: 0 <= i < |queues| && queues[i].id == id && alert(queues[i]) == Some(Alerts(queues, alert)[id])
    {
      AlertsValue(queues, alert, id);
    }
    Alerts(queues, alert)
  }

  /** Every stored text is the alert of a queue with that id. */
  lemma {:induction false} AlertsValue(queues: seq<Queue>, alert: Queue -> Option<string>, id: string)
    requires id in Alerts(queues, alert)
    ensures exists i :: 0 <= i < |queues| && queues[i].id == id && alert(queues[i]) == Some(Alerts(queues, alert)[id])
    decreases |queues|
  {
    var init := queues[..|queues| - 1];
    var last := queues[|queues| - 1];
    if alert(last).Some? && last.id == id {
      assert queues[|queues| - 1] == last;
    } else {
      AlertsValue(init, alert, id);
      var i :| 0 <= i < |init| && init[i].id == id && alert(init[i]) == Some(Alerts(init, alert)[id]);
      assert queues[i] == init[i];
    }
  }

  /** The parsing half of the `forEach` body: the drop on the 24-hour clock, `None` for `NaN`. */
  method ReadDropTime(dropTime: string) returns (dropHour: Option<int>, dropMinutesNum: Option<int>)
    requires HasColon(dropTime)
    ensures var parts := ParseDropTime(dropTime);
            dropHour == To24Hour(parts.hour, parts.period) && dropMinutesNum == parts.minutes
  {
    ghost var parts := ParseDropTime(dropTime);
    var fields := Split(dropTime, ':');
    var sub := Split(fields[1], ' ');
    var dropPeriod: Option<string> := if |sub| >= 2 then Some(sub[1]) else None;
    dropHour := ParseInt(fields[0]);
    dropMinutesNum := ParseInt(sub[0]);
    assert dropHour == parts.hour && dropPeriod == parts.period && dropMinutesNum == parts.minutes;
    ghost var hour := dropHour;
    if dropPeriod == Some("PM") && dropHour != Some(12) {
      dropHour := if dropHour.Some? then Some(dropHour.value + 12) else None;
    } else if dropPeriod == Some("AM") && dropHour == Some(12) {
      dropHour := Some(0);
    }
    assert dropHour == To24Hour(hour, dropPeriod);
  }

  /** The body of the `forEach` for one queue: the text it stores, if any. */
  method ClassifyQueue(queue: Queue, currentHours: int, currentMinutes: int) returns (text: Option<string>)
    requires HasColon(queue.dropTime)
    ensures text == QueueAlert(queue, currentHours, currentMinutes)
  {
    var dropHour, dropMinutesNum := ReadDropTime(queue.dropTime);
    assert QueueAlert(queue, currentHours, currentMinutes) == DropAlert(dropHour, dropMinutesNum, currentHours, currentMinutes);
    text := None;
    if dropHour.Some? && dropMinutesNum.Some? {
      var timeUntilDrop := TimeUntilDrop(dropHour.value, dropMinutesNum.value, currentHours, currentMinutes);
      if -AlertWindow <= timeUntilDrop <= AlertWindow {
        if timeUntilDrop > 0 {
          text := Some("DROP IN " + IntToString(timeUntilDrop) + " MIN");
        } else if timeUntilDrop == 0 {
          text := Some("DROP NOW!");
        } else {
          text := Some("DROPPED");
        }
      }
    }
  }

  /** The classification inside `checkAlerts`, with the current hour and minute passed in. */
  method CheckAlerts(queues: seq<Queue>, currentHours: int, currentMinutes: int) returns (newAlerts: map<string, string>)
    requires AllHaveColon(queues)
    ensures newAlerts == AlertsOf(queues, currentHours, currentMinutes)
  {
    newAlerts := map[];
    for i := 0 to |queues|
      invariant newAlerts == Alerts(queues[..i], AlertAt(currentHours, currentMinutes))
    {
      assert queues[..i + 1][..i] == queues[..i];
      var queue := queues[i];
      var text := ClassifyQueue(queue, currentHours, currentMinutes);
      if text.Some? {
        newAlerts := newAlerts[queue.id := text.value];
      }
    }
    assert queues[..|queues|] == queues;
  }

  /** PM hours other than 12 move up by 12, 12 AM becomes 0, and every other hour is kept. */
  lemma To24HourCases(hour: int, period: Option<string>)
    ensures period == Some("PM") && hour != 12 ==> To24Hour(Some(hour), period) == Some(hour + 12)
    ensures period == Some("AM") && hour == 12 ==> To24Hour(Some(hour), period) == Some(0)
    ensures (!(period == Some("PM") && hour != 12) && !(period == Some("AM") && hour == 12))
            ==> To24Hour(Some(hour), period) == Some(hour)
  {
  }

  /** On the clock face 1..12, AM and PM give each of the hours 0..23 exactly once. */
  lemma To24HourIsClock(h1: int, p1: string, h2: int, p2: string)
    requires 1 <= h1 <= 12 && 1 <= h2 <= 12
    requires (p1 == "AM" || p1 == "PM") && (p2 == "AM" || p2 == "PM")
    ensures var a := To24Hour(Some(h1), Some(p1));
            var b := To24Hour(Some(h2), Some(p2));
            a.Some? && 0 <= a.value <= 23 && (p1 == "AM" <==> a.value < 12)
            && (a == b ==> h1 == h2 && p1 == p2)
  {
    if p1 != p2 {
      assert ("AM" == p1) != ("AM" == p2);
    }
  }

  /** An alert is raised exactly within half an hour either side of the drop. */
  lemma AlertTextWindow(t: int)
    ensures AlertText(t).Some? <==> -30 <= t <= 30
    ensures 0 < t <= 30 ==> AlertText(t) == Some("DROP IN " + IntToString(t) + " MIN")
    ensures t == 0 ==> AlertText(t) == Some("DROP NOW!")
    ensures -30 <= t < 0 ==> AlertText(t) == Some("DROPPED")
  {
  }

  /** A drop time of the form "h:mm period" splits at the colon and then at the space. */
  lemma SplitDropTime(h: string, m: string, period: string)
    requires ':' !in h && ':' !in m && ' ' !in m && ':' !in period && ' ' !in period
    ensures Split(h + ":" + m + " " + period, ':') == [h, m + " " + period]
    ensures Split(m + " " + period, ' ') == [m, period]
  {
    var tail := m + " " + period;
    assert h + ":" + m + " " + period == h + [':'] + tail;
    assert ':' !in tail;
    SplitAt(h, ':', tail);
    SplitWithout(tail, ':');
    assert tail == m + [' '] + period;
    SplitAt(m, ' ', period);
    SplitWithout(period, ' ');
  }

  /** A drop time of the form "h:mm period" reads as those numbers and that period. */
  lemma ParseWellFormed(t: string, h: string, m: string, period: string)
    requires t == h + ":" + m + " " + period
    requires h != [] && forall i :: 0 <= i < |h| ==> IsDigit(h[i])
    requires m != [] && forall i :: 0 <= i < |m| ==> IsDigit(m[i])
    requires ':' !in period && ' ' !in period
    ensures HasColon(t)
    ensures ParseDropTime(t) == DropParts(Some(DigitsValue(h)), Some(DigitsValue(m)), Some(period))
  {
    assert ':' !in h && ':' !in m && ' ' !in m;
    SplitDropTime(h, m, period);
    assert Split(t, ':') == [h, m + " " + period];
    assert Split(Split(t, ':')[1], ' ') == [m, period];
    ParseDigits(h);
    ParseDigits(m);
  }

  lemma ParseDigits(s: string)
    requires s != [] && forall i :: 0 <= i < |s| ==> IsDigit(s[i])
    ensures ParseInt(s) == Some(DigitsValue(s))
  {
    ParseIntDigits(s, []);
    assert s + [] == s;
  }

  lemma DigitValues()
    ensures DigitsValue("7") == 7 && DigitsValue("1") == 1 && DigitsValue("00") == 0
  {
    assert "00"[..1] == "0";
  }

  lemma SevenAM()
    ensures HasColon("7:00 AM") && ParseDropTime("7:00 AM") == DropParts(Some(7), Some(0), Some("AM"))
  {
    DigitValues();
    ParseWellFormed("7:00 AM", "7", "00", "AM");
  }

  lemma OnePM()
    ensures HasColon("1:00 PM") && ParseDropTime("1:00 PM") == DropParts(Some(1), Some(0), Some("PM"))
  {
    DigitValues();
    ParseWellFormed("1:00 PM", "1", "00", "PM");
  }

  /** The two listed drops are at 7:00 and 13:00. */
  lemma ListedDropTimes()
    ensures AllHaveColon(VirtualQueues)
    ensures ParseDropTime(VirtualQueues[0].dropTime) == DropParts(Some(7), Some(0), Some("AM"))
    ensures ParseDropTime(VirtualQueues[1].dropTime) == DropParts(Some(1), Some(0), Some("PM"))
  {
    assert VirtualQueues[0].dropTime == "7:00 AM" && VirtualQueues[1].dropTime == "1:00 PM";
    SevenAM();
    OnePM();
    forall k | 0 <= k < |VirtualQueues| ensures HasColon(VirtualQueues[k].dropTime) {
      if k == 0 {
      } else {
      }
    }
  }

  /** A queue has an alert exactly when one of its entries is classified with one. */
  lemma {:induction false} AlertsKeys(queues: seq<Queue>, alert: Queue -> Option<string>, id: string)
    ensures id in Alerts(queues, alert) <==>
              exists i :: 0 <= i < |queues| && queues[i].id == id && alert(queues[i]).Some?
    decreases |queues|
  {
    if queues != [] {
      var init := queues[..|queues| - 1];
      AlertsKeys(init, alert, id);
      if exists i :: 0 <= i < |init| && init[i].id == id && alert(init[i]).Some? {
        var i :| 0 <= i < |init| && init[i].id == id && alert(init[i]).Some?;
        assert queues[i] == init[i];
      }
      if exists i :: 0 <= i < |queues| && queues[i].id == id && alert(queues[i]).Some? {
        var i :| 0 <= i < |queues| && queues[i].id == id && alert(queues[i]).Some?;
        if i < |init| {
          assert init[i] == queues[i];
        }
      }
    }
  }

  /** With distinct ids, each queue's entry is its own alert text. */
  lemma {:induction false} AlertsDistinct(queues: seq<Queue>, alert: Queue -> Option<string>, k: int)
    requires forall i, j :: 0 <= i < j < |queues| ==> queues[i].id != queues[j].id
    requires 0 <= k < |queues| && alert(queues[k]).Some?
    ensures queues[k].id in Alerts(queues, alert)
    ensures Alerts(queues, alert)[queues[k].id] == alert(queues[k]).value
    decreases |queues|
  {
    if k < |queues| - 1 {
      var init := queues[..|queues| - 1];
      assert init[k] == queues[k];
      AlertsDistinct(init, alert, k);
    }
  }

  /** A queue id has an alert exactly when some queue with that id is within its window. */
  lemma AlertsOfKeys(queues: seq<Queue>, currentHours: int, currentMinutes: int, id: string)
    ensures id in AlertsOf(queues, currentHours, currentMinutes) <==>
              exists i :: 0 <= i < |queues| && queues[i].id == id && QueueAlert(queues[i], currentHours, currentMinutes).Some?
  {
    var alert := AlertAt(currentHours, currentMinutes);
    AlertsKeys(queues, alert, id);
    assert forall i :: 0 <= i < |queues| ==> alert(queues[i]) == QueueAlert(queues[i], currentHours, currentMinutes);
  }

  /** With distinct ids, a queue within its window is stored under its id with its own text. */
  lemma AlertsOfDistinct(queues: seq<Queue>, currentHours: int, currentMinutes: int, k: int)
    requires forall i, j :: 0 <= i < j < |queues| ==> queues[i].id != queues[j].id
    requires 0 <= k < |queues| && QueueAlert(queues[k], currentHours, currentMinutes).Some?
    ensures queues[k].id in AlertsOf(queues, currentHours, currentMinutes)
    ensures AlertsOf(queues, currentHours, currentMinutes)[queues[k].id]
            == QueueAlert(queues[k], currentHours, currentMinutes).value
  {
    var alert := AlertAt(currentHours, currentMinutes);
    assert alert(queues[k]) == QueueAlert(queues[k], currentHours, currentMinutes);
    AlertsDistinct(queues, alert, k);
  }

  lemma FifteenText()
    ensures AlertText(15) == Some("DROP IN 15 MIN")
  {
    assert NatToString(15) == NatToString(1) + [DigitChar(5)];
    assert IntToString(15) == "15";
    assert "DROP IN " + "15" + " MIN" == "DROP IN 15 MIN";
  }

  /** The alert of a queue whose drop time reads as `hour:minutes period`. */
  lemma QueueAlertOfParts(queue: Queue, currentHours: int, currentMinutes: int, hour: int, minutes: int, period: string)
    requires HasColon(queue.dropTime)
    requires ParseDropTime(queue.dropTime) == DropParts(Some(hour), Some(minutes), Some(period))
    ensures QueueAlert(queue, currentHours, currentMinutes)
            == AlertText(TimeUntilDrop(To24Hour(Some(hour), Some(period)).value, minutes, currentHours, currentMinutes))
  {
  }

  /** 6:45 puts TRON 15 minutes before its drop; 13:10 puts Guardians 10 minutes past its drop. */
  lemma ListedQueueAlerts()
    ensures QueueAlert(VirtualQueues[0], 6, 45) == Some("DROP IN 15 MIN")
    ensures QueueAlert(VirtualQueues[1], 6, 45).None?
    ensures QueueAlert(VirtualQueues[1], 13, 10) == Some("DROPPED")
  {
    ListedDropTimes();
    var tron, gotg := VirtualQueues[0], VirtualQueues[1];
    QueueAlertOfParts(tron, 6, 45, 7, 0, "AM");
    assert To24Hour(Some(7), Some("AM")) == Some(7);
    assert TimeUntilDrop(7, 0, 6, 45) == 15;
    FifteenText();
    QueueAlertOfParts(gotg, 6, 45, 1, 0, "PM");
    QueueAlertOfParts(gotg, 13, 10, 1, 0, "PM");
    assert To24Hour(Some(1), Some("PM")) == Some(13);
    assert TimeUntilDrop(13, 0, 6, 45) == 375;
    assert TimeUntilDrop(13, 0, 13, 10) == -10;
  }

  /** `currentPark ? virtualQueues.filter(q => q.park === currentPark) : virtualQueues`. */
  function RelevantQueues(queues: seq<Queue>, currentPark: Option<string>): (r: seq<Queue>)
    ensures |r| <= |queues|
    ensures forall q :: q in r ==> q in queues && (currentPark.Some? && currentPark.value != "" ==> q.park == currentPark.value)
  {
    if currentPark.Some? && currentPark.value != "" then Filter(queues, (q: Queue) => q.park == currentPark.value)
    else queues
  }

  /** With a park chosen, exactly its queues are shown; with none, all are. */
  lemma RelevantQueuesFilter(queues: seq<Queue>, currentPark: Option<string>)
    ensures currentPark.Some? && currentPark.value != "" ==>
              forall q :: q in RelevantQueues(queues, currentPark) <==> q in queues && q.park == currentPark.value
    ensures currentPark.None? || currentPark == Some("") ==> RelevantQueues(queues, currentPark) == queues
  {
    if currentPark.Some? && currentPark.value != "" {
      FilterKeeps(queues, (q: Queue) => q.park == currentPark.value);
    }
  }
}
