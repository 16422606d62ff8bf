/**
 * Crowd data for the park cards (lib/dashboard/crowdsToUI.ts): always the
 * four parks in one fixed order, a placeholder for a park with no data, and
 * the level-change and meter-class helpers behind the crowd meter animation.
 */
module CrowdsToUI {
  import opened Wrappers
  import opened Strings
  import opened DashboardSchema

  /** A park card: the snapshot with the stagger delay added (`isAnimating` is never set here). */
  datatype UIParkSnapshot = UIParkSnapshot(snapshot: ParkSnapshot, animationDelay: int)

  datatype UIDisplayData = UIDisplayData(parks: seq<UIParkSnapshot>, lastUpdated: string)

  /** `parkOrder`. */
  const ParkOrder: seq<ParkId> := [MagicKingdom, Epcot, HollywoodStudios, AnimalKingdom]

  /** Milliseconds between two cards' animations. */
  const StaggerMs := 50

  /**
   * `parksMap.get(id)` for `parksMap = new Map(parks.map(p => [p.id, p]))`:
   * a later snapshot with the same id overwrites an earlier one.
   */
  function SnapshotById(parks: seq<ParkSnapshot>, id: ParkId): (r: Option<ParkSnapshot>)
    ensures r.Some? ==> r.value in parks && r.value.id == id
    ensures r.None? <==> forall p :: p in parks ==> p.id != id
    decreases |parks|
  {
    if parks == [] then None
    else if parks[|parks| - 1].id == id then Some(parks[|parks| - 1])
    else SnapshotById(parks[..|parks| - 1], id)
  }

  /** The snapshot found is the last one with that id. */
  lemma {:induction false} SnapshotByIdIsLast(parks: seq<ParkSnapshot>, id: ParkId)
    ensures SnapshotById(parks, id).Some? ==>
              exists i :: 0 <= i < |parks| && parks[i] == SnapshotById(parks, id).value
                && forall j :: i < j < |parks| ==> parks[j].id != id
    decreases |parks|
  {
    if parks != [] && parks[|parks| - 1].id != id {
      var init := parks[..|parks| - 1];
      SnapshotByIdIsLast(init, id);
      if SnapshotById(init, id).Some? {
        var i :| 0 <= i < |init| && init[i] == SnapshotById(init, id).value
                 && forall j :: i < j < |init| ==> init[j].id != id;
        assert parks[i] == init[i];
        forall j | i < j < |parks| ensures parks[j].id != id {
          if j < |init| {
            assert parks[j] == init[j];
          }
        }
      }
    }
  }

  /** `word.charAt(0).toUpperCase() + word.slice(1)`. */
  function Capitalize(word: string): (r: string)
    ensures |r| == |word|
    ensures word != [] ==> r[0] == UpperChar(word[0]) && r[1..] == word[1..]
  {
    if word == [] then "" else [UpperChar(word[0])] + word[1..]
  }

  function CapitalizeAll(words: seq<string>): (r: seq<string>)
    ensures |r| == |words|
    ensures forall k :: 0 <= k < |words| ==> r[k] == Capitalize(words[k])
  {
    seq(|words|, k requires 0 <= k < |words| => Capitalize(words[k]))
  }

  /** The placeholder name: the hyphen-separated words of the id, each capitalised, joined by spaces. */
  function TitleCase(id: string): string {
    Join(CapitalizeAll(Split(id, '-')), " ")
  }

  /** The card of a park with no data. */
  function Fallback(id: ParkId): (p: ParkSnapshot)
    ensures p.id == id && p.name == TitleCase(ParkIdText(id)) && p.shortName == p.name
  {
    var name := TitleCase(ParkIdText(id));
    ParkSnapshot(id, name, name, Low, 1, "Unknown", "No data available", "gray", Closed)
  }

  /** The card at position `index` of `parkOrder`. */
  function CardFor(parks: seq<ParkSnapshot>, id: ParkId, index: int): UIParkSnapshot {
    match SnapshotById(parks, id)
    case None => UIParkSnapshot(Fallback(id), index * StaggerMs)
    case Some(p) => UIParkSnapshot(p, index * StaggerMs)
  }

  /** `crowdsToUI`. */
  function CrowdsToUIData(parks: seq<ParkSnapshot>, lastUpdated: string): (r: UIDisplayData)
    ensures |r.parks| == |ParkOrder| == 4
  {
    UIDisplayData(seq(|ParkOrder|, i requires 0 <= i < |ParkOrder| => CardFor(parks, ParkOrder[i], i)),
                  lastUpdated)
  }

  /** Exactly the four parks, in `parkOrder`, staggered by 50 ms, whatever the input. */
  lemma CrowdsToUIOrder(parks: seq<ParkSnapshot>, lastUpdated: string)
    ensures var r := CrowdsToUIData(parks, lastUpdated);
            |r.parks| == 4 && r.lastUpdated == lastUpdated
            && r.parks[0].snapshot.id == MagicKingdom && r.parks[1].snapshot.id == Epcot
            && r.parks[2].snapshot.id == HollywoodStudios && r.parks[3].snapshot.id == AnimalKingdom
            && forall i :: 0 <= i < 4 ==> r.parks[i].animationDelay == 50 * i
  {
    var r := CrowdsToUIData(parks, lastUpdated);
    forall i | 0 <= i < 4 ensures r.parks[i].snapshot.id == ParkOrder[i] && r.parks[i].animationDelay == 50 * i {
      match SnapshotById(parks, ParkOrder[i])
      case None =>
      case Some(p) =>
    }
  }

  /** Where `id` stands in `parkOrder`. */
  function IndexInOrder(id: ParkId): (i: int)
    ensures 0 <= i < 4 && ParkOrder[i] == id
    ensures forall j :: 0 <= j < 4 && ParkOrder[j] == id ==> j == i
  {
    match id
    case MagicKingdom => 0
    case Epcot => 1
    case HollywoodStudios => 2
    case AnimalKingdom => 3
  }

  /** Every park id has exactly one card. */
  lemma CrowdsToUIOnePerPark(parks: seq<ParkSnapshot>, lastUpdated: string, id: ParkId)
    ensures var r := CrowdsToUIData(parks, lastUpdated);
            exists i :: 0 <= i < |r.parks| && r.parks[i].snapshot.id == id
              && forall j :: 0 <= j < |r.parks| && r.parks[j].snapshot.id == id ==> j == i
  {
    CrowdsToUIOrder(parks, lastUpdated);
    var r := CrowdsToUIData(parks, lastUpdated);
    var ids := [r.parks[0].snapshot.id, r.parks[1].snapshot.id, r.parks[2].snapshot.id, r.parks[3].snapshot.id];
    assert ids == ParkOrder;
    var i := IndexInOrder(id);
    assert ids[i] == id;
    forall j | 0 <= j < |r.parks| && r.parks[j].snapshot.id == id ensures j == i {
      assert ids[j] == id;
    }
  }

  /**
   * A park with data is copied unchanged; a park without gets the placeholder:
   * low crowd, value 1, 'Unknown', 'No data available', gray, closed, and its
   * title-cased id as both names.
   */
  lemma CrowdsToUICards(parks: seq<ParkSnapshot>, lastUpdated: string, i: int)
    requires 0 <= i < 4
    ensures var card := CrowdsToUIData(parks, lastUpdated).parks[i].snapshot;
            var id := ParkOrder[i];
            (SnapshotById(parks, id).Some? ==> card == SnapshotById(parks, id).value)
            && (SnapshotById(parks, id).None? <==> forall p :: p in parks ==> p.id != id)
            && (SnapshotById(parks, id).None? ==>
                  card.id == id && card.name == TitleCase(ParkIdText(id)) && card.shortName == card.name
                  && card.crowdLevel == Low && card.crowdValue == 1 && card.crowdLabel == "Unknown"
                  && card.headline == "No data available" && card.color == "gray" && card.status == Closed)
  {
  }

  /** A one-word id is capitalised. */
  lemma TitleCaseWord(a: string)
    requires '-' !in a
    ensures TitleCase(a) == Capitalize(a)
  {
    SplitWithout(a, '-');
  }

  /** A two-word id becomes both words capitalised, with a space between. */
  lemma TitleCaseWords(a: string, b: string)
    requires '-' !in a && '-' !in b
    ensures TitleCase(a + "-" + b) == Capitalize(a) + " " + Capitalize(b)
  {
    SplitAt(a, '-', b);
    SplitWithout(b, '-');
    assert Split(a + "-" + b, '-') == [a, b];
    var words := CapitalizeAll([a, b]);
    assert words == [Capitalize(a), Capitalize(b)];
    assert Join(words, " ") == words[0] + " " + Join(words[1..], " ");
    assert words[1..] == [Capitalize(b)];
  }

  /** The placeholder names of the four parks. */
  lemma FallbackNames()
    ensures Fallback(MagicKingdom).name == "Magic Kingdom"
    ensures Fallback(Epcot).name == "Epcot"
    ensures Fallback(HollywoodStudios).name == "Hollywood Studios"
    ensures Fallback(AnimalKingdom).name == "Animal Kingdom"
  {
    MagicKingdomName();
    EpcotName();
    HollywoodStudiosName();
    AnimalKingdomName();
  }

  lemma MagicKingdomName()
    ensures TitleCase("magic-kingdom") == "Magic Kingdom"
  {
    CapitalWordsMK();
    TwoWordTitle("magic-kingdom", "magic", "kingdom", "Magic", "Kingdom", "Magic Kingdom");
  }

  lemma EpcotName()
    ensures TitleCase("epcot") == "Epcot"
  {
    CapitalWordsEA();
    TitleCaseWord("epcot");
  }

  lemma HollywoodStudiosName()
    ensures TitleCase("hollywood-studios") == "Hollywood Studios"
  {
    CapitalWordsHS();
    TwoWordTitle("hollywood-studios", "hollywood", "studios", "Hollywood", "Studios", "Hollywood Studios");
  }

  lemma AnimalKingdomName()
    ensures TitleCase("animal-kingdom") == "Animal Kingdom"
  {
    CapitalWordsEA();
    CapitalWordsMK();
    TwoWordTitle("animal-kingdom", "animal", "kingdom", "Animal", "Kingdom", "Animal Kingdom");
  }

  lemma TwoWordTitle(id: string, a: string, b: string, capA: string, capB: string, name: string)
    requires id == a + "-" + b && '-' !in a && '-' !in b
    requires Capitalize(a) == capA && Capitalize(b) == capB && name == capA + " " + capB
    ensures TitleCase(id) == name
  {
    TitleCaseWords(a, b);
  }

  /** The words of the four park ids, capitalised, two at a time. */
  lemma CapitalWordsMK()
    ensures Capitalize("magic") == "Magic" && Capitalize("kingdom") == "Kingdom"
  {
    CapitalOf('m', "agic", 'M');
    CapitalOf('k', "ingdom", 'K');
  }

  lemma CapitalWordsEA()
    ensures Capitalize("epcot") == "Epcot" && Capitalize("animal") == "Animal"
  {
    CapitalOf('e', "pcot", 'E');
    CapitalOf('a', "nimal", 'A');
  }

  lemma CapitalWordsHS()
    ensures Capitalize("hollywood") == "Hollywood" && Capitalize("studios") == "Studios"
  {
    CapitalOf('h', "ollywood", 'H');
    CapitalOf('s', "tudios", 'S');
  }

  lemma CapitalOf(c: char, rest: string, upper: char)
    requires UpperChar(c) == upper
    ensures Capitalize([c] + rest) == [upper] + rest
  {
  }

  /** Input that already holds the four parks in order, once each, comes out card for card. */
  lemma CrowdsToUIKeepsCompleteInput(parks: seq<ParkSnapshot>, lastUpdated: string)
    requires |parks| == 4 && forall i :: 0 <= i < 4 ==> parks[i].id == ParkOrder[i]
    ensures var r := CrowdsToUIData(parks, lastUpdated);
            forall i :: 0 <= i < 4 ==> r.parks[i].snapshot == parks[i]
  {
    forall i | 0 <= i < 4 ensures SnapshotById(parks, ParkOrder[i]) == Some(parks[i]) {
      SnapshotByIdIsLast(parks, ParkOrder[i]);
      var k :| 0 <= k < 4 && parks[k] == SnapshotById(parks, ParkOrder[i]).value
               && forall j :: k < j < 4 ==> parks[j].id != ParkOrder[i];
      assert k == i;
    }
  }

  /** The cards depend on the input only through the last snapshot of each park. */
  lemma CrowdsToUILastWins(a: seq<ParkSnapshot>, b: seq<ParkSnapshot>, lastUpdated: string)
    requires forall id: ParkId :: SnapshotById(a, id) == SnapshotById(b, id)
    ensures CrowdsToUIData(a, lastUpdated) == CrowdsToUIData(b, lastUpdated)
  {
    var ra := CrowdsToUIData(a, lastUpdated);
    var rb := CrowdsToUIData(b, lastUpdated);
    forall i | 0 <= i < 4 ensures ra.parks[i] == rb.parks[i] {
      assert SnapshotById(a, ParkOrder[i]) == SnapshotById(b, ParkOrder[i]);
    }
  }

  /** `'up' | 'down' | 'none'`. */
  datatype Direction = Up | Down | Steady

  datatype LevelChange = LevelChange(changed: bool, direction: Direction)

  /** `levelValues`. */
  function LevelValue(level: CrowdLevel): int {
    match level
    case Low => 1
    case Moderate => 2
    case High => 3
  }

  /** `getCrowdLevelChange`; a missing (`null` or `undefined`) previous level is `None`. */
  function GetCrowdLevelChange(prevLevel: Option<CrowdLevel>, newLevel: CrowdLevel): LevelChange {
    if prevLevel.None? then LevelChange(true, Steady)
    else
      var prevValue := LevelValue(prevLevel.value);
      var newValue := LevelValue(newLevel);
      if prevValue == newValue then LevelChange(false, Steady)
      else LevelChange(true, if newValue > prevValue then Up else Down)
  }

  /**
   * No previous level: changed with no direction. Otherwise changed exactly
   * when the level differs, and then up exactly when it rose in low < moderate < high.
   */
  lemma LevelChangeCases(prevLevel: Option<CrowdLevel>, newLevel: CrowdLevel)
    ensures var c := GetCrowdLevelChange(prevLevel, newLevel);
            (prevLevel.None? ==> c == LevelChange(true, Steady))
            && (prevLevel.Some? ==>
                  (c.changed <==> prevLevel.value != newLevel)
                  && (c.direction == Steady <==> !c.changed)
                  && (c.direction == Up <==> LevelValue(newLevel) > LevelValue(prevLevel.value))
                  && (c.direction == Down <==> LevelValue(newLevel) < LevelValue(prevLevel.value)))
  {
  }

  /** Going from `a` to `b` is up exactly when going from `b` to `a` is down. */
  lemma LevelChangeReverses(a: CrowdLevel, b: CrowdLevel)
    ensures GetCrowdLevelChange(Some(a), b).changed == GetCrowdLevelChange(Some(b), a).changed
    ensures GetCrowdLevelChange(Some(a), b).direction == Up <==> GetCrowdLevelChange(Some(b), a).direction == Down
  {
  }

  const BaseClasses := "transition-all duration-500 ease-in-out"

  /** `directionClasses[direction]`. */
  function DirectionClass(direction: Direction): string {
    match direction
    case Up => "scale-110"
    case Down => "scale-95"
    case Steady => ""
  }

  /** `getCrowdMeterClasses`. */
  function GetCrowdMeterClasses(changed: bool, direction: Direction): (r: string)
    ensures BaseClasses <= r
  {
    if !changed then BaseClasses else BaseClasses + " " + DirectionClass(direction)
  }

  /**
   * The meter classes for a level change: the base classes alone when the
   * level stayed, the base plus `scale-110` when it rose and `scale-95` when
   * it fell; with no previous level the direction is none, so only a space
   * is appended.
   */
  lemma MeterClassesForChange(prevLevel: Option<CrowdLevel>, newLevel: CrowdLevel)
    ensures var c := GetCrowdLevelChange(prevLevel, newLevel);
            var r := GetCrowdMeterClasses(c.changed, c.direction);
            (prevLevel == Some(newLevel) ==> r == BaseClasses)
            && (prevLevel.None? ==> r == BaseClasses + " ")
            && (prevLevel.Some? && LevelValue(newLevel) > LevelValue(prevLevel.value) ==> r == BaseClasses + " scale-110")
            && (prevLevel.Some? && LevelValue(newLevel) < LevelValue(prevLevel.value) ==> r == BaseClasses + " scale-95")
  {
    LevelChangeCases(prevLevel, newLevel);
  }

  /** The classes are the base alone exactly when nothing changed. */
  lemma MeterClassesBaseIff(changed: bool, direction: Direction)
    ensures GetCrowdMeterClasses(changed, direction) == BaseClasses <==> !changed
  {
    if changed {
      assert |GetCrowdMeterClasses(changed, direction)| > |BaseClasses|;
    }
  }
}
