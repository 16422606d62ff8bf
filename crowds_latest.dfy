/**
 * The latest-crowds endpoint's normaliser (app/api/crowds/latest/route.ts):
 * cache rows become one entry per park with defaults for missing fields, and
 * the result is served only when all four parks came through; otherwise the
 * bundled fixture is. The database query, the fixture file and the clock are
 * parameters.
 */
module CrowdsLatest {
  import opened Wrappers

  /**
   * A `crowd_cache_latest` row; each field may be absent (`null` or
   * `undefined`). Scores and waits are already numbers.
   */
  datatype CrowdRow = CrowdRow(
    park: Option<string>,
    parkCode: Option<string>,
    score: Option<int>,
    crowdScore: Option<int>,
    labelText: Option<string>,
    crowdLabel: Option<string>,
    avgWaitMin: Option<int>,
    avgWait: Option<int>,
    dataQuality: Option<string>,
    generatedAt: Option<string>,
    updatedAt: Option<string>)

  /** One park in the fixture's shape. */
  datatype FixturePark = FixturePark(
    park: string,
    score: int,
    labelText: string,
    avgWaitMin: int,
    dataQuality: string,
    generatedAt: string)

  datatype FixtureShape = FixtureShape(generatedAt: string, parks: map<string, FixturePark>)

  /** `a ?? b`. */
  function Coalesce<T>(a: Option<T>, b: T): T {
    if a.Some? then a.value else b
  }

  /** A present, non-empty string (what `||` treats as truthy). */
  predicate Truthy(s: Option<string>) {
    s.Some? && s.value != ""
  }

  /** `row.park || row.park_code`, when that is truthy; `None` means the row is skipped. */
  function ParkKey(row: CrowdRow): (key: Option<string>)
    ensures key.Some? ==> key.value != ""
    ensures key.None? <==> !Truthy(row.park) && !Truthy(row.parkCode)
  {
    if Truthy(row.park) then row.park else if Truthy(row.parkCode) then row.parkCode else None
  }

  /** The entry written for a row under `park`, with `generatedAt` the time so far. */
  function Normalise(row: CrowdRow, park: string, generatedAt: string): (p: FixturePark)
    ensures p.park == park
  {
    FixturePark(
      park,
      Coalesce(row.score, Coalesce(row.crowdScore, 5)),
      Coalesce(row.labelText, Coalesce(row.crowdLabel, "Moderate")),
      Coalesce(row.avgWaitMin, Coalesce(row.avgWait, 0)),
      Coalesce(row.dataQuality, "good"),
      Coalesce(row.generatedAt, Coalesce(row.updatedAt, generatedAt)))
  }

  /** The loop's effect of one row: a skipped row changes nothing. */
  function Step(shape: FixtureShape, row: CrowdRow): FixtureShape {
    match ParkKey(row)
    case None => shape
    case Some(park) =>
      var entry := Normalise(row, park, shape.generatedAt);
      FixtureShape(entry.generatedAt, shape.parks[park := entry])
  }

  /**
   * The shape after the rows, starting from no parks and the time `now`:
   * every entry is filed under its own, non-empty park.
   */
  function Shaped(rows: seq<CrowdRow>, now: string): (r: FixtureShape)
    ensures forall p :: p in r.parks ==> p != "" && r.parks[p].park == p
    decreases |rows|
  {
    if rows == [] then FixtureShape(now, map[])
    else Step(Shaped(rows[..|rows| - 1], now), rows[|rows| - 1])
  }

  /** `toFixtureShape`, with `new Date().toISOString()` passed in as `now`. */
  method ToFixtureShape(rows: seq<CrowdRow>, now: string) returns (shape: FixtureShape)
    ensures shape == Shaped(rows, now)
  {
    var parks: map<string, FixturePark> := map[];
    var generatedAt := now;
    for i := 0 to |rows|
      invariant FixtureShape(generatedAt, parks) == Shaped(rows[..i], now)
    {
      assert rows[..i + 1][..i] == rows[..i];
      var row := rows[i];
      var park: Option<string> := if Truthy(row.park) then row.park else row.parkCode;
      if !Truthy(park) {
        continue;
      }
      parks := parks[park.value := Normalise(row, park.value, generatedAt)];
      generatedAt := parks[park.value].generatedAt;
    }
    assert rows[..|rows|] == rows;
    shape := FixtureShape(generatedAt, parks);
  }

  /** The missing fields' defaults: score 5, label 'Moderate', no wait, 'good' data. */
  lemma NormaliseDefaults(row: CrowdRow, park: string, generatedAt: string)
    ensures var p := Normalise(row, park, generatedAt);
            (row.score.None? && row.crowdScore.None? ==> p.score == 5)
            && (row.score.Some? ==> p.score == row.score.value)
            && (row.score.None? && row.crowdScore.Some? ==> p.score == row.crowdScore.value)
            && (row.labelText.None? && row.crowdLabel.None? ==> p.labelText == "Moderate")
            && (row.avgWaitMin.None? && row.avgWait.None? ==> p.avgWaitMin == 0)
            && (row.dataQuality.None? ==> p.dataQuality == "good")
            && (row.generatedAt.None? && row.updatedAt.None? ==> p.generatedAt == generatedAt)
  {
  }

  /** A park has an entry exactly when some row names it. */
  lemma {:induction false} ShapedKeys(rows: seq<CrowdRow>, now: string, park: string)
    ensures park in Shaped(rows, now).parks <==> exists i :: 0 <= i < |rows| && ParkKey(rows[i]) == Some(park)
    decreases |rows|
  {
    if rows != [] {
      var init := rows[..|rows| - 1];
      ShapedKeys(init, now, park);
      if exists i :: 0 <= i < |init| && ParkKey(init[i]) == Some(park) {
        var i :| 0 <= i < |init| && ParkKey(init[i]) == Some(park);
        assert rows[i] == init[i];
      }
      if exists i :: 0 <= i < |rows| && ParkKey(rows[i]) == Some(park) {
        var i :| 0 <= i < |rows| && ParkKey(rows[i]) == Some(park);
        if i < |init| {
          assert init[i] == rows[i];
        }
      }
    }
  }

  /** Row `i` is the last row naming `park`. */
  predicate LastFor(rows: seq<CrowdRow>, i: int, park: string) {
    0 <= i < |rows| && ParkKey(rows[i]) == Some(park)
    && forall j :: i < j < |rows| ==> ParkKey(rows[j]) != Some(park)
  }

  /** Rows naming other parks, or none, leave an entry alone. */
  lemma {:induction false} ShapedKeepsEntry(rows: seq<CrowdRow>, now: string, k: int, park: string)
    requires 0 <= k <= |rows|
    requires forall j :: k <= j < |rows| ==> ParkKey(rows[j]) != Some(park)
    requires park in Shaped(rows[..k], now).parks
    ensures park in Shaped(rows, now).parks
    ensures Shaped(rows, now).parks[park] == Shaped(rows[..k], now).parks[park]
    decreases |rows|
  {
    if k < |rows| {
      var init := rows[..|rows| - 1];
      assert init[..k] == rows[..k];
      ShapedKeepsEntry(init, now, k, park);
    } else {
      assert rows[..k] == rows;
    }
  }

  /**
   * A later row for the same park overwrites an earlier one: a park's entry is
   * its last row, normalised with the time the rows before it left.
   */
  lemma ShapedLastWins(rows: seq<CrowdRow>, now: string, i: int, park: string)
    requires LastFor(rows, i, park)
    ensures park in Shaped(rows, now).parks
    ensures Shaped(rows, now).parks[park] == Normalise(rows[i], park, Shaped(rows[..i], now).generatedAt)
  {
    assert rows[..i + 1][..i] == rows[..i];
    ShapedKeepsEntry(rows, now, i + 1, park);
  }

  /** No row at or after `k` names a park. */
  predicate NoneAcceptedFrom(rows: seq<CrowdRow>, k: int) {
    forall j :: 0 <= j < |rows| && k <= j ==> ParkKey(rows[j]).None?
  }

  /** Skipped rows at the end change nothing. */
  lemma {:induction false} ShapedSkips(rows: seq<CrowdRow>, now: string, k: int)
    requires 0 <= k <= |rows| && NoneAcceptedFrom(rows, k)
    ensures Shaped(rows, now) == Shaped(rows[..k], now)
    decreases |rows|
  {
    if k < |rows| {
      var init := rows[..|rows| - 1];
      assert init[..k] == rows[..k];
      ShapedSkips(init, now, k);
    } else {
      assert rows[..k] == rows;
    }
  }

  /**
   * The top-level time is the start time when no row is accepted, and
   * otherwise the time of the last accepted row's entry.
   */
  lemma ShapedGeneratedAt(rows: seq<CrowdRow>, now: string)
    ensures NoneAcceptedFrom(rows, 0) ==> Shaped(rows, now).generatedAt == now
    ensures forall i, park :: LastFor(rows, i, park) && NoneAcceptedFrom(rows, i + 1) ==>
              park in Shaped(rows, now).parks
              && Shaped(rows, now).generatedAt == Shaped(rows, now).parks[park].generatedAt
  {
    if NoneAcceptedFrom(rows, 0) {
      ShapedSkips(rows, now, 0);
    }
    forall i, park | LastFor(rows, i, park) && NoneAcceptedFrom(rows, i + 1)
      ensures park in Shaped(rows, now).parks
              && Shaped(rows, now).generatedAt == Shaped(rows, now).parks[park].generatedAt
    {
      ShapedSkips(rows, now, i + 1);
      assert rows[..i + 1][..i] == rows[..i];
      ShapedLastWins(rows, now, i, park);
    }
  }

  /** `['MK', 'EPCOT', 'DHS', 'AK']`. */
  const RequiredParks: seq<string> := ["MK", "EPCOT", "DHS", "AK"]

  /** `every((park) => shaped.parks[park])`: an entry is an object, so it is truthy when present. */
  predicate HasAllParks(shape: FixtureShape) {
    forall k :: 0 <= k < |RequiredParks| ==> RequiredParks[k] in shape.parks
  }

  /** What the endpoint serves for the rows it read: no rows, or a park missing, means the fixture. */
  function LatestCrowds(rows: seq<CrowdRow>, now: string, fixture: FixtureShape): (r: FixtureShape)
    ensures rows == [] ==> r == fixture
    ensures r == fixture || (r == Shaped(rows, now) && HasAllParks(r))
    ensures rows != [] && HasAllParks(Shaped(rows, now)) ==> r == Shaped(rows, now)
  {
    if rows == [] then fixture
    else
      var shaped := Shaped(rows, now);
      if HasAllParks(shaped) then shaped else fixture
  }

  /** The normalised rows are served exactly when every one of MK, EPCOT, DHS and AK has a row. */
  lemma LatestCrowdsChoice(rows: seq<CrowdRow>, now: string, fixture: FixtureShape)
    ensures (forall k :: 0 <= k < 4 ==> exists i :: 0 <= i < |rows| && ParkKey(rows[i]) == Some(RequiredParks[k]))
              ==> LatestCrowds(rows, now, fixture) == Shaped(rows, now)
    ensures (exists k :: 0 <= k < 4 && forall i :: 0 <= i < |rows| ==> ParkKey(rows[i]) != Some(RequiredParks[k]))
              ==> LatestCrowds(rows, now, fixture) == fixture
  {
    var shaped := Shaped(rows, now);
    forall k | 0 <= k < 4 ensures RequiredParks[k] in shaped.parks
                                 <==> exists i :: 0 <= i < |rows| && ParkKey(rows[i]) == Some(RequiredParks[k]) {
      ShapedKeys(rows, now, RequiredParks[k]);
    }
    if forall k :: 0 <= k < 4 ==> exists i :: 0 <= i < |rows| && ParkKey(rows[i]) == Some(RequiredParks[k]) {
      assert exists i :: 0 <= i < |rows| && ParkKey(rows[i]) == Some(RequiredParks[0]);
      assert HasAllParks(shaped);
    }
  }
}
