/**
 * The shapes of the dashboard feeds and of the render model (lib/dashboard/types.ts).
 *
 * Timestamps the builder compares are carried as milliseconds; the ISO text of
 * `updated_at` is kept beside its parsed value because render items pass it on.
 * A text field the source tests for truthiness uses "" for "absent".
 */
module DashboardTypes {
  import opened Wrappers

  /** The closed category list; `Unlisted` stands for any other string the feed might carry. */
  datatype Category = EventAlert | LimitedMerch | Crowds | Entertainment | Food | Other | Unlisted(name: string)

  datatype Urgency = MustSeeToday | Normal

  datatype ParkCode = HOME | MK | EPCOT | DHS | AK | RESORTS

  /** The four theme parks (`Exclude<ParkCode, 'HOME' | 'RESORTS'>`). */
  type Park = p: ParkCode | p.MK? || p.EPCOT? || p.DHS? || p.AK? witness MK

  datatype Confidence = High | Med | Low

  /** An ISO timestamp together with its value in milliseconds since the epoch. */
  datatype Stamp = Stamp(iso: string, ms: int)

  /**
   * A newsletter item. `expiresAt` is the parsed `expires_at`, None when it is
   * absent, empty or not a date (none of which expires the item).
   */
  datatype Item = Item(
    id: string,
    category: Category,
    urgency: Urgency,
    park: ParkCode,
    short: string,
    long: string,
    updatedAt: Stamp,
    confidence: Option<Confidence>,
    expiresAt: Option<int>)

  datatype ParkSummary = ParkSummary(park: Park, headline: string, updatedAt: string)

  /** `home` of the newsletter feed; a missing array is the empty sequence. */
  datatype HomeFeed = HomeFeed(
    mustSee: seq<Item>,
    hotTiles: seq<Item>,
    topStories: seq<Item>,
    parksSummary: seq<ParkSummary>,
    resortsBlurb: seq<Item>)

  /** One park of the newsletter feed; `todayVibe` is "" when absent. */
  datatype ParkFeed = ParkFeed(
    todayVibe: string,
    mustSee: seq<Item>,
    hot: seq<Item>,
    headlines: seq<Item>,
    resortBlurbs: seq<Item>)

  datatype NewsletterRaw = NewsletterRaw(generatedAt: string, home: HomeFeed, parks: map<Park, ParkFeed>)

  datatype DataQuality = Good | Limited | Bad

  /**
   * One park of the crowd feed. The feed's `parks` object is kept as its
   * entries in key order, each entry keyed by its own `park` code.
   */
  datatype CrowdPark = CrowdPark(
    park: string,
    score: int,
    crowdLabel: string,
    avgWaitMin: Option<int>,
    dataQuality: Option<DataQuality>,
    generatedAt: string)

  datatype CrowdsRaw = CrowdsRaw(generatedAt: string, parks: seq<CrowdPark>)

  datatype RenderItem = RenderItem(
    id: string,
    category: Category,
    park: ParkCode,
    short: string,
    long: string,
    updatedAt: string)

  datatype RenderCrowd = RenderCrowd(
    park: string,
    score: int,
    crowdLabel: string,
    avgWaitMin: int,
    dataQuality: DataQuality,
    generatedAt: string,
    note: Option<string>)

  datatype HotTile = HotTile(
    id: string,
    category: Category,
    title: string,
    short: string,
    long: string,
    updatedAt: string)

  datatype ParkSnapshot = ParkSnapshot(park: Park, name: string, color: string, crowd: RenderCrowd, headline: string)

  datatype HomeModel = HomeModel(
    mustSee: seq<RenderItem>,
    hotTiles: seq<HotTile>,
    topStories: seq<RenderItem>,
    parkSnapshots: seq<ParkSnapshot>,
    resortSpotlight: seq<RenderItem>)

  datatype ParkModel = ParkModel(
    park: Park,
    crowd: RenderCrowd,
    todayVibe: string,
    mustSee: seq<RenderItem>,
    hot: seq<RenderItem>,
    headlines: seq<RenderItem>,
    resortTieIns: seq<RenderItem>)

  datatype RenderModel = RenderModel(
    generatedAt: string,
    crowdGeneratedAt: string,
    home: HomeModel,
    parks: map<Park, ParkModel>)

  /** The fixed park order of the render model: MK, EPCOT, DHS, AK. */
  const ParkOrder: seq<Park> := [MK, EPCOT, DHS, AK]

  /** The code a park is keyed by in the feeds. */
  function ParkCodeText(p: ParkCode): string {
    match p
    case HOME => "HOME"
    case MK => "MK"
    case EPCOT => "EPCOT"
    case DHS => "DHS"
    case AK => "AK"
    case RESORTS => "RESORTS"
  }
}
