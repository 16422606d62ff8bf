/**
 * The newsletter-style daily dashboard records (data/daily-dashboard-schema.ts):
 * the shapes `crowdsToUI` and `newsletterToUI` read and produce.
 */
module DashboardSchema {
  import opened Wrappers

  datatype CrowdLevel = Low | Moderate | High

  /** The four park ids, in the order the string-literal union lists them. */
  datatype ParkId = MagicKingdom | Epcot | HollywoodStudios | AnimalKingdom

  /** The id as it appears in the data. */
  function ParkIdText(id: ParkId): string {
    match id
    case MagicKingdom => "magic-kingdom"
    case Epcot => "epcot"
    case HollywoodStudios => "hollywood-studios"
    case AnimalKingdom => "animal-kingdom"
  }

  datatype ParkStatus = Open | Closed | Maintenance

  datatype ParkSnapshot = ParkSnapshot(
    id: ParkId,
    name: string,
    shortName: string,
    crowdLevel: CrowdLevel,
    crowdValue: int,
    crowdLabel: string,
    headline: string,
    color: string,
    status: ParkStatus)

  datatype StoryCategory = Event | Alert | Merch | Food | Entertainment | General

  datatype Priority = Urgent | Normal

  datatype Story = Story(
    id: string,
    headline: string,
    summary: string,
    expanded: Option<string>,
    category: StoryCategory,
    park: Option<string>,
    timestamp: Option<string>,
    priority: Option<Priority>)

  datatype TileType = EventsAlerts | LimitedMerch | Crowds

  datatype HotTile = HotTile(
    id: string,
    tileType: TileType,
    headline: string,
    icon: string,
    count: Option<int>,
    value: Option<string>)

  datatype ResortBlurb = ResortBlurb(id: string, headline: string, summary: string)

  /** `mustSeeToday: Story | null` is an `Option`. */
  datatype DailyDashboardData = DailyDashboardData(
    date: string,
    lastUpdated: string,
    mustSeeToday: Option<Story>,
    hotTiles: seq<HotTile>,
    topStories: seq<Story>,
    parks: seq<ParkSnapshot>,
    resortSpotlight: seq<ResortBlurb>)
}
