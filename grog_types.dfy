/**
 * The bar-crawl shapes (types/grog-trot.ts). Venue coordinates are left out:
 * nothing modelled here reads them.
 */
module GrogTypes {
  datatype Area =
    | MagicKingdom | Epcot | HollywoodStudios | AnimalKingdom
    | DisneySprings | MonorailResorts | EpcotResorts | OtherResorts

  datatype Vibe =
    | Tiki | ThemedImmersive | UpscaleLounge | OutdoorBar | Pub
    | Speakeasy | SportsBar | WineBar | LiveMusic | PoolBarVibe

  datatype Venue = Venue(
    id: string,
    slug: string,
    name: string,
    area: Area,
    locationDetail: string,
    vibes: seq<Vibe>,
    description: string,
    signatureDrink: string,
    requiresReservation: bool,
    adultsOnly: bool,
    poolBar: bool,
    foodAvailable: bool)

  datatype Mode = Walk | Monorail | Skyliner | Boat | Bus

  /** A transport edge between two areas with its average minutes. */
  datatype Edge = Edge(fromArea: Area, toArea: Area, mode: Mode, avgMinutes: int)

  datatype CrawlStop = CrawlStop(venue: Venue, order: int)

  datatype CrawlLeg = CrawlLeg(fromVenueId: string, toVenueId: string, mode: Mode, minutes: int, directionText: string)

  /** `GeneratedCrawl` without the rounded `estimatedHours`. */
  datatype GeneratedCrawl = GeneratedCrawl(
    title: string,
    vibeLabel: string,
    stops: seq<CrawlStop>,
    legs: seq<CrawlLeg>,
    totalTravelMinutes: int)

  datatype CrawlGenerateInput = CrawlGenerateInput(
    vibes: seq<Vibe>,
    numberOfStops: int,
    startingArea: Area,
    excludePoolBars: bool,
    excludeReservationRequired: bool)

  function AreaText(a: Area): string {
    match a
    case MagicKingdom => "Magic Kingdom"
    case Epcot => "EPCOT"
    case HollywoodStudios => "Hollywood Studios"
    case AnimalKingdom => "Animal Kingdom"
    case DisneySprings => "Disney Springs"
    case MonorailResorts => "Monorail Resorts"
    case EpcotResorts => "EPCOT Resorts"
    case OtherResorts => "Other Resorts"
  }

  function VibeText(v: Vibe): string {
    match v
    case Tiki => "tiki"
    case ThemedImmersive => "themed_immersive"
    case UpscaleLounge => "upscale_lounge"
    case OutdoorBar => "outdoor_bar"
    case Pub => "pub"
    case Speakeasy => "speakeasy"
    case SportsBar => "sports_bar"
    case WineBar => "wine_bar"
    case LiveMusic => "live_music"
    case PoolBarVibe => "pool_bar"
  }

  function ModeText(m: Mode): string {
    match m
    case Walk => "walk"
    case Monorail => "monorail"
    case Skyliner => "skyliner"
    case Boat => "boat"
    case Bus => "bus"
  }
}
