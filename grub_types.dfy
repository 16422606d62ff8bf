/**
 * The dining-alert shapes (types/grub-grab.ts). Instants the code compares are
 * carried with their value in milliseconds beside their ISO text.
 */
module GrubTypes {
  import opened Wrappers

  datatype Location = MagicKingdom | Epcot | HollywoodStudios | AnimalKingdom | DisneySprings | ResortHotels

  datatype MealType = Breakfast | Lunch | Dinner

  datatype MealPreference = AnyMeal | OnlyMeal(meal: MealType)

  datatype TimePreference = AnyTime | Morning | Afternoon | Evening

  datatype AlertStatus = Active | Paused | Expired

  datatype PriceRange = Budget | Moderate | Deluxe

  datatype Restaurant = Restaurant(
    id: string,
    name: string,
    slug: string,
    location: Location,
    disneyUrl: string,
    mealTypes: seq<MealType>,
    cuisine: string,
    priceRange: PriceRange,
    popular: bool)

  /** `Pick<Restaurant, 'id' | 'name' | 'slug' | 'disneyUrl' | 'location'>`. */
  datatype RestaurantRef = RestaurantRef(id: string, name: string, slug: string, disneyUrl: string, location: Location)

  datatype DateRange = DateRange(start: string, end: string)

  /** A clock reading: its ISO text and its milliseconds since the epoch. */
  datatype Instant = Instant(iso: string, ms: int)

  datatype DiningAlert = DiningAlert(
    id: string,
    userId: string,
    restaurant: RestaurantRef,
    dateRange: DateRange,
    partySize: int,
    mealPreference: MealPreference,
    timePreference: TimePreference,
    telegramChatId: string,
    status: AlertStatus,
    createdAt: Instant,
    lastChecked: Option<Instant>,
    triggeredDates: seq<string>,
    totalChecks: int,
    successfulFinds: int)

  datatype AvailableSlot = AvailableSlot(date: string, time: string, bookingUrl: string)

  /** The display text of a location, as the dataset spells it. */
  function LocationText(l: Location): string {
    match l
    case MagicKingdom => "Magic Kingdom"
    case Epcot => "EPCOT"
    case HollywoodStudios => "Hollywood Studios"
    case AnimalKingdom => "Animal Kingdom"
    case DisneySprings => "Disney Springs"
    case ResortHotels => "Resort Hotels"
  }

  function MealPreferenceText(m: MealPreference): string {
    match m
    case AnyMeal => "any"
    case OnlyMeal(Breakfast) => "breakfast"
    case OnlyMeal(Lunch) => "lunch"
    case OnlyMeal(Dinner) => "dinner"
  }

  function TimePreferenceText(t: TimePreference): string {
    match t
    case AnyTime => "any"
    case Morning => "morning"
    case Afternoon => "afternoon"
    case Evening => "evening"
  }
}
