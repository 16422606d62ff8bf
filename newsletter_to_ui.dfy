/**
 * The newsletter dashboard as the page shows it (lib/dashboard/newsletterToUI.ts):
 * capped section lengths, the urgent-only must-see story, visibility flags,
 * and the per-section change test behind update-safe rendering.
 */
module NewsletterToUI {
  import opened Wrappers
  import opened Seqs
  import opened DashboardSchema

  datatype UIDashboardData = UIDashboardData(
    mustSeeToday: Option<Story>,
    hotTiles: seq<HotTile>,
    topStories: seq<Story>,
    parks: seq<ParkSnapshot>,
    resortSpotlight: seq<ResortBlurb>,
    showMustSeeToday: bool,
    showTopStories: bool,
    showResortSpotlight: bool)

  const MaxHotTiles := 3
  const MaxTopStories := 5
  const MaxResortBlurbs := 2

  /** `data.mustSeeToday?.priority === 'urgent'`. */
  predicate IsUrgent(story: Option<Story>) {
    story.Some? && story.value.priority == Some(Urgent)
  }

  /** `newsletterToUI`. */
  function NewsletterToUIData(data: DailyDashboardData): UIDashboardData {
    UIDashboardData(
      if IsUrgent(data.mustSeeToday) then data.mustSeeToday else None,
      Take(data.hotTiles, MaxHotTiles),
      Take(data.topStories, MaxTopStories),
      data.parks,
      Take(data.resortSpotlight, MaxResortBlurbs),
      IsUrgent(data.mustSeeToday),
      |data.topStories| > 0,
      |data.resortSpotlight| > 0)
  }

  /**
   * The must-see story survives exactly when it is urgent, and the flag says
   * whether it did; a story without a priority or with 'normal' is dropped.
   */
  lemma MustSeeOnlyWhenUrgent(data: DailyDashboardData)
    ensures var r := NewsletterToUIData(data);
            (r.mustSeeToday.Some? <==> data.mustSeeToday.Some? && data.mustSeeToday.value.priority == Some(Urgent))
            && (r.mustSeeToday.Some? ==> r.mustSeeToday == data.mustSeeToday)
            && r.showMustSeeToday == r.mustSeeToday.Some?
  {
  }

  /** The lists are the leading 3 hot tiles, 5 stories and 2 blurbs, in their order; parks pass through. */
  lemma SectionsArePrefixes(data: DailyDashboardData)
    ensures var r := NewsletterToUIData(data);
            r.hotTiles <= data.hotTiles && |r.hotTiles| == Min(3, |data.hotTiles|)
            && r.topStories <= data.topStories && |r.topStories| == Min(5, |data.topStories|)
            && r.resortSpotlight <= data.resortSpotlight && |r.resortSpotlight| == Min(2, |data.resortSpotlight|)
            && r.parks == data.parks
  {
  }

  /** Stories and blurbs are shown exactly when the input has some, and then the page has some. */
  lemma VisibilityFlags(data: DailyDashboardData)
    ensures var r := NewsletterToUIData(data);
            (r.showTopStories <==> data.topStories != []) && (r.showTopStories <==> r.topStories != [])
            && (r.showResortSpotlight <==> data.resortSpotlight != [])
            && (r.showResortSpotlight <==> r.resortSpotlight != [])
  {
  }

  /** Short lists are kept whole. */
  lemma ShortSectionsKept(data: DailyDashboardData)
    requires |data.hotTiles| <= 3 && |data.topStories| <= 5 && |data.resortSpotlight| <= 2
    ensures var r := NewsletterToUIData(data);
            r.hotTiles == data.hotTiles && r.topStories == data.topStories
            && r.resortSpotlight == data.resortSpotlight
  {
  }

  /** Mapping the page model's own lists again changes nothing. */
  lemma NewsletterToUIIdempotent(data: DailyDashboardData)
    ensures var r := NewsletterToUIData(data);
            var again := NewsletterToUIData(DailyDashboardData(data.date, data.lastUpdated, r.mustSeeToday,
                                                               r.hotTiles, r.topStories, r.parks, r.resortSpotlight));
            again == r
  {
  }

  /** The sections `didSectionChange` can be asked about. */
  datatype Section = MustSeeToday | HotTiles | TopStories | Parks | ResortSpotlight

  /** One section's value (the JSON text of which the source compares). */
  datatype SectionValue =
    | MustSeeValue(story: Option<Story>)
    | HotTilesValue(tiles: seq<HotTile>)
    | StoriesValue(stories: seq<Story>)
    | ParksValue(parks: seq<ParkSnapshot>)
    | BlurbsValue(blurbs: seq<ResortBlurb>)

  /** `data[section]`. */
  function SectionOf(data: UIDashboardData, section: Section): SectionValue {
    match section
    case MustSeeToday => MustSeeValue(data.mustSeeToday)
    case HotTiles => HotTilesValue(data.hotTiles)
    case TopStories => StoriesValue(data.topStories)
    case Parks => ParksValue(data.parks)
    case ResortSpotlight => BlurbsValue(data.resortSpotlight)
  }

  /** `didSectionChange`, with structural equality standing for equal JSON text. */
  function DidSectionChange(prevData: Option<UIDashboardData>, newData: UIDashboardData, section: Section): bool {
    prevData.None? || SectionOf(prevData.value, section) != SectionOf(newData, section)
  }

  /** With no previous data every section changed; otherwise a section changed exactly when its field differs. */
  lemma SectionChangeCases(prevData: Option<UIDashboardData>, newData: UIDashboardData, section: Section)
    ensures prevData.None? ==> DidSectionChange(prevData, newData, section)
    ensures prevData.Some? ==>
              var p := prevData.value;
              DidSectionChange(prevData, newData, section) <==>
                match section
                case MustSeeToday => p.mustSeeToday != newData.mustSeeToday
                case HotTiles => p.hotTiles != newData.hotTiles
                case TopStories => p.topStories != newData.topStories
                case Parks => p.parks != newData.parks
                case ResortSpotlight => p.resortSpotlight != newData.resortSpotlight
  {
  }

  /** Data compared with itself has no changed section. */
  lemma NoChangeAgainstItself(data: UIDashboardData, section: Section)
    ensures !DidSectionChange(Some(data), data, section)
  {
  }

  /**
   * Between two newsletters, the hot-tile section is reported changed exactly
   * when their first three tiles differ: a change further down the list is
   * never re-rendered.
   */
  lemma HotTilesChangeIsPrefixChange(a: DailyDashboardData, b: DailyDashboardData)
    ensures DidSectionChange(Some(NewsletterToUIData(a)), NewsletterToUIData(b), HotTiles)
            <==> Take(a.hotTiles, 3) != Take(b.hotTiles, 3)
  {
  }

  /** Two newsletters whose must-see stories are both non-urgent never report a must-see change. */
  lemma NonUrgentMustSeeIsNoChange(a: DailyDashboardData, b: DailyDashboardData)
    requires !IsUrgent(a.mustSeeToday) && !IsUrgent(b.mustSeeToday)
    ensures !DidSectionChange(Some(NewsletterToUIData(a)), NewsletterToUIData(b), MustSeeToday)
  {
  }
}
