/**
 * The loaded site data and the fragments the page renderers put into slots.
 * Fragments are abstract view-model values: each carries the resolved
 * strings its HTML template would interpolate, not the markup itself.
 */
module Views {
  import opened Wrappers
  import opened Localize
  import Countdown

  datatype Photo = Photo(src: string, alt: Localized, caption: Localized)

  /** The featured next event; `date` is its timestamp in milliseconds. */
  datatype Event = Event(kind: Localized, title: Localized, location: Localized, date: int)

  /** An entry of the upcoming releases/shows list. */
  datatype UpcomingItem = UpcomingItem(title: Localized, location: Localized, description: Localized, image: string, date: int)

  datatype Release = Release(title: Localized, description: Localized, kind: Localized, cover: string, year: string)

  datatype Band = Band(name: string, tagline: Localized, bio: Localized, photos: seq<Photo>)

  /** events.json: the next event and the upcoming list are both optional. */
  datatype Events = Events(nextEvent: Option<Event>, upcomingReleases: Option<seq<UpcomingItem>>)

  /** links.json: the streaming-service URLs. */
  datatype Links = Links(spotify: string, appleMusic: string)

  /**
   * The merged model of the five documents. `releases` is the discography's
   * ordered list (first is latest) and may be missing; `labels` maps label
   * keys to localized values.
   */
  datatype SiteData = SiteData(band: Band, events: Events, releases: Option<seq<Release>>,
                               links: Links, labels: map<string, Localized>)

  /** The two locales the page has date formatters for. */
  datatype Locale = EnUS | EsES

  /** `dateFormatters[lang]`: only "en" and "es" have one; any other code finds none. */
  function LocaleFor(lang: string): (r: Option<Locale>)
    ensures r.Some? <==> lang == "en" || lang == "es"
    ensures r == Some(EsES) <==> lang == "es"
  {
    if lang == "en" then Some(EnUS) else if lang == "es" then Some(EsES) else None
  }

  /** A timestamp formatted as a medium date with a short time in a locale (the formatting itself is not modelled). */
  datatype DateText = DateText(locale: Locale, timestamp: int)

  datatype Fragment =
    | PhotoTile(src: string, alt: string, caption: string)
    | EventCard(kind: string, title: string, location: string, date: DateText, countdown: string)
    | StreamLink(service: string, href: string)
    | LatestRelease(cover: string, title: string, year: string)
    | ReleaseCard(cover: string, title: string, year: string, kind: string, description: string)
    | UpcomingCard(image: string, title: string, location: string, date: DateText, description: string)

  /** One photo as `renderPhotos` shows it. */
  function TileOf(p: Photo, lang: string): Fragment {
    PhotoTile(p.src, Resolve(p.alt, lang), Resolve(p.caption, lang))
  }

  /** `renderPhotos`: one tile per photo, in the given order. */
  function PhotoTiles(photos: seq<Photo>, lang: string): (r: seq<Fragment>)
    ensures |r| == |photos|
    ensures forall i :: 0 <= i < |photos| ==> r[i] == TileOf(photos[i], lang)
  {
    if photos == [] then [] else [TileOf(photos[0], lang)] + PhotoTiles(photos[1..], lang)
  }

  /** The home page's photos: `band.photos.slice(0, 3)`. */
  function HomePhotos(photos: seq<Photo>, lang: string): (r: seq<Fragment>)
    ensures |r| == if |photos| < 3 then |photos| else 3
    ensures forall i :: 0 <= i < |r| ==> r[i] == TileOf(photos[i], lang)
  {
    PhotoTiles(if |photos| < 3 then photos else photos[..3], lang)
  }

  /** The home page shows a prefix of what the about page shows. */
  lemma HomePhotosArePrefixOfAbout(photos: seq<Photo>, lang: string)
    ensures HomePhotos(photos, lang) <= PhotoTiles(photos, lang)
    ensures |photos| >= 3 ==> |HomePhotos(photos, lang)| == 3
  {
  }

  /** The featured-event card of the home page with its countdown as first refreshed at `now`. */
  function EventCardOf(e: Event, locale: Locale, lang: string, now: int): Fragment {
    EventCard(Resolve(e.kind, lang), Resolve(e.title, lang), Resolve(e.location, lang),
              DateText(locale, e.date), Countdown.CountdownText(lang, now, e.date))
  }

  /** The latest-drop art: the first release when there is one, else nothing (the slot is cleared). */
  function LatestDrop(releases: Option<seq<Release>>, lang: string): (r: seq<Fragment>)
    ensures |r| <= 1
    ensures r == [] <==> releases.None? || releases.value == []
    ensures r != [] ==> r[0] == LatestRelease(releases.value[0].cover, Resolve(releases.value[0].title, lang), releases.value[0].year)
  {
    if releases.Some? && releases.value != [] then
      var latest := releases.value[0];
      [LatestRelease(latest.cover, Resolve(latest.title, lang), latest.year)]
    else
      []
  }

  /** One discography card. */
  function CardOf(rel: Release, lang: string): Fragment {
    ReleaseCard(rel.cover, Resolve(rel.title, lang), rel.year, Resolve(rel.kind, lang), Resolve(rel.description, lang))
  }

  /** The music page's discography: one card per release, in order. */
  function ReleaseCards(releases: seq<Release>, lang: string): (r: seq<Fragment>)
    ensures |r| == |releases|
    ensures forall i :: 0 <= i < |releases| ==> r[i] == CardOf(releases[i], lang)
  {
    if releases == [] then [] else [CardOf(releases[0], lang)] + ReleaseCards(releases[1..], lang)
  }

  /** The card of one upcoming item. */
  function UpcomingCardOf(item: UpcomingItem, locale: Locale, lang: string): Fragment {
    UpcomingCard(item.image, Resolve(item.title, lang), Resolve(item.location, lang),
                 DateText(locale, item.date), Resolve(item.description, lang))
  }

  /** `events.upcomingReleases || []`: a missing list is the empty list. */
  function UpcomingItems(events: Events): (r: seq<UpcomingItem>)
    ensures events.upcomingReleases.None? ==> r == []
    ensures events.upcomingReleases.Some? ==> r == events.upcomingReleases.value
  {
    events.upcomingReleases.GetOr([])
  }

  /** The upcoming page's list: one card per item, in order. */
  function UpcomingCards(items: seq<UpcomingItem>, locale: Locale, lang: string): (r: seq<Fragment>)
    ensures |r| == |items|
    ensures forall i :: 0 <= i < |items| ==> r[i] == UpcomingCardOf(items[i], locale, lang)
  {
    if items == [] then [] else [UpcomingCardOf(items[0], locale, lang)] + UpcomingCards(items[1..], locale, lang)
  }
}
