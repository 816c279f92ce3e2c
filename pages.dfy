/**
 * The page renderers (`renderHome`, `renderAbout`, `renderMusic`,
 * `renderUpcoming`) and the slot writes of `renderPage`. Each renderer is a
 * view model: the plan of slot writes it performs for the slots the page
 * has, the loaded data, the language and the clock, and whether it stops
 * with an exception part-way (a date formatted for a language without a
 * formatter, a missing discography list). A plan holds exactly the writes
 * made before the exception; applying it to the page's slots is `Apply`.
 */
module Pages {
  import opened Wrappers
  import opened Localize
  import opened Views
  import Countdown

  /** The named output slots of the pages, by element id. */
  datatype Slot =
    | BandName | BandTagline | NextEvent | HomePhotosSlot | LatestDropLinks | LatestDropArt
    | BandBio | AboutPhotos
    | StreamingLinks | DiscographySlot
    | UpcomingTitle | UpcomingMeta | CountdownHero | UpcomingList
    | BrandText | FooterBand

  /** What a slot holds: plain text, a list of fragments, or text followed by a formatted date. */
  datatype Content = Text(text: string) | Html(fragments: seq<Fragment>) | Dated(text: string, date: DateText)

  /** The slots present in the current page's markup, with their content. */
  type Doc = map<Slot, Content>

  /** The writes a render performs, and whether it stopped with an exception after them. */
  datatype Plan = Plan(writes: map<Slot, Content>, thrown: bool)

  /** `if (el) el.… = c` for every write of a plan: a slot the page lacks is skipped. */
  function Apply(doc: Doc, writes: map<Slot, Content>): (r: Doc)
    ensures r.Keys == doc.Keys
    ensures forall s :: s in doc && s in writes ==> r[s] == writes[s]
    ensures forall s :: s in doc && s !in writes ==> r[s] == doc[s]
  {
    map s | s in doc :: if s in writes then writes[s] else doc[s]
  }

  /**
   * Re-rendering overwrites: when the second plan writes every slot the first
   * wrote, applying both is applying the second alone.
   */
  lemma ApplyTwice(doc: Doc, w1: map<Slot, Content>, w2: map<Slot, Content>)
    requires w1.Keys <= w2.Keys
    ensures Apply(Apply(doc, w1), w2) == Apply(doc, w2)
  {
    var a, b := Apply(Apply(doc, w1), w2), Apply(doc, w2);
    forall s | s in a ensures a[s] == b[s] {
    }
  }

  /** Applying two plans one after the other is applying their union, the later write winning. */
  lemma ApplyCompose(doc: Doc, w1: map<Slot, Content>, w2: map<Slot, Content>)
    ensures Apply(Apply(doc, w1), w2) == Apply(doc, w1 + w2)
  {
    var a, b := Apply(Apply(doc, w1), w2), Apply(doc, w1 + w2);
    forall s | s in a ensures a[s] == b[s] {
    }
  }

  const HomeSlots: set<Slot> := {BandName, BandTagline, NextEvent, HomePhotosSlot, LatestDropLinks, LatestDropArt}
  const AboutSlots: set<Slot> := {BandBio, AboutPhotos}
  const MusicSlots: set<Slot> := {StreamingLinks, DiscographySlot}
  const UpcomingSlots: set<Slot> := {UpcomingTitle, UpcomingMeta, CountdownHero, UpcomingList}

  /** The slots the renderer chosen by page id may write. */
  function SlotsOf(page: string): set<Slot> {
    if page == "home" then HomeSlots
    else if page == "about" then AboutSlots
    else if page == "music" then MusicSlots
    else if page == "upcoming" then UpcomingSlots
    else {}
  }

  /** The two streaming buttons of the home page's latest drop. */
  function HomeLinks(links: Links): seq<Fragment> {
    [StreamLink("Spotify", links.spotify), StreamLink("Apple Music", links.appleMusic)]
  }

  /** The streaming links of the music page, Apple Music first. */
  function MusicLinks(links: Links): seq<Fragment> {
    [StreamLink("Apple Music", links.appleMusic), StreamLink("Spotify", links.spotify)]
  }

  /**
   * `renderHome` on a page with slots `keys`: band name and tagline, the
   * next-event card with its countdown, the first three photos, the
   * streaming links and the latest release. Formatting the next event's date
   * throws when `lang` has no date formatter, before the card is written.
   */
  function HomePlan(keys: set<Slot>, d: SiteData, lang: string, now: int): (p: Plan)
    ensures p.writes.Keys <= HomeSlots
    ensures p.thrown <==> NextEvent in keys && d.events.nextEvent.Some? && LocaleFor(lang).None?
    ensures BandName in p.writes && p.writes[BandName] == Text(d.band.name)
    ensures BandTagline in p.writes && p.writes[BandTagline] == Text(Resolve(d.band.tagline, lang))
    ensures p.thrown ==> p.writes.Keys == {BandName, BandTagline}
    ensures !p.thrown ==> HomePhotosSlot in p.writes && LatestDropLinks in p.writes && LatestDropArt in p.writes
    ensures NextEvent in p.writes <==> !p.thrown && NextEvent in keys && d.events.nextEvent.Some?
    ensures NextEvent in p.writes ==>
      p.writes[NextEvent] == Html([EventCardOf(d.events.nextEvent.value, LocaleFor(lang).value, lang, now)])
    ensures HomePhotosSlot in p.writes ==> p.writes[HomePhotosSlot] == Html(HomePhotos(d.band.photos, lang))
    ensures LatestDropLinks in p.writes ==> p.writes[LatestDropLinks] == Html(HomeLinks(d.links))
    ensures LatestDropArt in p.writes ==> p.writes[LatestDropArt] == Html(LatestDrop(d.releases, lang))
  {
    var head := map[BandName := Text(d.band.name), BandTagline := Text(Resolve(d.band.tagline, lang))];
    var next := d.events.nextEvent;
    if NextEvent in keys && next.Some? && LocaleFor(lang).None? then
      Plan(head, true)
    else
      var withCard := if NextEvent in keys && next.Some?
                      then head[NextEvent := Html([EventCardOf(next.value, LocaleFor(lang).value, lang, now)])]
                      else head;
      Plan(withCard[HomePhotosSlot := Html(HomePhotos(d.band.photos, lang))]
                   [LatestDropLinks := Html(HomeLinks(d.links))]
                   [LatestDropArt := Html(LatestDrop(d.releases, lang))], false)
  }

  /** `renderAbout`: the bio and every photo; it never throws. */
  function AboutPlan(d: SiteData, lang: string): (p: Plan)
    ensures p.writes.Keys == AboutSlots && !p.thrown
    ensures BandBio in p.writes && p.writes[BandBio] == Text(Resolve(d.band.bio, lang))
    ensures AboutPhotos in p.writes && p.writes[AboutPhotos] == Html(PhotoTiles(d.band.photos, lang))
  {
    Plan(map[BandBio := Text(Resolve(d.band.bio, lang)), AboutPhotos := Html(PhotoTiles(d.band.photos, lang))], false)
  }

  /**
   * `renderMusic`: the streaming links and one card per release. Mapping
   * over a missing release list throws, before the list slot is written.
   */
  function MusicPlan(keys: set<Slot>, d: SiteData, lang: string): (p: Plan)
    ensures p.writes.Keys <= MusicSlots
    ensures p.thrown <==> DiscographySlot in keys && d.releases.None?
    ensures StreamingLinks in p.writes && p.writes[StreamingLinks] == Html(MusicLinks(d.links))
    ensures DiscographySlot in p.writes <==> DiscographySlot in keys && d.releases.Some?
    ensures DiscographySlot in p.writes ==> p.writes[DiscographySlot] == Html(ReleaseCards(d.releases.value, lang))
  {
    var links := map[StreamingLinks := Html(MusicLinks(d.links))];
    if DiscographySlot in keys then
      if d.releases.None? then Plan(links, true)
      else Plan(links[DiscographySlot := Html(ReleaseCards(d.releases.value, lang))], false)
    else
      Plan(links, false)
  }

  /** The upcoming list's content: missing or empty lists clear it; a non-empty one is dated in `locale`. */
  function UpcomingListContent(items: seq<UpcomingItem>, locale: Locale, lang: string): (c: Content)
    ensures c.Html? && |c.fragments| == |items|
    ensures forall i :: 0 <= i < |items| ==> c.fragments[i] == UpcomingCardOf(items[i], locale, lang)
  {
    Html(UpcomingCards(items, locale, lang))
  }

  /**
   * `renderUpcoming`: when there is a next event, its title, then its
   * location and date (throwing first if `lang` has no date formatter), then
   * its countdown; then the upcoming list, where a missing list is empty and
   * a non-empty one throws when it cannot be dated.
   */
  function UpcomingPlan(keys: set<Slot>, d: SiteData, lang: string, now: int): (p: Plan)
    ensures p.writes.Keys <= UpcomingSlots
    ensures var next := d.events.nextEvent;
      var items := UpcomingItems(d.events);
      var metaThrows := next.Some? && UpcomingMeta in keys && LocaleFor(lang).None?;
      && (p.thrown <==> metaThrows || (UpcomingList in keys && items != [] && LocaleFor(lang).None?))
      && (UpcomingTitle in p.writes <==> next.Some?)
      && (next.Some? ==> p.writes[UpcomingTitle] == Text(Resolve(next.value.title, lang)))
      && (UpcomingMeta in p.writes <==> next.Some? && UpcomingMeta in keys && !metaThrows)
      && (UpcomingMeta in p.writes ==>
            p.writes[UpcomingMeta] == Dated(Resolve(next.value.location, lang), DateText(LocaleFor(lang).value, next.value.date)))
      && (CountdownHero in p.writes <==> next.Some? && !metaThrows)
      && (CountdownHero in p.writes ==> p.writes[CountdownHero] == Text(Countdown.CountdownText(lang, now, next.value.date)))
      && (UpcomingList in p.writes <==> UpcomingList in keys && !p.thrown)
      && (UpcomingList in p.writes ==>
            p.writes[UpcomingList] == UpcomingListContent(items, LocaleFor(lang).GetOr(EnUS), lang))
  {
    var next := d.events.nextEvent;
    var title := if next.Some? then map[UpcomingTitle := Text(Resolve(next.value.title, lang))] else map[];
    if next.Some? && UpcomingMeta in keys && LocaleFor(lang).None? then
      Plan(title, true)
    else
      var meta := if next.Some? && UpcomingMeta in keys
                  then title[UpcomingMeta := Dated(Resolve(next.value.location, lang), DateText(LocaleFor(lang).value, next.value.date))]
                  else title;
      var events := if next.Some? then meta[CountdownHero := Text(Countdown.CountdownText(lang, now, next.value.date))] else meta;
      var items := UpcomingItems(d.events);
      if UpcomingList in keys then
        if items != [] && LocaleFor(lang).None? then Plan(events, true)
        else Plan(events[UpcomingList := UpcomingListContent(items, LocaleFor(lang).GetOr(EnUS), lang)], false)
      else
        Plan(events, false)
  }

  /**
   * The four `if (page === …)` tests of `renderPage`: the renderer whose page
   * id matches runs, and no other; an unknown page id runs none.
   */
  function DispatchPlan(page: string, keys: set<Slot>, d: SiteData, lang: string, now: int): (p: Plan)
    ensures p.writes.Keys <= SlotsOf(page)
    ensures SlotsOf(page) == {} ==> p == Plan(map[], false)
    ensures page == "home" ==> p == HomePlan(keys, d, lang, now)
    ensures page == "about" ==> p == AboutPlan(d, lang)
    ensures page == "music" ==> p == MusicPlan(keys, d, lang)
    ensures page == "upcoming" ==> p == UpcomingPlan(keys, d, lang, now)
  {
    if page == "home" then HomePlan(keys, d, lang, now)
    else if page == "about" then AboutPlan(d, lang)
    else if page == "music" then MusicPlan(keys, d, lang)
    else if page == "upcoming" then UpcomingPlan(keys, d, lang, now)
    else Plan(map[], false)
  }

  /**
   * The slot writes of `renderPage` once data is loaded: the header brand,
   * the page's renderer and, unless that threw, the footer name.
   */
  function PagePlan(page: string, keys: set<Slot>, d: SiteData, lang: string, now: int): (p: Plan)
    ensures p.writes.Keys <= SlotsOf(page) + {BrandText, FooterBand}
    ensures p.thrown == DispatchPlan(page, keys, d, lang, now).thrown
    ensures BrandText in p.writes && p.writes[BrandText] == Text(d.band.name)
    ensures FooterBand in p.writes <==> !p.thrown
    ensures FooterBand in p.writes ==> p.writes[FooterBand] == Text(d.band.name)
    ensures forall s :: s in SlotsOf(page) ==> (s in p.writes <==> s in DispatchPlan(page, keys, d, lang, now).writes)
    ensures forall s :: s in DispatchPlan(page, keys, d, lang, now).writes ==>
      s in p.writes && p.writes[s] == DispatchPlan(page, keys, d, lang, now).writes[s]
  {
    var inner := DispatchPlan(page, keys, d, lang, now);
    assert BrandText !in SlotsOf(page) && FooterBand !in SlotsOf(page);
    var branded := inner.writes[BrandText := Text(d.band.name)];
    if inner.thrown then Plan(branded, true)
    else Plan(branded[FooterBand := Text(d.band.name)], false)
  }

  /**
   * `renderPage`'s writes one step at a time (the brand, then the page's
   * renderer, then the footer unless the renderer threw) end where the
   * whole plan does.
   */
  lemma PagePlanInSteps(page: string, doc: Doc, d: SiteData, lang: string, now: int)
    ensures var inner := DispatchPlan(page, doc.Keys, d, lang, now);
      var plan := PagePlan(page, doc.Keys, d, lang, now);
      var branded := Apply(Apply(doc, map[BrandText := Text(d.band.name)]), inner.writes);
      && (inner.thrown ==> branded == Apply(doc, plan.writes))
      && (!inner.thrown ==> Apply(branded, map[FooterBand := Text(d.band.name)]) == Apply(doc, plan.writes))
  {
    var inner := DispatchPlan(page, doc.Keys, d, lang, now);
    var name := Text(d.band.name);
    assert BrandText !in inner.writes;
    var branded := Apply(Apply(doc, map[BrandText := name]), inner.writes);
    assert branded == Apply(doc, inner.writes[BrandText := name]) by {
      forall s | s in doc ensures branded[s] == Apply(doc, inner.writes[BrandText := name])[s] {
      }
    }
    var footed := Apply(branded, map[FooterBand := name]);
    assert footed == Apply(doc, inner.writes[BrandText := name][FooterBand := name]) by {
      forall s | s in doc ensures footed[s] == Apply(doc, inner.writes[BrandText := name][FooterBand := name])[s] {
      }
    }
  }

  /** The slots after `renderPage` on a page with slots `doc`, and whether it threw. */
  function RenderPage(page: string, doc: Doc, d: SiteData, lang: string, now: int): (r: (Doc, bool))
    ensures r.0.Keys == doc.Keys
    ensures forall s :: s in doc && s !in SlotsOf(page) + {BrandText, FooterBand} ==> r.0[s] == doc[s]
    ensures r.1 == DispatchPlan(page, doc.Keys, d, lang, now).thrown
    ensures BrandText in doc ==> r.0[BrandText] == Text(d.band.name)
    ensures FooterBand in doc ==> r.0[FooterBand] == if r.1 then doc[FooterBand] else Text(d.band.name)
    ensures forall s :: s in doc && s in SlotsOf(page) ==>
      r.0[s] == if s in DispatchPlan(page, doc.Keys, d, lang, now).writes
                then DispatchPlan(page, doc.Keys, d, lang, now).writes[s] else doc[s]
  {
    var p := PagePlan(page, doc.Keys, d, lang, now);
    (Apply(doc, p.writes), p.thrown)
  }

  /** A plan made in a language with no exception writes every slot the same page's plan writes in any language. */
  lemma DispatchPlanCovers(page: string, keys: set<Slot>, d: SiteData, l1: string, l2: string, now: int)
    requires !DispatchPlan(page, keys, d, l2, now).thrown
    ensures DispatchPlan(page, keys, d, l1, now).writes.Keys <= DispatchPlan(page, keys, d, l2, now).writes.Keys
  {
    if page == "home" {
      var p1, p2 := HomePlan(keys, d, l1, now), HomePlan(keys, d, l2, now);
      assert p2.writes.Keys >= {BandName, BandTagline, HomePhotosSlot, LatestDropLinks, LatestDropArt};
    } else if page == "upcoming" {
      var p1, p2 := UpcomingPlan(keys, d, l1, now), UpcomingPlan(keys, d, l2, now);
      forall s | s in p1.writes ensures s in p2.writes {
        assert s in UpcomingSlots;
      }
    }
  }

  /**
   * Switching to `l1` and back to `l2` gives the page `l2` alone gives, as
   * long as rendering in `l2` does not throw: every slot the page writes
   * depends only on the current language, never on what was shown before.
   */
  lemma LanguageRoundTrip(page: string, doc: Doc, d: SiteData, l1: string, l2: string, now: int)
    requires !RenderPage(page, doc, d, l2, now).1
    ensures RenderPage(page, RenderPage(page, doc, d, l1, now).0, d, l2, now) == RenderPage(page, doc, d, l2, now)
  {
    var p1, p2 := PagePlan(page, doc.Keys, d, l1, now), PagePlan(page, doc.Keys, d, l2, now);
    DispatchPlanCovers(page, doc.Keys, d, l1, l2, now);
    assert p1.writes.Keys <= p2.writes.Keys;
    ApplyTwice(doc, p1.writes, p2.writes);
  }

  /** On the home page the photo slot shows the first three photos, or all of them when there are fewer. */
  lemma HomeShowsFirstThreePhotos(doc: Doc, d: SiteData, lang: string, now: int)
    requires HomePhotosSlot in doc && !RenderPage("home", doc, d, lang, now).1
    ensures var shown := RenderPage("home", doc, d, lang, now).0[HomePhotosSlot];
      && shown.Html?
      && |shown.fragments| == (if |d.band.photos| < 3 then |d.band.photos| else 3)
      && forall i :: 0 <= i < |shown.fragments| ==> shown.fragments[i] == TileOf(d.band.photos[i], lang)
  {
  }

  /** On the home page the latest-drop art shows the first release when the list has one. */
  lemma HomeShowsLatestRelease(doc: Doc, d: SiteData, lang: string, now: int)
    requires LatestDropArt in doc && !RenderPage("home", doc, d, lang, now).1
    requires d.releases.Some? && d.releases.value != []
    ensures var first := d.releases.value[0];
      RenderPage("home", doc, d, lang, now).0[LatestDropArt]
        == Html([LatestRelease(first.cover, Resolve(first.title, lang), first.year)])
  {
  }

  /** On the home page the latest-drop art is cleared when the release list is missing or empty. */
  lemma HomeClearsLatestDrop(doc: Doc, d: SiteData, lang: string, now: int)
    requires LatestDropArt in doc && !RenderPage("home", doc, d, lang, now).1
    requires d.releases.None? || d.releases.value == []
    ensures RenderPage("home", doc, d, lang, now).0[LatestDropArt] == Html([])
  {
  }

  /** On the about page the photo slot shows every photo, in order; the page never throws. */
  lemma AboutShowsEveryPhoto(doc: Doc, d: SiteData, lang: string, now: int)
    requires AboutPhotos in doc
    ensures !RenderPage("about", doc, d, lang, now).1
    ensures var shown := RenderPage("about", doc, d, lang, now).0[AboutPhotos];
      && shown.Html?
      && |shown.fragments| == |d.band.photos|
      && forall i :: 0 <= i < |d.band.photos| ==> shown.fragments[i] == TileOf(d.band.photos[i], lang)
  {
  }

  /**
   * On the music page the discography shows one card per release, in order,
   * and rendering throws exactly when the release list is missing.
   */
  lemma MusicShowsEveryRelease(doc: Doc, d: SiteData, lang: string, now: int)
    requires DiscographySlot in doc
    ensures RenderPage("music", doc, d, lang, now).1 <==> d.releases.None?
    ensures d.releases.Some? ==>
      var shown := RenderPage("music", doc, d, lang, now).0[DiscographySlot];
      && shown.Html?
      && |shown.fragments| == |d.releases.value|
      && forall i :: 0 <= i < |d.releases.value| ==> shown.fragments[i] == CardOf(d.releases.value[i], lang)
  {
  }

  /** On the upcoming page a missing upcoming list renders as an empty one and cannot throw. */
  lemma UpcomingMissingListIsEmpty(doc: Doc, d: SiteData, lang: string, now: int)
    requires UpcomingList in doc && d.events.upcomingReleases.None?
    requires !(d.events.nextEvent.Some? && UpcomingMeta in doc && LocaleFor(lang).None?)
    ensures !RenderPage("upcoming", doc, d, lang, now).1
    ensures RenderPage("upcoming", doc, d, lang, now).0[UpcomingList] == Html([])
  {
  }
}
