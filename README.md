# A verified model of the site renderer's logic

The system is a client-side renderer for a band's promotional site. It loads
five JSON documents (band, events, discography, links, labels) and keeps them
as the page's data. It fills the page's named slots with localized text, photo
grids, release lists and event cards. It shows a countdown to the next event
and lets the visitor switch language. This project models the logic of
`assets/js/app.js` in Dafny:

- `Localize` (localize.dfy): the localized-value shape
  `Absent | Plain | PerLang` and the resolver `t`, with the language passed
  in. It also holds the text `applyLabels` takes from a label entry.
- `Countdown` (countdown.dfy): one refresh of the countdown widget. The
  remaining milliseconds `end - now` become the live message or a
  days/hours/minutes/seconds reading, and then the slot text. A lemma ties the
  integer model to the source's floating-point `Math.floor((diff / k) % n)`
  expressions, evaluated over exact reals.
- `Views` (views.dfy): the data entities and the fragment lists that the
  renderers interpolate (photo tiles, release cards, upcoming cards, the
  latest drop). Fragments are abstract values, not HTML.
- `Pages` (pages.dfy): the four page renderers and the slot writes of
  `renderPage`, as plans of slot writes. A plan also records whether the
  renderer stopped with an exception part-way. `Apply` puts a plan onto the
  slots the page's markup has.
- `Controller` (controller.dfy): the module-level state as a class `Site`.
  It holds the language, the persisted preference, the data, the slots, the
  label-tagged elements, the language buttons and the document language. Its
  methods are `applyLabels` and `setActiveLang` (loops that rewrite elements
  in place), `renderPage`, the language-button click handler and the outcome
  of `init`.

Three behaviours of the code are easy to miss; the model follows the code:

- A label entry that is a plain, non-empty string gives the element the text
  "", not the string. `applyLabels` indexes the entry by the language code
  (`entry[lang] || entry.en || ''`), which yields undefined on a string. Only
  `t` returns plain strings unchanged.
- `dateFormatters` has formatters for "en" and "es" only. Formatting a date
  in any other language throws a TypeError. During `init` the `catch` block
  catches it and writes "Data load error" into the band-name slot, even though
  the data was stored.
- `renderMusic` throws when the discography has no `releases` list and the
  page has the discography slot. `renderHome` tolerates the missing list and
  clears the latest-drop art.

## Model

| member | source | states |
|---|---|---|
| Localize.Resolve | assets/js/app.js:11-15 | falsy gives ""; a plain string is returned unchanged in every language; a language map gives its non-empty `lang` entry, else its non-empty `en` entry, else "" |
| Localize.ResolveIsAnEntry | assets/js/app.js:14 | a language map resolves to its `lang` entry, its `en` entry or "", never to other text |
| Localize.ResolveIgnoresOtherKeys | assets/js/app.js:14 | two maps that agree on the `lang` and `en` entries resolve alike: no other key matters |
| Localize.ResolveExamples | assets/js/app.js:11-15 | the worked cases: plain "A" in "es" is "A"; {en:A} in "es" is "A"; {en:A, es:B} in "es" is "B"; {} is ""; an empty `es` entry falls through to `en` |
| Localize.LabelText | assets/js/app.js:21-23 | a falsy label entry leaves the element alone; a language-map entry gives exactly the resolved text; a non-empty plain-string entry gives "" |
| Countdown.JsQuotientIsDiv | assets/js/app.js:59 | `Math.floor(diff / k)` equals the integer quotient `diff / k` for every integer difference |
| Countdown.JsUnitIsMod | assets/js/app.js:60-62 | for a positive difference, `Math.floor((diff / k) % n)` with JavaScript's remainder equals `(diff / k) % n` |
| Countdown.Decompose | assets/js/app.js:59-62 | for a positive difference: hours < 24, minutes < 60, seconds < 60, and days*86400 + hours*3600 + minutes*60 + seconds is the whole seconds of the difference |
| Countdown.DecomposeMatchesSource | assets/js/app.js:59-62 | the integer reading is exactly what the four floating-point expressions of the source compute |
| Countdown.DecomposeUnique | assets/js/app.js:59-62 | any days/hours/minutes/seconds within those bounds that make up the whole seconds are the ones shown |
| Countdown.Tick | assets/js/app.js:52-62 | the live message exactly when `end - now <= 0` (Spanish exactly when the language is "es"); otherwise a reading with the bounds and the seconds identity |
| Countdown.CountdownText | assets/js/app.js:55-63 | the slot text is the language's live message at or after the target, otherwise the decimal days, hours, minutes and seconds of the decomposition with their `d`/`h`/`m`/`s` suffixes |
| Countdown.Decimal | assets/js/app.js:63 | a number prints as a non-empty string of decimal digits without a leading zero |
| Countdown.DecimalRoundTrip | assets/js/app.js:63 | reading the printed digits back gives the number |
| Countdown.CountdownTextLive | assets/js/app.js:55-57 | at or after the target the slot text is the live message for the language |
| Countdown.CountdownTextExample | assets/js/app.js:59-63 | 90061 seconds ahead renders "1d 1h 1m 1s" |
| Countdown.CountdownTextTwoDays | assets/js/app.js:59-63 | exactly two days ahead renders "2d 0h 0m 0s" |
| Views.LocaleFor | assets/js/app.js:6-9 | a date formatter exists exactly for "en" and "es", the Spanish one exactly for "es" |
| Views.PhotoTiles | assets/js/app.js:34-46 | one tile per photo, in order, each with the photo's source and resolved alt text and caption |
| Views.HomePhotos | assets/js/app.js:95 | min(3, number of photos) tiles, the first photos in order |
| Views.HomePhotosArePrefixOfAbout | assets/js/app.js:95 | the home grid is a prefix of the full grid and has exactly three tiles when there are at least three photos |
| Views.LatestDrop | assets/js/app.js:105-118 | at most one fragment; none exactly when the release list is missing or empty; otherwise the first release's cover, resolved title and year |
| Views.ReleaseCards | assets/js/app.js:144-156 | one card per release, in order |
| Views.UpcomingItems | assets/js/app.js:176 | a missing upcoming list is the empty list; a present one is used as it is |
| Views.UpcomingCards | assets/js/app.js:177-190 | one card per upcoming item, in order, dated in the current locale |
| Pages.Apply | assets/js/app.js:75-76 | a write reaches a slot only when the page has that slot; no slot is added or removed; unwritten slots keep their content |
| Pages.ApplyTwice | assets/js/app.js:240-244 | a later render that writes every slot an earlier one wrote hides the earlier render entirely |
| Pages.HomePlan | assets/js/app.js:71-120 | name and tagline are always written; the render throws exactly when a next event must be dated in a language without a formatter, and then writes nothing more; otherwise the card, the first three photos, the links and the latest drop |
| Pages.AboutPlan | assets/js/app.js:122-128 | writes the resolved bio and every photo, and never throws |
| Pages.MusicPlan | assets/js/app.js:130-158 | the links are always written; the render throws exactly when the page has the list slot and the release list is missing; otherwise one card per release |
| Pages.UpcomingListContent | assets/js/app.js:174-191 | the upcoming list holds one card per item, card i being item i dated in the given locale |
| Pages.UpcomingPlan | assets/js/app.js:160-192 | with a next event: its title, then its location and date (throwing first when undatable), then its countdown; then the list, where a missing list is empty and a non-empty list throws when undatable |
| Pages.DispatchPlan | assets/js/app.js:203-207 | the renderer named by the page id runs (home, about, music or upcoming plan), and only slots of that page are written; an unknown id writes nothing and cannot throw |
| Pages.PagePlan | assets/js/app.js:194-211 | the brand is always written; the footer is written exactly when the page renderer did not throw; every write of the page renderer is kept with its value, and no other page slot is written |
| Pages.RenderPage | assets/js/app.js:194-211 | the page keeps its slots; it throws exactly when the page renderer does; the brand shows the band name, the footer shows it unless the render threw, each page slot holds the renderer's write or its old content, and every other slot is unchanged |
| Pages.DispatchPlanCovers | assets/js/app.js:203-207 | a render that does not throw writes every slot that a render of the same page in another language writes |
| Pages.LanguageRoundTrip | assets/js/app.js:240-244 | switching to one language and back gives the slots that rendering in the second language alone gives, when that render does not throw |
| Pages.AboutShowsEveryPhoto | assets/js/app.js:122-128 | after rendering the about page, its photo slot holds one tile per photo in order, and the render never throws |
| Pages.MusicShowsEveryRelease | assets/js/app.js:130-158 | after rendering the music page, it throws exactly when the release list is missing, and otherwise the list holds one card per release in order |
| Pages.HomeShowsFirstThreePhotos | assets/js/app.js:94-95 | after rendering the home page, its photo slot holds min(3, photos) tiles of the first photos in order |
| Pages.HomeShowsLatestRelease | assets/js/app.js:105-114 | after rendering the home page with a non-empty release list, the latest-drop art shows the first release |
| Pages.HomeClearsLatestDrop | assets/js/app.js:105-118 | the latest-drop art is cleared when the release list is missing or empty |
| Pages.UpcomingMissingListIsEmpty | assets/js/app.js:174-191 | a missing upcoming list renders as an empty list and cannot make the render throw |
| Controller.Relabel | assets/js/app.js:20-24 | the element keeps its key; its text becomes the entry's label text when the entry is truthy and stays otherwise |
| Controller.Relabelled | assets/js/app.js:17-26 | same element count, order and keys; an element with a language-map entry gets the resolved text; an element without an entry keeps its text |
| Controller.RelabelLastWins | assets/js/app.js:17-26 | applying labels in one language and then another equals applying them in the second alone |
| Controller.Marked | assets/js/app.js:28-32 | same buttons in order; each is active exactly when its code equals the language |
| Controller.MarkedSingle | assets/js/app.js:28-32 | two buttons with different codes are never both active |
| Controller.Site.constructor | assets/js/app.js:1-4 | the language is the persisted preference when that is a non-empty string, else "en"; no data is loaded |
| Controller.Site.ApplyLabels | assets/js/app.js:17-26 | the document language becomes the current language; the labelled elements are relabelled in place; nothing else changes |
| Controller.Site.SetActiveLang | assets/js/app.js:28-32 | the buttons are re-marked in place for the current language; nothing else changes |
| Controller.Site.RenderPage | assets/js/app.js:194-211 | with no data nothing changes; otherwise labels, buttons, document language and slots become those of the pure model, and the method reports whether an exception escaped |
| Controller.Site.OnLangClick | assets/js/app.js:240-244 | the language and the persisted preference become the clicked code; once data is loaded the same buttons are re-marked for the clicked code, the document language becomes it, the labels are relabelled and the page is rendered in that language; without data nothing else changes |
| Controller.Site.Init | assets/js/app.js:213-236 | on a failed load the band-name slot shows "Data load error", the data stays unloaded and nothing else changes; on success the data is stored, the labels, buttons and document language follow the current language and the page is rendered, and an exception from rendering also ends with the load error |

## Left out

- Network loading (`fetch`, `Promise.all`, `res.json()`, the `no-store` cache option, HTTP status checks) is not modelled. `Init` takes the outcome as an input: the merged data, or None when any document failed.
- `localStorage` is a plain `stored` field of `Site`.
- `console.error` logging is left out.
- Timers (`setInterval`, `clearInterval`) are left out. The model does not capture repeated ticks, the cancel handle or the timer that re-rendering leaves running. Each countdown is one refresh at a `now` given as a parameter.
- `Intl.DateTimeFormat` output is left out. A formatted date is the abstract `DateText(locale, timestamp)`.
- HTML markup, `innerHTML` templates and DOM queries by id or attribute are left out. Slots hold abstract fragments.
- The model assumes the `countdown-home` element exists whenever the next-event card was written, because the card's markup creates it.
- Label-tagged elements, language buttons and slots are three separate collections. An element that is both a slot and label-tagged is not modelled.
- Dates are integer millisecond timestamps. Invalid date strings (NaN) are not modelled.
- JsUnitIsMod: states the source's expressions over exact reals, not IEEE doubles. Double rounding is not modelled.
- JSON fields other than `nextEvent`, `upcomingReleases`, `discography.releases` and `band.photos` are assumed present; `Photo` lists and `Links` are always given. A missing `band.photos` throws on the home page (the `.slice` at assets/js/app.js:95) and leaves the about photos unchanged (the guard at line 35). A missing `links.streaming` throws when the page has a links slot (lines 98 and 133). None of this is modelled.
- Property lookups that reach `Object.prototype` are not modelled. Examples: a label key or language code such as "toString", or a language code that is an index or "length" of a plain-string label entry.
- Event-listener wiring on `DOMContentLoaded` is not modelled. Each click is one call of `OnLangClick`.
