/**
 * The page controller of assets/js/app.js: the module-level `state`
 * (current language and loaded data), the persisted language preference, and
 * the parts of the document it rewrites in place — the slots, the elements
 * tagged with a label key, the language buttons and the document language.
 */
module Controller {
  import opened Wrappers
  import opened Localize
  import opened Views
  import opened Pages

  /** The fixed, non-localized text shown in the band-name slot when loading fails. */
  const LoadError: string := "Data load error"

  /** An element tagged `data-i18n="key"`, with its current text. */
  datatype LabelledText = LabelledText(key: string, text: string)

  /** A language-selector button `data-lang="code"`, and whether it has the `active` class. */
  datatype LangButton = LangButton(code: string, active: bool)

  /** One element after label substitution: a truthy entry for its key sets its text, anything else keeps it. */
  function Relabel(el: LabelledText, labels: map<string, Localized>, lang: string): (r: LabelledText)
    ensures r.key == el.key
    ensures el.key in labels && LabelText(labels[el.key], lang).Some? ==> r.text == LabelText(labels[el.key], lang).value
    ensures el.key !in labels || LabelText(labels[el.key], lang).None? ==> r.text == el.text
  {
    if el.key in labels && LabelText(labels[el.key], lang).Some? then
      el.(text := LabelText(labels[el.key], lang).value)
    else
      el
  }

  /** The labelled elements after `applyLabels`: same elements in the same order, each relabelled. */
  function Relabelled(els: seq<LabelledText>, labels: map<string, Localized>, lang: string): (r: seq<LabelledText>)
    ensures |r| == |els|
    ensures forall i :: 0 <= i < |els| ==> r[i].key == els[i].key
    ensures forall i :: 0 <= i < |els| && els[i].key in labels && labels[els[i].key].PerLang? ==>
      r[i].text == Resolve(labels[els[i].key], lang)
    ensures forall i :: 0 <= i < |els| && els[i].key !in labels ==> r[i].text == els[i].text
    ensures forall i :: 0 <= i < |els| ==> r[i] == Relabel(els[i], labels, lang)
  {
    if els == [] then [] else [Relabel(els[0], labels, lang)] + Relabelled(els[1..], labels, lang)
  }

  /**
   * Applying the labels in one language and then in another is applying
   * them in the second alone: label text never depends on the text shown before
   * (switching language and switching back restores every label).
   */
  lemma RelabelLastWins(els: seq<LabelledText>, labels: map<string, Localized>, l1: string, l2: string)
    ensures Relabelled(Relabelled(els, labels, l1), labels, l2) == Relabelled(els, labels, l2)
  {
  }

  /** The language buttons after `setActiveLang`: the same buttons, active exactly when their code is `lang`. */
  function Marked(buttons: seq<LangButton>, lang: string): (r: seq<LangButton>)
    ensures |r| == |buttons|
    ensures forall i :: 0 <= i < |buttons| ==> r[i].code == buttons[i].code
    ensures forall i :: 0 <= i < |buttons| ==> (r[i].active <==> buttons[i].code == lang)
  {
    if buttons == [] then [] else [buttons[0].(active := buttons[0].code == lang)] + Marked(buttons[1..], lang)
  }

  /** Two buttons with distinct codes are never both marked active. */
  lemma MarkedSingle(buttons: seq<LangButton>, lang: string, i: int, j: int)
    requires 0 <= i < |buttons| && 0 <= j < |buttons| && i != j
    requires buttons[i].code != buttons[j].code
    ensures !(Marked(buttons, lang)[i].active && Marked(buttons, lang)[j].active)
  {
  }

  /** The page as the script sees it: `state`, the persisted preference, and the document parts it rewrites. */
  class Site {
    /** `state.lang`, the current language code. */
    var lang: string
    /** The persisted language preference (`localStorage` key `lang`). */
    var stored: Option<string>
    /** `state.data`: None until every document has loaded. */
    var data: Option<SiteData>
    /** `document.body.dataset.page`, fixed for the page's lifetime. */
    const page: string
    /** The named slots the page's markup has, with their content. */
    var doc: Doc
    /** The `data-i18n` elements, in document order. */
    var labelled: seq<LabelledText>
    /** The `data-lang` buttons, in document order. */
    var buttons: seq<LangButton>
    /** `document.documentElement.lang`. */
    var docLang: string

    /**
     * The script's start: the language is the persisted preference when it is
     * a non-empty string, else "en"; nothing is loaded yet.
     */
    constructor (stored: Option<string>, page: string, doc: Doc, labelled: seq<LabelledText>,
                 buttons: seq<LangButton>, docLang: string)
      ensures this.lang == if stored.Some? && stored.value != "" then stored.value else "en"
      ensures this.stored == stored && this.data.None? && this.page == page
      ensures this.doc == doc && this.labelled == labelled && this.buttons == buttons && this.docLang == docLang
    {
      this.lang := if stored.Some? && stored.value != "" then stored.value else "en";
      this.stored := stored;
      this.data := None;
      this.page := page;
      this.doc := doc;
      this.labelled := labelled;
      this.buttons := buttons;
      this.docLang := docLang;
    }

    /** `applyLabels`: set the document language, then relabel every tagged element in turn. */
    method ApplyLabels(labels: map<string, Localized>)
      modifies this
      ensures docLang == lang
      ensures labelled == Relabelled(old(labelled), labels, lang)
      ensures lang == old(lang) && stored == old(stored) && data == old(data)
      ensures doc == old(doc) && buttons == old(buttons)
    {
      docLang := lang;
      var before := labelled;
      var i := 0;
      while i < |labelled|
        invariant |labelled| == |before| && 0 <= i <= |before|
        invariant forall j :: 0 <= j < i ==> labelled[j] == Relabel(before[j], labels, lang)
        invariant forall j :: i <= j < |before| ==> labelled[j] == before[j]
        invariant docLang == lang && lang == old(lang) && stored == old(stored) && data == old(data)
        invariant doc == old(doc) && buttons == old(buttons) && before == old(labelled)
      {
        var el := labelled[i];
        if el.key in labels {
          var text := LabelText(labels[el.key], lang);
          if text.Some? {
            labelled := labelled[i := el.(text := text.value)];
          }
        }
        i := i + 1;
      }
      assert labelled == Relabelled(before, labels, lang);
    }

    /** `setActiveLang`: toggle `active` on every language button in turn. */
    method SetActiveLang()
      modifies this
      ensures buttons == Marked(old(buttons), lang)
      ensures lang == old(lang) && stored == old(stored) && data == old(data)
      ensures doc == old(doc) && labelled == old(labelled) && docLang == old(docLang)
    {
      var before := buttons;
      var i := 0;
      while i < |buttons|
        invariant |buttons| == |before| && 0 <= i <= |before|
        invariant forall j :: 0 <= j < i ==> buttons[j] == before[j].(active := before[j].code == lang)
        invariant forall j :: i <= j < |before| ==> buttons[j] == before[j]
        invariant lang == old(lang) && stored == old(stored) && data == old(data)
        invariant doc == old(doc) && labelled == old(labelled) && docLang == old(docLang) && before == old(buttons)
      {
        buttons := buttons[i := buttons[i].(active := buttons[i].code == lang)];
        i := i + 1;
      }
      assert buttons == Marked(before, lang);
    }

    /**
     * `renderPage`: nothing before the data is loaded; afterwards the labels,
     * the language buttons, the header brand, the page's renderer and (unless
     * the renderer threw) the footer, in that order. Returns whether an
     * exception escaped.
     */
    method RenderPage(now: int) returns (thrown: bool)
      modifies this
      ensures lang == old(lang) && stored == old(stored) && data == old(data)
      ensures old(data).None? ==> !thrown && doc == old(doc) && labelled == old(labelled)
                                  && buttons == old(buttons) && docLang == old(docLang)
      ensures old(data).Some? ==>
        && labelled == Relabelled(old(labelled), data.value.labels, lang)
        && buttons == Marked(old(buttons), lang)
        && docLang == lang
        && (doc, thrown) == Pages.RenderPage(page, old(doc), data.value, lang, now)
    {
      if data.None? {
        return false;
      }
      var d := data.value;
      ApplyLabels(d.labels);
      SetActiveLang();
      var start := doc;
      PagePlanInSteps(page, start, d, lang, now);
      doc := Apply(doc, map[BrandText := Text(d.band.name)]);
      var inner := DispatchPlan(page, doc.Keys, d, lang, now);
      doc := Apply(doc, inner.writes);
      if inner.thrown {
        return true;
      }
      doc := Apply(doc, map[FooterBand := Text(d.band.name)]);
      thrown := false;
    }

    /**
     * A click on the language button with code `code`: the language and the
     * persisted preference become `code`, and the page is rendered again.
     */
    method OnLangClick(code: string, now: int) returns (thrown: bool)
      modifies this
      ensures lang == code && stored == Some(code) && data == old(data)
      ensures data.Some? ==> buttons == Marked(old(buttons), code) && docLang == code
      ensures data.Some? ==> labelled == Relabelled(old(labelled), data.value.labels, code)
      ensures data.Some? ==> (doc, thrown) == Pages.RenderPage(page, old(doc), data.value, code, now)
      ensures data.None? ==> !thrown && doc == old(doc) && labelled == old(labelled) && buttons == old(buttons)
                             && docLang == old(docLang)
    {
      lang := code;
      stored := Some(code);
      thrown := RenderPage(now);
    }

    /**
     * `init` once the five documents have been fetched: `loaded` is None when
     * any fetch failed. On failure the band-name slot shows the load error,
     * the data stays as it was and nothing is rendered. On success the data
     * is stored and the page rendered; an exception from rendering is caught
     * by the same handler, which then shows the load error too.
     */
    method Init(loaded: Option<SiteData>, now: int)
      modifies this
      ensures lang == old(lang) && stored == old(stored)
      ensures loaded.None? ==>
        && data == old(data) && labelled == old(labelled) && buttons == old(buttons) && docLang == old(docLang)
        && doc == Apply(old(doc), map[BandName := Text(LoadError)])
      ensures loaded.Some? ==>
        && data == loaded
        && labelled == Relabelled(old(labelled), loaded.value.labels, lang)
        && buttons == Marked(old(buttons), lang)
        && docLang == lang
        && var (rendered, thrown) := Pages.RenderPage(page, old(doc), loaded.value, lang, now);
           doc == if thrown then Apply(rendered, map[BandName := Text(LoadError)]) else rendered
    {
      match loaded
      case None =>
        doc := Apply(doc, map[BandName := Text(LoadError)]);
      case Some(d) =>
        data := Some(d);
        var thrown := RenderPage(now);
        if thrown {
          doc := Apply(doc, map[BandName := Text(LoadError)]);
        }
    }
  }
}
