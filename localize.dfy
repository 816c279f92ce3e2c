/**
 * Localized text: the value shape the site's JSON uses for every translatable
 * field, and the resolver `t` of assets/js/app.js that picks a string from it.
 */
module Localize {
  import opened Wrappers

  /**
   * A localized value. `Absent` stands for every falsy JSON value the field
   * may hold (missing, null, false, 0); `Plain` is a language-independent
   * string; `PerLang` maps language codes to strings.
   */
  datatype Localized = Absent | Plain(text: string) | PerLang(entries: map<string, string>)

  /** JavaScript `a || b` on two strings: `a` unless it is the (falsy) empty string. */
  function Or(a: string, b: string): string {
    if a != "" then a else b
  }

  /** Property access `m[key]` on a language map; a missing key reads as undefined, which `||` skips like "". */
  function Entry(m: map<string, string>, key: string): string {
    if key in m then m[key] else ""
  }

  /**
   * The resolver `t(value)` with the current language passed in: falsy gives
   * "", a plain string is returned as it is, a language map gives its
   * non-empty entry for `lang`, else its non-empty "en" entry, else "".
   */
  function Resolve(v: Localized, lang: string): (r: string)
    ensures v.Absent? ==> r == ""
    ensures v.Plain? ==> r == v.text
    ensures v.PerLang? && Entry(v.entries, lang) != "" ==> r == v.entries[lang]
    ensures v.PerLang? && Entry(v.entries, lang) == "" && Entry(v.entries, "en") != "" ==> r == v.entries["en"]
    ensures v.PerLang? && Entry(v.entries, lang) == "" && Entry(v.entries, "en") == "" ==> r == ""
  {
    match v
    case Absent => ""
    case Plain(s) => s  // an empty string is falsy and yields "", which is `s` itself
    case PerLang(m) => Or(Entry(m, lang), Or(Entry(m, "en"), ""))
  }

  /** A language map resolves to one of its own entries or to "": resolution never invents text. */
  lemma ResolveIsAnEntry(m: map<string, string>, lang: string)
    ensures var r := Resolve(PerLang(m), lang);
      r == "" || (lang in m && r == m[lang]) || ("en" in m && r == m["en"])
  {
  }

  /** Resolving a language map looks at the keys `lang` and "en" only. */
  lemma ResolveIgnoresOtherKeys(m1: map<string, string>, m2: map<string, string>, lang: string)
    requires Entry(m1, lang) == Entry(m2, lang) && Entry(m1, "en") == Entry(m2, "en")
    ensures Resolve(PerLang(m1), lang) == Resolve(PerLang(m2), lang)
  {
  }

  /** The worked examples of the resolver's contract. */
  lemma ResolveExamples()
    ensures Resolve(Plain("A"), "es") == "A"
    ensures Resolve(PerLang(map["en" := "A"]), "es") == "A"
    ensures Resolve(PerLang(map["en" := "A", "es" := "B"]), "es") == "B"
    ensures Resolve(PerLang(map[]), "en") == ""
    ensures Resolve(PerLang(map["en" := "A", "es" := ""]), "es") == "A"
  {
  }

  /**
   * The text `applyLabels` writes for one label entry: None when the entry is
   * falsy (the element keeps its text), otherwise
   * `entry[lang] || entry.en || ''`. For a plain-string entry that indexes the
   * string by the language code, which yields undefined, so the text is "".
   */
  function LabelText(entry: Localized, lang: string): (r: Option<string>)
    ensures r.None? <==> entry.Absent? || entry == Plain("")
    ensures entry.PerLang? ==> r == Some(Resolve(entry, lang))
    ensures entry.Plain? && entry.text != "" ==> r == Some("")
  {
    match entry
    case Absent => None
    case Plain(s) => if s == "" then None else Some("")
    case PerLang(_) => Some(Resolve(entry, lang))
  }
}
