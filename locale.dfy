/** The four library languages the agent declares, with the two per-language
    tables it keeps: the language name the catalogue prints on a search row,
    and the localized word "by" placed between title and author. */
module Locale {

  datatype Language = English | German | French | Italian

  /** The table in score_language. */
  function LanguageName(l: Language): string {
    match l
    case English => "English"
    case German => "Deutsch"
    case French => "Fran\U{E7}ais"
    case Italian => "Italiano"
  }

  /** The table in search. */
  function LocalizedBy(l: Language): string {
    match l
    case English => "by"
    case German => "von"
    case French => "de"
    case Italian => "di"
  }
}
