/** score_result and its three deductions. A row starts at INITIAL_SCORE and
    loses the edit distance between the local album title and the row title,
    the edit distance between the local author and the row author when a local
    author is known, and two points when the row's language is not the library
    language. The deductions are summed; nothing floors the total. */
module Scoring {
  import opened Wrappers
  import opened Distance
  import opened Locale
  import opened Rows

  const InitialScore := 100
  const GoodScore := 98
  const IgnoreScore := 45

  /** What the scorer reads from the host's media item: the album title as the
      library has it, the (validated) author, "" when there is none, and the
      library language. */
  datatype LocalItem = LocalItem(album: string, artist: string, lang: Language)

  function ScoreAlbum(item: LocalItem, title: string): (d: nat)
    ensures d == 0 <==> title == item.album
  {
    var d := Levenshtein(item.album, title);
    if d == 0 then LevenshteinZero(item.album, title); d
    else LevenshteinSelf(title); d
  }

  /** None when the library has no author: the source then returns nothing. */
  function ScoreAuthor(author: string, item: LocalItem): (d: Option<nat>)
    ensures d.None? <==> item.artist == ""
    ensures d.Some? ==> (d.value == 0 <==> author == item.artist)
  {
    if item.artist != "" then
      var d := Levenshtein(item.artist, author);
      if d == 0 then LevenshteinZero(item.artist, author); Some(d)
      else LevenshteinSelf(author); Some(d)
    else None
  }

  function ScoreLanguage(item: LocalItem, language: string): (d: nat)
    ensures d == 0 || d == 2
    ensures d == 0 <==> language == LanguageName(item.lang)
  {
    if language != LanguageName(item.lang) then 2 else 0
  }

  /** `all_scores`: the deductions that are truthy, in the order computed. */
  function AllScores(item: LocalItem, row: Row): seq<nat> {
    var title := ScoreAlbum(item, row.title);
    var author := ScoreAuthor(row.author, item);
    var lang := ScoreLanguage(item, row.language);
    (if title != 0 then [title] else [])
    + (if author.Some? && author.value != 0 then [author.value] else [])
    + (if lang != 0 then [lang] else [])
  }

  /** The `reduce(lambda x, y: x + y, numberlist, 0)` of score_result. */
  function Sum(xs: seq<nat>): nat
    decreases |xs|
  {
    if xs == [] then 0 else xs[0] + Sum(xs[1..])
  }

  lemma {:induction false} SumAppend(a: seq<nat>, b: seq<nat>)
    ensures Sum(a + b) == Sum(a) + Sum(b)
    decreases |a|
  {
    if a != [] {
      assert (a + b)[1..] == a[1..] + b;
      SumAppend(a[1..], b);
    } else {
      assert a + b == b;
    }
  }

  /** The score of one row: the initial score less the sum of the three
      deductions, the author one counted only when a local author exists. */
  function ScoreResult(item: LocalItem, row: Row): (score: int)
    ensures score == InitialScore
                     - (Levenshtein(item.album, row.title)
                        + (if item.artist != "" then Levenshtein(item.artist, row.author) else 0)
                        + (if row.language == LanguageName(item.lang) then 0 else 2))
  {
    var title := ScoreAlbum(item, row.title);
    var author := ScoreAuthor(row.author, item);
    var lang := ScoreLanguage(item, row.language);
    var a := if title != 0 then [title] else [];
    var b := if author.Some? && author.value != 0 then [author.value] else [];
    var c := if lang != 0 then [lang] else [];
    SumAppend(a, b);
    SumAppend(a + b, c);
    InitialScore - Sum(AllScores(item, row))
  }

  lemma ScoreAtMostInitial(item: LocalItem, row: Row)
    ensures ScoreResult(item, row) <= InitialScore
  {
  }

  /** A row scores the full 100 exactly when its title, its author (if a local
      author is known) and its language all match. */
  lemma PerfectScore(item: LocalItem, row: Row)
    ensures ScoreResult(item, row) == InitialScore
            <==> row.title == item.album
                 && (item.artist == "" || row.author == item.artist)
                 && row.language == LanguageName(item.lang)
  {
    var t := ScoreAlbum(item, row.title);
    var a := ScoreAuthor(row.author, item);
  }

  /** The deductions are bounded by the lengths involved, so a row never scores
      below 100 less the longer title, the longer author and the language
      penalty. */
  lemma ScoreLowerBound(item: LocalItem, row: Row)
    ensures ScoreResult(item, row) >= InitialScore
              - ((if |item.album| >= |row.title| then |item.album| else |row.title|)
                 + (if |item.artist| >= |row.author| then |item.artist| else |row.author|)
                 + 2)
  {
    LevenshteinUpper(item.album, row.title);
    LevenshteinUpper(item.artist, row.author);
  }

  /** An exact title in the library language with no local author: score 100. */
  lemma ExactTitleScoresFull()
    ensures ScoreResult(LocalItem("The Hobbit", "", English),
                        Row("J. R. R. Tolkien", None, "English", "Andy Serkis", None, "The Hobbit", None))
            == InitialScore
  {
    LevenshteinSelf("The Hobbit");
  }

  /** Nothing floors the score: a long local title against an empty row title
      in another language goes below zero. */
  lemma ScoreCanBeNegative()
    ensures ScoreResult(LocalItem(seq(110, _ => 'x'), "", English),
                        Row("", None, "Deutsch", "", None, "", None)) == -12
  {
  }
}
