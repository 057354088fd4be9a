/** The output half of AudiobookAlbum.search: each ranked hit becomes a search
    result whose display name is the (possibly truncated) title, the localized
    "by" and the author. Outside manual mode, when there is more than one hit,
    emission stops right after the first hit scoring at least GOOD_SCORE. */
module Emission {
  import opened Wrappers
  import opened Text
  import opened Locale
  import opened Rows
  import opened Scoring
  import opened Ranking

  /** The MetadataSearchResult appended to the host's `results`. */
  datatype SearchResult = SearchResult(
    id: string,
    lang: Language,
    name: string,
    score: int,
    thumb: Option<string>,
    year: Option<int>)

  /** A title longer than 38 characters is cut to its first 32 and marked with
      "..": never longer than 38, unchanged exactly when it fits. */
  function TruncateTitle(t: string): (r: string)
    ensures |r| <= 38
    ensures r == t <==> |t| <= 38
    ensures |t| > 38 ==> |r| == 34 && r[..32] == t[..32] && EndsWith(r, "..")
  {
    if |t| > 38 then t[..32] + ".." else t
  }

  lemma TruncateIdempotent(t: string)
    ensures TruncateTitle(TruncateTitle(t)) == TruncateTitle(t)
  {
  }

  /** '"%s" %s %s' % (title_trunc, localized_sep, artist). */
  function DisplayName(title: string, lang: Language, artist: string): string {
    "\"" + TruncateTitle(title) + "\" " + LocalizedBy(lang) + " " + artist
  }

  function ResultOf(hit: Hit, lang: Language): SearchResult {
    SearchResult(hit.id, lang, DisplayName(hit.title, lang, hit.artist), hit.score, hit.thumb, hit.year)
  }

  /** `results` holds the results of the first |results| hits, in order, and
      stops where the source's loop breaks. */
  predicate EmissionOf(info: seq<Hit>, lang: Language, manual: bool, results: seq<SearchResult>) {
    |results| <= |info|
    && (forall i :: 0 <= i < |results| ==> results[i] == ResultOf(info[i], lang))
    && (manual || |info| <= 1 ==> |results| == |info|)
    && (!manual && |info| > 1 ==>
          |results| >= 1
          && (forall i :: 0 <= i < |results| - 1 ==> info[i].score < GoodScore)
          && (|results| == |info| || info[|results| - 1].score >= GoodScore))
  }

  /** The emission loop of search. */
  method EmitResults(info: seq<Hit>, lang: Language, manual: bool) returns (results: seq<SearchResult>)
    ensures EmissionOf(info, lang, manual, results)
  {
    results := [];
    var i := 0;
    while i < |info|
      invariant 0 <= i <= |info| && |results| == i
      invariant forall j :: 0 <= j < i ==> results[j] == ResultOf(info[j], lang)
      invariant !manual && |info| > 1 ==> forall j :: 0 <= j < i ==> info[j].score < GoodScore
    {
      var r := info[i];
      results := results + [ResultOf(r, lang)];
      if !manual && |info| > 1 && r.score >= GoodScore {
        return;
      }
      i := i + 1;
    }
  }

  /** The stopping rule leaves no choice: at most one list of results meets it. */
  lemma EmissionIsUnique(info: seq<Hit>, lang: Language, manual: bool, r1: seq<SearchResult>, r2: seq<SearchResult>)
    requires EmissionOf(info, lang, manual, r1) && EmissionOf(info, lang, manual, r2)
    ensures r1 == r2
  {
  }

  /** Two hits scoring 99 and 80, automatic search: only the first is emitted. */
  lemma GoodScoreStopsEmission(a: Hit, b: Hit, lang: Language, results: seq<SearchResult>)
    requires a.score == 99 && b.score == 80
    requires EmissionOf([a, b], lang, false, results)
    ensures results == [ResultOf(a, lang)]
  {
    var info := [a, b];
    assert info[0].score >= GoodScore;
    assert |results| == 1;
  }

  datatype SearchError = RowFailed(error: RowError)

  /** AudiobookAlbum.search once the page is fetched: parse the rows, rank
      them, emit. A row that raises aborts the whole search. */
  method Search(h: SearchHelper, manual: bool, raws: seq<ScrapedRow>, parseDate: string -> Option<Date>)
    returns (outcome: Result<seq<SearchResult>, SearchError>)
    ensures outcome.Failure? <==> ParseRows(raws, raw => ParseRow(raw, parseDate)).Failure?
    ensures outcome.Success? ==>
              EmissionOf(Ranked(h, ParseRows(raws, raw => ParseRow(raw, parseDate)).value),
                         h.item.lang, manual, outcome.value)
  {
    var found := BeforeXPath(raws, parseDate);
    if found.Failure? {
      return Failure(RowFailed(found.error));
    }
    if found.value == [] {
      // No results: nothing is appended.
      assert Kept(h, found.value) == [];
      return Success([]);
    }
    var info := RunSearch(h, found.value);
    var results := EmitResults(info, h.item.lang, manual);
    outcome := Success(results);
  }
}
