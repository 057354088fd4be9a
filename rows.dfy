/** One search-result row as before_xpath turns it from probed strings into a
    record: the release date is the first "dd-dd-dd" in the date text, failing
    that the first "dd.dd.dddd", and the language is the second word of the
    language text. When either is missing the source raises (`.group` on None,
    an IndexError), which aborts the whole search. */
module Rows {
  import opened Wrappers
  import opened Text
  import opened Scan

  datatype Date = Date(year: int, month: int, day: int)

  /** The string values the XPath probes of one productListItem yield. */
  datatype ScrapedRow = ScrapedRow(
    author: string,
    dateText: string,
    languageText: string,
    narrator: string,
    url: Option<string>,
    title: string,
    thumb: Option<string>)

  /** The record appended to `found`. */
  datatype Row = Row(
    author: string,
    date: Option<Date>,
    language: string,
    narrator: string,
    thumb: Option<string>,
    title: string,
    url: Option<string>)

  datatype RowError = NoReleaseDate | NoLanguageWord

  /** `\d{2}[-]\d{2}[-]\d{2}` matches at k. */
  predicate DashedAt(s: string, k: nat) {
    k + 8 <= |s|
    && IsDigit(s[k]) && IsDigit(s[k + 1]) && s[k + 2] == '-'
    && IsDigit(s[k + 3]) && IsDigit(s[k + 4]) && s[k + 5] == '-'
    && IsDigit(s[k + 6]) && IsDigit(s[k + 7])
  }

  /** `\d{2}[.]\d{2}[.]\d{4}` matches at k. */
  predicate DottedAt(s: string, k: nat) {
    k + 10 <= |s|
    && IsDigit(s[k]) && IsDigit(s[k + 1]) && s[k + 2] == '.'
    && IsDigit(s[k + 3]) && IsDigit(s[k + 4]) && s[k + 5] == '.'
    && IsDigit(s[k + 6]) && IsDigit(s[k + 7]) && IsDigit(s[k + 8]) && IsDigit(s[k + 9])
  }

  /** The matched date text, or None where the source raises. */
  function ReleaseDateText(t: string): (r: Option<string>)
    ensures (exists k: nat :: DashedAt(t, k)) ==>
              exists k: nat :: DashedAt(t, k) && r == Some(t[k..k + 8])
                          && forall j: nat :: j < k ==> !DashedAt(t, j)
    ensures !(exists k: nat :: DashedAt(t, k)) && (exists k: nat :: DottedAt(t, k)) ==>
              exists k: nat :: DottedAt(t, k) && r == Some(t[k..k + 10])
                          && forall j: nat :: j < k ==> !DottedAt(t, j)
    ensures r.None? <==> !(exists k: nat :: DashedAt(t, k)) && !(exists k: nat :: DottedAt(t, k))
  {
    var dashed := (k: nat) => DashedAt(t, k);
    var dotted := (k: nat) => DottedAt(t, k);
    match FirstWhere(0, |t|, dashed)
    case Some(k) =>
      forall j: nat | j < k ensures !DashedAt(t, j) { assert !dashed(j); }
      Some(t[k..k + 8])
    case None =>
      forall j: nat ensures !DashedAt(t, j) { if j <= |t| { assert !dashed(j); } }
      match FirstWhere(0, |t|, dotted)
      case Some(k) =>
        forall j: nat | j < k ensures !DottedAt(t, j) { assert !dotted(j); }
        Some(t[k..k + 10])
      case None =>
        forall j: nat ensures !DottedAt(t, j) { if j <= |t| { assert !dotted(j); } }
        None
  }

  /** `text.split()[1]`, or None where the source raises IndexError. */
  function SecondWord(t: string): (r: Option<string>)
    ensures r.Some? <==> |Words(t)| >= 2
    ensures r.Some? ==> r.value == Words(t)[1] && r.value != [] && NoSpace(r.value)
  {
    var w := Words(t);
    if |w| >= 2 then Some(w[1]) else None
  }

  /** One pass of before_xpath's loop; `parseDate` is Datetime.ParseDate as
      wrapped by getDateFromString. */
  function ParseRow(raw: ScrapedRow, parseDate: string -> Option<Date>): Result<Row, RowError>
  {
    match ReleaseDateText(raw.dateText)
    case None => Failure(NoReleaseDate)
    case Some(d) =>
      match SecondWord(raw.languageText)
      case None => Failure(NoLanguageWord)
      case Some(language) =>
        Success(Row(raw.author, parseDate(d), language, raw.narrator, raw.thumb, raw.title, raw.url))
  }

  /** A row fails exactly when its date text or its language text lacks the
      pattern; otherwise it carries the parsed date, the second language word
      and the other probes unchanged. */
  lemma ParseRowSpec(raw: ScrapedRow, parseDate: string -> Option<Date>)
    ensures ParseRow(raw, parseDate).Failure? <==> ReleaseDateText(raw.dateText).None? || SecondWord(raw.languageText).None?
    ensures ReleaseDateText(raw.dateText).None? ==> ParseRow(raw, parseDate) == Failure(NoReleaseDate)
    ensures ParseRow(raw, parseDate).Success? ==>
              ParseRow(raw, parseDate).value.date == parseDate(ReleaseDateText(raw.dateText).value)
              && ParseRow(raw, parseDate).value.language == Words(raw.languageText)[1]
              && (ParseRow(raw, parseDate).value.author, ParseRow(raw, parseDate).value.narrator, ParseRow(raw, parseDate).value.title) == (raw.author, raw.narrator, raw.title)
              && (ParseRow(raw, parseDate).value.url, ParseRow(raw, parseDate).value.thumb) == (raw.url, raw.thumb)
  {
  }

  /** A whole page: every row parsed in document order by `parse`, or the
      error of the first row that raises. */
  function ParseRows(raws: seq<ScrapedRow>, parse: ScrapedRow -> Result<Row, RowError>): (r: Result<seq<Row>, RowError>)
    ensures r.Success? ==> |r.value| == |raws|
    decreases |raws|
  {
    if raws == [] then Success([])
    else
      match ParseRows(raws[..|raws| - 1], parse)
      case Failure(e) => Failure(e)
      case Success(rows) =>
        match parse(raws[|raws| - 1])
        case Failure(e) => Failure(e)
        case Success(row) => Success(rows + [row])
  }

  /** The page parses exactly when every row does, and then row by row. */
  lemma {:induction false} ParseRowsSuccess(raws: seq<ScrapedRow>, parse: ScrapedRow -> Result<Row, RowError>)
    ensures ParseRows(raws, parse).Success? <==> forall i :: 0 <= i < |raws| ==> parse(raws[i]).Success?
    ensures ParseRows(raws, parse).Success? ==>
              forall i :: 0 <= i < |raws| ==> ParseRows(raws, parse).value[i] == parse(raws[i]).value
    decreases |raws|
  {
    if raws != [] {
      var init := raws[..|raws| - 1];
      ParseRowsSuccess(init, parse);
      assert forall i :: 0 <= i < |init| ==> init[i] == raws[i];
    }
  }

  /** A failing page reports the error of its first failing row. */
  lemma {:induction false} ParseRowsFailure(raws: seq<ScrapedRow>, parse: ScrapedRow -> Result<Row, RowError>)
    requires ParseRows(raws, parse).Failure?
    ensures exists i :: 0 <= i < |raws| && parse(raws[i]).Failure?
              && ParseRows(raws, parse).error == parse(raws[i]).error
              && forall j :: 0 <= j < i ==> parse(raws[j]).Success?
    decreases |raws|
  {
    var init := raws[..|raws| - 1];
    assert forall i :: 0 <= i < |init| ==> init[i] == raws[i];
    if ParseRows(init, parse).Failure? {
      ParseRowsFailure(init, parse);
    } else {
      ParseRowsSuccess(init, parse);
    }
  }

  /** Once a prefix fails, every longer prefix fails with the same error. */
  lemma {:induction false} FailureSticks(raws: seq<ScrapedRow>, parse: ScrapedRow -> Result<Row, RowError>, i: nat)
    requires i <= |raws| && ParseRows(raws[..i], parse).Failure?
    ensures ParseRows(raws, parse) == ParseRows(raws[..i], parse)
    decreases |raws| - i
  {
    if i < |raws| {
      assert raws[..i + 1][..i] == raws[..i];
      FailureSticks(raws, parse, i + 1);
    } else {
      assert raws[..i] == raws;
    }
  }

  /** before_xpath's loop over the result rows. */
  method BeforeXPath(raws: seq<ScrapedRow>, parseDate: string -> Option<Date>)
    returns (found: Result<seq<Row>, RowError>)
    ensures found == ParseRows(raws, raw => ParseRow(raw, parseDate))
  {
    var parse := raw => ParseRow(raw, parseDate);
    var rows: seq<Row> := [];
    var i := 0;
    while i < |raws|
      invariant 0 <= i <= |raws|
      invariant ParseRows(raws[..i], parse) == Success(rows)
    {
      var r := parse(raws[i]);
      assert raws[..i + 1][..i] == raws[..i];
      if r.Failure? {
        found := Failure(r.error);
        FailureSticks(raws, parse, i + 1);
        return;
      }
      rows := rows + [r.value];
      i := i + 1;
    }
    assert raws[..i] == raws;
    found := Success(rows);
  }

  /** A full "yyyy-mm-dd" is read from its third character, where the first
      "dd-dd-dd" begins. */
  lemma IsoDateText()
    ensures ReleaseDateText("2021-09-23") == Some("21-09-23")
  {
    var t := "2021-09-23";
    assert DashedAt(t, 2) && !DashedAt(t, 0) && !DashedAt(t, 1);
    assert t[2..10] == "21-09-23";
  }
}
