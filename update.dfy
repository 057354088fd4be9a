/** AudiobookAlbum.update after the book page has been scraped: the missing
    date is harvested from the page's JSON-LD scripts (after the backslash
    repair), overridden by the copyright year when the preference asks for
    it, and parsed; the series fields are derived; the synopsis is cleaned;
    and compile_metadata writes everything to the host's metadata record. */
module Update {
  import opened Wrappers
  import opened Text
  import opened Rows
  import opened Copyright
  import opened Synopsis
  import opened JsonRepair
  import opened Series
  import opened Metadata

  /** What the book page yields beyond the fields scrape_book_metadata reads:
      the JSON-LD script texts, how many copyright spans there are and their
      (document-wide) normalized text, how many series labels and what they
      yield, how many main blocks and the subtitle text. */
  datatype BookPage = BookPage(
    scripts: seq<string>,
    copyrightSpans: nat, copyrightText: string,
    seriesLabels: nat, seriesLabel: SeriesLabel,
    mainBlocks: nat, subtitleText: string)

  /** The exceptions update lets escape. */
  datatype UpdateError = CopyrightFailed(cause: CopyrightError) | SeriesFailed(reason: SeriesError)

  /** The update helper's fields the model follows. */
  datatype HelperState = HelperState(
    author: string, narrator: string, title: string, studio: string, synopsis: string,
    genreParent: string, genreChild: string,
    series: SeriesState, date: DateField)

  /** Python truthiness of the date: None and the empty string are false. */
  predicate DateSet(d: DateField) {
    match d
    case NoDate => false
    case DateText(t) => t != ""
    case DateValue(_) => true
  }

  /** A harvester step: re_parse_with_date_published fills the helper from one
      decoded JSON-LD block. It may write any of the scraped fields (date,
      title, authors, narrators, publisher, description, genres) and never
      the series fields, which it does not know. */
  function HarvestStep(st: HelperState, text: string, harvest: (HelperState, string) -> HelperState): (r: HelperState)
    ensures r.series == st.series
  {
    harvest(st, text).(series := st.series)
  }

  /** date_missing: every script text, stripped of newlines and repaired, is
      handed in document order to the harvester. */
  function HarvestAll(st: HelperState, scripts: seq<string>, harvest: (HelperState, string) -> HelperState): HelperState
    decreases |scripts|
  {
    if scripts == [] then st
    else
      var init := scripts[..|scripts| - 1];
      HarvestStep(HarvestAll(st, init, harvest), RepairJson(scripts[|scripts| - 1]), harvest)
  }

  /** However many blocks the page has, the series fields survive the
      harvest. */
  lemma {:induction false} HarvestKeepsSeries(st: HelperState, scripts: seq<string>,
                                              harvest: (HelperState, string) -> HelperState)
    ensures HarvestAll(st, scripts, harvest).series == st.series
    decreases |scripts|
  {
    if scripts != [] {
      HarvestKeepsSeries(st, scripts[..|scripts| - 1], harvest);
    }
  }

  /** The harvester only ever sees repaired text: over texts that are already
      repaired, date_missing does the same as over the raw scripts. */
  lemma {:induction false} HarvestSeesRepaired(st: HelperState, scripts: seq<string>, repaired: seq<string>,
                                               harvest: (HelperState, string) -> HelperState)
    requires |repaired| == |scripts| && forall i :: 0 <= i < |scripts| ==> repaired[i] == RepairJson(scripts[i])
    ensures HarvestAll(st, scripts, harvest) == HarvestAll(st, repaired, harvest)
    decreases |scripts|
  {
    if scripts != [] {
      var n := |scripts|;
      HarvestSeesRepaired(st, scripts[..n - 1], repaired[..n - 1], harvest);
      RepairIdempotent(scripts[n - 1]);
      assert RepairJson(repaired[n - 1]) == RepairJson(scripts[n - 1]);
    }
  }

  /** getDateFromString: a date text is parsed, and a text that does not parse
      gives None. */
  function DateFromString(d: DateField, parse: string -> Option<Date>): (r: DateField)
    ensures !r.DateText?
    ensures d.DateText? ==> (r.DateValue? <==> parse(d.text).Some?)
    ensures d.DateText? && parse(d.text).Some? ==> r.value == parse(d.text).value
    ensures !d.DateText? ==> r == d
  {
    match d
    case DateText(t) => if parse(t).Some? then DateValue(parse(t).value) else NoDate
    case _ => d
  }

  /** The block update runs when scraping found no date: date_missing, the
      copyright override when the preference asks for it, getDateFromString
      and handle_series, stopping at the first exception. */
  function MissingDateBlock(st: HelperState, page: BookPage, copyYear: bool,
                            harvest: (HelperState, string) -> HelperState, parse: string -> Option<Date>)
    : Result<HelperState, UpdateError>
  {
    var harvested := HarvestAll(st, page.scripts, harvest);
    var copied := if copyYear then CopyrightDate(harvested.date, page.copyrightSpans, page.copyrightText)
                  else Success(harvested.date);
    if copied.Failure? then Failure(CopyrightFailed(copied.error))
    else
      var s := Series.HandleSeries(harvested.series, page.seriesLabels, page.seriesLabel, page.mainBlocks, page.subtitleText);
      if s.Failure? then Failure(SeriesFailed(s.error))
      else Success(harvested.(date := DateFromString(copied.value, parse), series := s.value))
  }

  /** The block fails only in the copyright override, and then only when the
      preference asks for it, or in handle_series when neither a series label
      nor a main block gives a series; otherwise the helper is the harvested
      one with its date parsed and its series fields derived. */
  lemma MissingDateBlockSpec(st: HelperState, page: BookPage, copyYear: bool,
                             harvest: (HelperState, string) -> HelperState, parse: string -> Option<Date>)
    ensures var r := MissingDateBlock(st, page, copyYear, harvest, parse);
            var harvested := HarvestAll(st, page.scripts, harvest);
            (r.Failure? && r.error.CopyrightFailed? ==>
               copyYear && CopyrightDate(harvested.date, page.copyrightSpans, page.copyrightText).Failure?)
            && (r.Failure? && r.error.SeriesFailed? ==>
                  (if page.seriesLabels > 0 then FromLabel(page.seriesLabel) else st.series).seriesDef == ""
                  && page.mainBlocks == 0)
            && (!copyYear && page.mainBlocks > 0 ==> r.Success?)
            && (r.Success? ==> r.value == harvested.(date := r.value.date, series := r.value.series)
                               && !r.value.date.DateText?)
            && (r.Success? && !copyYear ==> r.value.date == DateFromString(harvested.date, parse))
  {
    HarvestKeepsSeries(st, page.scripts, harvest);
  }

  /** compile_metadata's effect on the record, up to the cover and the
      rating. */
  function Compiled(h: HelperState, m: RecordState, noOverwriteGenre: bool,
                    strip: (string, string, string) -> Option<string>): RecordState
  {
    var p := ParseSeries(h.series.seriesDef, h.series.volumeDef, h.title, strip);
    RecordState(
      if noOverwriteGenre then m.genres else GenreSet(h.genreParent, h.genreChild),
      NarratorStyles(h.narrator),
      AuthorMoods(h.author) + SeriesMoods(h.series.series, h.series.series2),
      p.1, TitleSort(p.0, h.series.volumeDef, p.1), h.studio, h.synopsis,
      if h.date.NoDate? then m.originallyAvailableAt else h.date)
  }

  /** Every mood is an author entry naming no role, or a series link; every
      style is a stripped narrator; the record's date is the helper's unless
      the helper has none. */
  lemma CompiledContents(h: HelperState, m: RecordState, noOverwriteGenre: bool,
                         strip: (string, string, string) -> Option<string>)
    ensures var c := Compiled(h, m, noOverwriteGenre, strip);
            (forall x :: x in c.moods ==>
               (x in AuthorMoods(h.author) && !IsRole(x))
               || x == "Series: " + h.series.series || x == "Series: " + h.series.series2)
            && (forall x :: x in c.styles ==> ',' !in x && Strip(x) == x)
            && (h.series.series != "" ==> "Series: " + h.series.series in c.moods)
            && (!h.date.NoDate? ==> c.originallyAvailableAt == h.date)
            && (h.date.NoDate? ==> c.originallyAvailableAt == m.originallyAvailableAt)
  {
    MoodsNameNoRole(h.author);
    StylesAreStrippedNames(h.narrator);
    var c := Compiled(h, m, noOverwriteGenre, strip);
    forall x | x in c.moods && x !in AuthorMoods(h.author)
      ensures x == "Series: " + h.series.series || x == "Series: " + h.series.series2
    {
      assert x in SeriesMoods(h.series.series, h.series.series2);
    }
  }

  /** The sort key puts the cleaned series name and volume before the title. */
  lemma CompiledSortKey(h: HelperState, m: RecordState, noOverwriteGenre: bool,
                        strip: (string, string, string) -> Option<string>)
    ensures var c := Compiled(h, m, noOverwriteGenre, strip);
            var prefix := CleanSeriesName(h.series.seriesDef) + h.series.volumeDef;
            (prefix == "" ==> c.titleSort == c.title)
            && (c.title == "" ==> c.titleSort == prefix)
            && (prefix != "" && c.title != "" ==> c.titleSort == prefix + " - " + c.title)
  {
    var p := ParseSeries(h.series.seriesDef, h.series.volumeDef, h.title, strip);
    TitleSortCases(p.0, h.series.volumeDef, p.1);
  }

  class UpdateHelper {
    var author: string
    var narrator: string
    var title: string
    var studio: string
    var synopsis: string
    var genreParent: string
    var genreChild: string
    var series: string
    var series2: string
    var volume: string
    var volume2: string
    var seriesDef: string
    var volumeDef: string
    var date: DateField

    function SeriesFields(): SeriesState
      reads this
    {
      SeriesState(series, series2, volume, volume2, seriesDef, volumeDef)
    }

    function State(): HelperState
      reads this
    {
      HelperState(author, narrator, title, studio, synopsis, genreParent, genreChild, SeriesFields(), date)
    }

    /** The helper as scrape_book_metadata leaves it. */
    constructor (st: HelperState)
      ensures State() == st
    {
      author, narrator, title, studio, synopsis := st.author, st.narrator, st.title, st.studio, st.synopsis;
      genreParent, genreChild := st.genreParent, st.genreChild;
      series, series2, volume, volume2 := st.series.series, st.series.series2, st.series.volume, st.series.volume2;
      seriesDef, volumeDef := st.series.seriesDef, st.series.volumeDef;
      date := st.date;
    }

    /** What one pass of handle_series' loop over the series labels writes. */
    method SetSeriesFields(s: SeriesState)
      modifies this
      ensures State() == old(State()).(series := s)
    {
      series, series2, volume, volume2 := s.series, s.series2, s.volume, s.volume2;
      seriesDef, volumeDef := s.seriesDef, s.volumeDef;
    }

    /** What the harvester writes into the helper: every field it knows,
        the series fields left alone. */
    method SetScraped(h: HelperState)
      modifies this
      ensures author == h.author && narrator == h.narrator && title == h.title && studio == h.studio
      ensures synopsis == h.synopsis && genreParent == h.genreParent && genreChild == h.genreChild && date == h.date
      ensures series == old(series) && series2 == old(series2) && volume == old(volume)
      ensures volume2 == old(volume2) && seriesDef == old(seriesDef) && volumeDef == old(volumeDef)
    {
      author, narrator, title, studio, synopsis := h.author, h.narrator, h.title, h.studio, h.synopsis;
      genreParent, genreChild, date := h.genreParent, h.genreChild, h.date;
    }

    /** date_missing: each script, joined onto one line and repaired, is
        handed to the harvester. */
    method DateMissing(scripts: seq<string>, harvest: (HelperState, string) -> HelperState)
      modifies this
      ensures State() == HarvestAll(old(State()), scripts, harvest)
    {
      var i := 0;
      while i < |scripts|
        invariant 0 <= i <= |scripts|
        invariant State() == HarvestAll(old(State()), scripts[..i], harvest)
      {
        var pageContent := ReplaceAll(scripts[i], "\n", "");
        pageContent := RepairFrom(None, pageContent);
        assert scripts[..i + 1][..i] == scripts[..i];
        SetScraped(harvest(State(), pageContent));
        i := i + 1;
      }
      assert scripts[..i] == scripts;
    }

    /** use_copyright_date: when it raises, the date is left as it was. */
    method UseCopyrightDate(spans: nat, text: string) returns (r: Result<(), CopyrightError>)
      modifies this
      ensures var c := CopyrightDate(old(date), spans, text);
              (r.Success? <==> c.Success?)
              && (r.Failure? ==> r.error == c.error)
              && State() == old(State()).(date := if c.Success? then c.value else old(date))
    {
      var audible := StartsWith(text, "\U{A9} ");
      var cstring: Option<string> := None;
      var i := 0;
      while i < spans
        invariant 0 <= i <= spans
        invariant cstring == (if i == 0 then None else if audible then Some("") else Some(text))
        invariant State() == old(State()).(date := date)
        invariant i > 0 && audible ==> old(date).DateText? && date == CopyrightDate(old(date), spans, text).value
        invariant !(i > 0 && audible) ==> date == old(date)
      {
        cstring := Some(text);
        if audible {
          cstring := Some("");
          if !date.DateText? {
            r := Failure(DateNotText);
            return;
          }
          date := DateText(date.text[..if |date.text| < 4 then |date.text| else 4]);
        }
        i := i + 1;
      }
      if cstring.Some? && cstring.value != "" {
        var y := OverrideYear(cstring.value);
        if y.Failure? {
          r := Failure(y.error);
          return;
        }
        date := DateText(y.value);
      }
      r := Success(());
    }

    /** The ", Book N" fallback of handle_series, once the subtitle is read. */
    method BookFallback(subtitle: string)
      modifies this
      ensures var w := BookSplit(subtitle);
              State() == old(State()).(series := if old(seriesDef) == "" && w.Some?
                                                  then old(SeriesFields()).(seriesDef := w.value.0, volumeDef := w.value.1)
                                                  else old(SeriesFields()))
    {
      var w := BookSplit(subtitle);
      if seriesDef == "" && w.Some? {
        seriesDef := w.value.0;
        volumeDef := w.value.1;
      }
    }

    /** handle_series: when it raises, the series fields are those the labels
        left. */
    method HandleSeries(labels: nat, lbl: SeriesLabel, mains: nat, subtitleText: string)
      returns (r: Result<(), SeriesError>)
      modifies this
      ensures var h := Series.HandleSeries(old(SeriesFields()), labels, lbl, mains, subtitleText);
              var st1 := if labels > 0 then FromLabel(lbl) else old(SeriesFields());
              (r.Success? <==> h.Success?)
              && (r.Failure? ==> r.error == h.error)
              && State() == old(State()).(series := if h.Success? then h.value else st1)
    {
      ghost var st1 := if labels > 0 then FromLabel(lbl) else old(SeriesFields());
      var i := 0;
      while i < labels
        invariant 0 <= i <= labels
        invariant State() == old(State()).(series := if i == 0 then old(SeriesFields()) else FromLabel(lbl))
      {
        SetSeriesFields(FromLabel(lbl));
        i := i + 1;
      }
      assert SeriesFields() == st1;
      if seriesDef == "" {
        var subtitle: Option<string> := None;
        var j := 0;
        while j < mains
          invariant 0 <= j <= mains
          invariant subtitle == if j == 0 then None else Some(Strip(subtitleText))
        {
          subtitle := Some(Strip(subtitleText));
          j := j + 1;
        }
        if subtitle.None? {
          r := Failure(SubtitleUnbound);
          return;
        }
        BookFallback(subtitle.value);
      }
      r := Success(());
    }

    /** compile_metadata, up to the cover and the rating: parse_series also
        rewrites the helper's series name and title. */
    method CompileMetadata(md: MetadataRecord, noOverwriteGenre: bool,
                           strip: (string, string, string) -> Option<string>)
      modifies this, md
      ensures var p := ParseSeries(old(seriesDef), old(volumeDef), old(title), strip);
              State() == old(State()).(title := p.1, series := old(SeriesFields()).(seriesDef := p.0))
      ensures md.State() == Compiled(old(State()), old(md.State()), noOverwriteGenre, strip)
    {
      AddCollections(md, noOverwriteGenre);
      ParseSeriesFields(strip);
      md.title := title;
      md.titleSort := TitleSort(seriesDef, volumeDef, title);
      md.studio := studio;
      md.summary := synopsis;
    }

    /** parse_series: the series name is cleaned and the title shortened. */
    method ParseSeriesFields(strip: (string, string, string) -> Option<string>)
      modifies this
      ensures var p := ParseSeries(old(seriesDef), old(volumeDef), old(title), strip);
              State() == old(State()).(title := p.1, series := old(SeriesFields()).(seriesDef := p.0))
    {
      var p := ParseSeries(seriesDef, volumeDef, title, strip);
      seriesDef, title := p.0, p.1;
    }

    /** The first half of compile_metadata: the date and the four add_*
        helpers. */
    method AddCollections(md: MetadataRecord, noOverwriteGenre: bool)
      modifies md
      ensures md.State() == old(md.State()).(
                genres := if noOverwriteGenre then old(md.genres) else GenreSet(genreParent, genreChild),
                styles := NarratorStyles(narrator),
                moods := AuthorMoods(author) + SeriesMoods(series, series2),
                originallyAvailableAt := if date.NoDate? then old(md.originallyAvailableAt) else date)
    {
      if !date.NoDate? {
        md.originallyAvailableAt := date;
      }
      md.AddGenres(noOverwriteGenre, genreParent, genreChild);
      md.AddNarratorsToStyles(narrator);
      md.AddAuthorsToMoods(author);
      md.AddSeriesToMoods(series, series2);
    }

    /** The date block of update. */
    method FillMissingDate(page: BookPage, copyYear: bool,
                           harvest: (HelperState, string) -> HelperState, parse: string -> Option<Date>)
      returns (r: Result<(), UpdateError>)
      modifies this
      ensures var b := MissingDateBlock(old(State()), page, copyYear, harvest, parse);
              (r.Success? <==> b.Success?)
              && (r.Failure? ==> r.error == b.error)
              && (r.Success? ==> State() == b.value)
    {
      DateMissing(page.scripts, harvest);
      if copyYear {
        var c := UseCopyrightDate(page.copyrightSpans, page.copyrightText);
        if c.Failure? {
          r := Failure(CopyrightFailed(c.error));
          return;
        }
      }
      date := DateFromString(date, parse);
      var s := HandleSeries(page.seriesLabels, page.seriesLabel, page.mainBlocks, page.subtitleText);
      if s.Failure? {
        r := Failure(SeriesFailed(s.error));
        return;
      }
      r := Success(());
    }

    /** update, from the scraped helper to the filled record; the result is
        the genre string update logs. */
    method Update(md: MetadataRecord, page: BookPage, copyYear: bool, noOverwriteGenre: bool,
                  harvest: (HelperState, string) -> HelperState, parse: string -> Option<Date>,
                  strip: (string, string, string) -> Option<string>)
      returns (r: Result<string, UpdateError>)
      modifies this, md
      ensures var b := if DateSet(old(date)) then Success(old(State()))
                       else MissingDateBlock(old(State()), page, copyYear, harvest, parse);
              (r.Success? <==> b.Success?)
              && (r.Failure? ==> r.error == b.error && md.State() == old(md.State()))
              && (r.Success? ==>
                    r.value == GenreString(b.value.genreParent, b.value.genreChild)
                    && md.State() == Compiled(b.value.(synopsis := CleanSynopsis(b.value.synopsis)),
                                              old(md.State()), noOverwriteGenre, strip))
    {
      ghost var h0 := State();
      if !DateSet(date) {
        var d := FillMissingDate(page, copyYear, harvest, parse);
        if d.Failure? {
          r := Failure(d.error);
          return;
        }
      }
      ghost var h1 := State();
      assert h1 == if DateSet(h0.date) then h0 else MissingDateBlock(h0, page, copyYear, harvest, parse).value;
      synopsis := CleanSynopsis(synopsis);
      assert State() == h1.(synopsis := CleanSynopsis(h1.synopsis));
      var genreString := GenreString(genreParent, genreChild);
      CompileMetadata(md, noOverwriteGenre, strip);
      r := Success(genreString);
    }
  }
}
