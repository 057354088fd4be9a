/** The series and volume strings of update: the volume cleanup and the
    preference for the second series link in handle_series, the ", Book N"
    fallback taken from the subtitle, the series-name cleanup of parse_series
    and the title_sort key of compile_metadata. */
module Series {
  import opened Wrappers
  import opened Text
  import opened Scan

  /** A volume text, stripped; a bare "," (the separator between two series
      links) means no volume. */
  function NormalizeVolume(v: string): (r: string)
    ensures r != ","
    ensures Strip(v) != "," ==> r == Strip(v)
    ensures Strip(v) == "," ==> r == ""
  {
    var t := Strip(v);
    if t == "," then "" else t
  }

  /** `second if second else first`. */
  function Preferred(second: string, first: string): (r: string)
    ensures second != "" ==> r == second
    ensures second == "" ==> r == first
  {
    if second != "" then second else first
  }

  // ------------------------------------------------ re.match("(.*)(, Book \d+)")

  /** The length of the run of digits that starts t. */
  function DigitRun(t: string): (n: nat)
    ensures n <= |t| && AllDigits(t[..n]) && (n == |t| || !IsDigit(t[n]))
    decreases |t|
  {
    if t != [] && IsDigit(t[0]) then
      var m := DigitRun(t[1..]);
      assert t[..m + 1] == [t[0]] + t[1..][..m];
      m + 1
    else 0
  }

  /** ", Book " and a digit at k. */
  predicate BookAt(s: string, k: nat) {
    k + 8 <= |s| && s[k..k + 7] == ", Book " && IsDigit(s[k + 7])
  }

  /** The two groups of re.match("(.*)(, Book \d+)", s): the series name and
      ", Book " with every digit that follows. */
  function BookSplit(s: string): (r: Option<(string, string)>)
    ensures r.None? <==> forall k: nat :: k <= |s| && '\n' !in s[..k] ==> !BookAt(s, k)
    ensures r.Some? ==>
              var (name, book) := r.value;
              StartsWith(s, name + book) && '\n' !in name && BookAt(s, |name|)
              && StartsWith(book, ", Book ") && |book| > 7 && AllDigits(book[7..])
              && (|name| + |book| == |s| || !IsDigit(s[|name| + |book|]))
              && forall k: nat :: |name| < k <= |s| && '\n' !in s[..k] ==> !BookAt(s, k)
  {
    var at := (k: nat) => BookAt(s, k);
    var g := GreedyPrefix(s, at);
    if g.Some? then
      var k := g.value;
      assert at(k);
      var n := DigitRun(s[k + 7..]);
      assert s[k + 7..][..n] == s[k + 7..k + 7 + n];
      var name, book := s[..k], s[k..k + 7 + n];
      assert name + book == s[..k + 7 + n];
      assert book[..7] == s[k..k + 7] && book[7..] == s[k + 7..k + 7 + n];
      forall j: nat | k < j <= |s| && '\n' !in s[..j] ensures !BookAt(s, j) {
        assert !at(j);
      }
      Some((name, book))
    else
      forall j: nat | j <= |s| && '\n' !in s[..j] ensures !BookAt(s, j) {
        assert !at(j);
      }
      None
  }

  // ------------------------------------------- re.match("(.*)(: A .* Series)")

  predicate SeriesWordAt(s: string, j: nat) {
    j + 7 <= |s| && s[j..j + 7] == " Series"
  }

  /** ": A ", then anything on the same line, then " Series", starting at k. */
  predicate SeriesTailAt(s: string, k: nat) {
    k + 4 <= |s| && s[k..k + 4] == ": A "
    && exists j: nat :: k + 4 <= j <= |s| && SeriesWordAt(s, j) && '\n' !in s[k + 4..j]
  }

  /** parse_series's cleanup: a series name followed by ": A ... Series" loses
      everything from the last such ": A " on the first line. */
  function CleanSeriesName(s: string): (r: string)
    ensures r == s <==> forall k: nat :: k <= |s| && '\n' !in s[..k] ==> !SeriesTailAt(s, k)
    ensures r != s ==> (StartsWith(s, r) && SeriesTailAt(s, |r|) && '\n' !in r
                        && forall k: nat :: |r| < k <= |s| && '\n' !in s[..k] ==> !SeriesTailAt(s, k))
  {
    var at := (k: nat) => SeriesTailAt(s, k);
    var g := GreedyPrefix(s, at);
    if g.Some? then
      assert at(g.value);
      assert s[..g.value] != s;
      forall j: nat | g.value < j <= |s| && '\n' !in s[..j] ensures !SeriesTailAt(s, j) {
        assert !at(j);
      }
      s[..g.value]
    else
      forall j: nat | j <= |s| && '\n' !in s[..j] ensures !SeriesTailAt(s, j) {
        assert !at(j);
      }
      s
  }

  /** parse_series: the cleaned series name, and the title, which is shortened
      by the title-stripping pattern only when the series name ends in
      " Series". `strip(title, short, volume)` stands for that pattern, built
      from the name without " Series" and the volume. */
  function ParseSeries(seriesDef: string, volumeDef: string, title: string,
                       strip: (string, string, string) -> Option<string>): (r: (string, string))
    ensures r.0 == CleanSeriesName(seriesDef)
    ensures !EndsWith(r.0, " Series") ==> r.1 == title
    ensures EndsWith(r.0, " Series") ==>
              r.1 == (var y := strip(title, r.0[..|r.0| - 7], volumeDef); if y.Some? then y.value else title)
  {
    var sd := CleanSeriesName(seriesDef);
    if EndsWith(sd, " Series") then
      var y := strip(title, sd[..|sd| - 7], volumeDef);
      (sd, if y.Some? then y.value else title)
    else (sd, title)
  }

  // --------------------------------------------------------------- title_sort

  function NonEmpty(parts: seq<string>): (r: seq<string>)
    ensures forall i :: 0 <= i < |r| ==> r[i] != "" && r[i] in parts
    decreases |parts|
  {
    if parts == [] then [] else (if parts[0] == "" then [] else [parts[0]]) + NonEmpty(parts[1..])
  }

  function Join(sep: string, parts: seq<string>): string
    decreases |parts|
  {
    if |parts| == 0 then [] else if |parts| == 1 then parts[0] else parts[0] + sep + Join(sep, parts[1..])
  }

  /** ' - '.join(filter(None, [series_def + volume_def, title])). */
  function TitleSort(seriesDef: string, volumeDef: string, title: string): string {
    Join(" - ", NonEmpty([seriesDef + volumeDef, title]))
  }

  /** The sort key is the title alone without a series, the series and volume
      alone without a title, and both joined by " - " otherwise. */
  lemma TitleSortCases(seriesDef: string, volumeDef: string, title: string)
    ensures seriesDef + volumeDef == "" ==> TitleSort(seriesDef, volumeDef, title) == title
    ensures title == "" ==> TitleSort(seriesDef, volumeDef, title) == seriesDef + volumeDef
    ensures seriesDef + volumeDef != "" && title != "" ==>
              TitleSort(seriesDef, volumeDef, title) == seriesDef + volumeDef + " - " + title
  {
    var p := seriesDef + volumeDef;
    assert [p, title][1..] == [title];
    assert NonEmpty([title]) == (if title == "" then [] else [title]) + NonEmpty([]);
    assert NonEmpty([p, title]) == (if p == "" then [] else [p]) + NonEmpty([title]);
    if p != "" && title != "" {
      assert NonEmpty([p, title]) == [p, title];
      assert Join(" - ", [title]) == title;
      assert Join(" - ", [p, title]) == p + " - " + Join(" - ", [p, title][1..]);
    }
  }

  // ------------------------------------------------------------ handle_series

  /** The series fields of the update helper. */
  datatype SeriesState = SeriesState(
    series: string, series2: string,
    volume: string, volume2: string,
    seriesDef: string, volumeDef: string)

  /** What the series label yields: the two series links and the two volume
      texts after them. */
  datatype SeriesLabel = SeriesLabel(first: string, second: string, volumeText: string, volume2Text: string)

  /** The subtitle is read only inside the loop over the main block, so with no
      main block it is never bound. */
  datatype SeriesError = SubtitleUnbound

  function FromLabel(lbl: SeriesLabel): (st: SeriesState)
    ensures st.volume != "," && st.volume2 != ","
    ensures st.seriesDef == Preferred(lbl.second, lbl.first)
    ensures st.volumeDef == Preferred(st.volume2, st.volume)
  {
    var v := NormalizeVolume(lbl.volumeText);
    var v2 := NormalizeVolume(lbl.volume2Text);
    SeriesState(lbl.first, lbl.second, v, v2, Preferred(lbl.second, lbl.first), Preferred(v2, v))
  }

  /** handle_series, given how many series labels and main blocks the page has,
      what the label yields and the subtitle text. */
  function HandleSeries(st: SeriesState, labels: nat, lbl: SeriesLabel, mains: nat, subtitleText: string)
    : (r: Result<SeriesState, SeriesError>)
    ensures var st1 := if labels > 0 then FromLabel(lbl) else st;
            (r.Failure? <==> st1.seriesDef == "" && mains == 0)
            && (st1.seriesDef != "" ==> r == Success(st1))
            && (r.Success? && r.value != st1 ==>
                  r.value == st1.(seriesDef := r.value.seriesDef, volumeDef := r.value.volumeDef)
                  && StartsWith(Strip(subtitleText), r.value.seriesDef + r.value.volumeDef)
                  && StartsWith(r.value.volumeDef, ", Book ") && AllDigits(r.value.volumeDef[7..]))
    // the ", Book N" fallback: the split of the subtitle, when it has one
    ensures var st1 := if labels > 0 then FromLabel(lbl) else st;
            var w := BookSplit(Strip(subtitleText));
            st1.seriesDef == "" && mains > 0 ==>
              r == Success(if w.Some? then st1.(seriesDef := w.value.0, volumeDef := w.value.1) else st1)
  {
    var st1 := if labels > 0 then FromLabel(lbl) else st;
    if st1.seriesDef != "" then Success(st1)
    else if mains == 0 then Failure(SubtitleUnbound)
    else
      var w := BookSplit(Strip(subtitleText));
      if w.Some? then Success(st1.(seriesDef := w.value.0, volumeDef := w.value.1)) else Success(st1)
  }

  // -------------------------------------------------------------- examples

  /** The cleanup is not idempotent: of two ": A ... Series" tails only the
      last is removed, so a second cleanup removes the other
      ("X: A B Series: A C Series" becomes "X: A B Series", then "X"). */
  lemma CleanupNotIdempotent(x: string, b: string, c: string)
    requires ':' !in x && ':' !in b && ':' !in c && '\n' !in x && '\n' !in b && '\n' !in c
    ensures var once := x + ": A " + b + " Series";
            CleanSeriesName(once + ": A " + c + " Series") == once
            && CleanSeriesName(once) == x
  {
    var once := x + ": A " + b + " Series";
    assert '\n' !in once;
    CutLastTail(once, c);
    CutLastTail(x, b);
  }

  /** A name followed by one ": A ... Series" tail, with no ':' in the tail's
      middle, is cut back to the name. */
  lemma CutLastTail(pre: string, c: string)
    requires ':' !in c && '\n' !in pre && '\n' !in c
    ensures CleanSeriesName(pre + ": A " + c + " Series") == pre
  {
    var s := pre + ": A " + c + " Series";
    var k := |pre|;
    assert s[k..k + 4] == ": A ";
    assert s[k + 4 + |c|..k + 4 + |c| + 7] == " Series";
    var tail := " A " + c + " Series";
    assert s[k + 1..] == tail;
    assert ':' !in tail;
    forall i | k < i < |s| ensures s[i] != ':' {
      assert s[i] == tail[i - k - 1];
    }
    assert '\n' !in s;
    LastTail(s, k, k + 4 + |c|);
    assert s[..k] == pre;
  }

  /** The cleanup cuts at k when the tail at k has " Series" at j and no ':'
      comes after k. */
  lemma LastTail(s: string, k: nat, j: nat)
    requires k + 4 <= j && j + 7 <= |s| && s[k..k + 4] == ": A " && s[j..j + 7] == " Series"
    requires '\n' !in s && forall i :: k < i < |s| ==> s[i] != ':'
    ensures CleanSeriesName(s) == s[..k]
  {
    assert SeriesWordAt(s, j);
    assert SeriesTailAt(s, k);
    assert '\n' !in s[..k];
    var r := CleanSeriesName(s);
    assert r != s;
    assert s[|r|] == s[|r|..|r| + 4][0] == ':';
    assert |r| == k;
    assert r == s[..|r|];
  }
}
