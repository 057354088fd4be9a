/** The copyright-year override of update: when the "prefer copyright year"
    preference is on, the release date found so far is replaced by a year read
    from the page's copyright line. Every `re.match(...).group` on a pattern
    that does not match, and `min` of an empty list, raises in the source;
    here they are the failures of a Result. */
module Copyright {
  import opened Wrappers
  import opened Text
  import opened Scan
  import Rows

  /** The helper's date slot, which the source fills with None, a string or
      a parsed date at different times. */
  datatype DateField = NoDate | DateText(text: string) | DateValue(value: Rows.Date)

  datatype CopyrightError =
    | DateNotText      // date[:4] on a date that is not a string
    | PatternMismatch  // a re.match that found nothing, then .group
    | NoYearTokens     // min() of an empty list

  /** "(P)" at k. */
  predicate PMarkAt(s: string, k: nat) {
    k + 3 <= |s| && s[k..k + 3] == "(P)"
  }

  /** "(P)" and four digits at k. */
  predicate PhonogramYearAt(s: string, k: nat) {
    PMarkAt(s, k) && k + 7 <= |s| && AllDigits(s[k + 3..k + 7])
  }

  /** re.match(".*\(P\)(\d{4})", c).group(1): the year after the last "(P)"
      with four digits on the first line. */
  function PublicDomainYear(c: string): (r: Option<string>)
    ensures r.Some? ==> |r.value| == 4 && AllDigits(r.value)
    ensures r.Some? <==> exists k: nat :: k <= |c| && '\n' !in c[..k] && PhonogramYearAt(c, k)
    ensures r.Some? ==> exists k: nat :: k <= |c| && '\n' !in c[..k] && PhonogramYearAt(c, k)
                                         && r.value == c[k + 3..k + 7]
                                         && forall j: nat :: k < j <= |c| && '\n' !in c[..j] ==> !PhonogramYearAt(c, j)
  {
    var at := (k: nat) => PhonogramYearAt(c, k);
    var g := GreedyPrefix(c, at);
    if g.Some? then
      assert at(g.value);
      Some(c[g.value + 3..g.value + 7])
    else
      forall k: nat | k <= |c| && '\n' !in c[..k] ensures !PhonogramYearAt(c, k) {
        assert !at(k);
      }
      None
  }

  /** re.match("(.*)\(P\).*", c).group(1): the text before the last "(P)" on
      the first line. */
  function BeforeLastP(c: string): (r: Option<string>)
    ensures r.Some? <==> exists k: nat :: k <= |c| && '\n' !in c[..k] && PMarkAt(c, k)
    ensures r.Some? ==> exists k: nat :: k <= |c| && '\n' !in c[..k] && PMarkAt(c, k)
                                         && r.value == c[..k]
                                         && forall j: nat :: k < j <= |c| && '\n' !in c[..j] ==> !PMarkAt(c, j)
  {
    var at := (k: nat) => PMarkAt(c, k);
    var g := GreedyPrefix(c, at);
    if g.Some? then
      assert at(g.value);
      Some(c[..g.value])
    else
      forall k: nat | k <= |c| && '\n' !in c[..k] ensures !PMarkAt(c, k) {
        assert !at(k);
      }
      None
  }

  /** re.match(".?(\d{4}).*", c).group(1): `.?` first takes one character, so
      four digits at position 1 win over four digits at position 0. */
  function LeadingYear(c: string): (r: Option<string>)
    ensures r.Some? ==> |r.value| == 4 && AllDigits(r.value)
    ensures |c| >= 5 && c[0] != '\n' && AllDigits(c[1..5]) ==> r == Some(c[1..5])
    ensures r.Some? && !(|c| >= 5 && c[0] != '\n' && AllDigits(c[1..5])) ==> |c| >= 4 && r.value == c[..4]
    ensures r.None? <==> !((|c| >= 5 && c[0] != '\n' && AllDigits(c[1..5])) || (|c| >= 4 && AllDigits(c[..4])))
  {
    if |c| >= 5 && c[0] != '\n' && AllDigits(c[1..5]) then Some(c[1..5])
    else if |c| >= 4 && AllDigits(c[..4]) then Some(c[..4])
    else None
  }

  /** The whitespace-separated tokens that are all digits, in order. */
  function DigitTokens(ws: seq<string>): (r: seq<string>)
    ensures |r| <= |ws|
    ensures forall i :: 0 <= i < |r| ==> AllDigits(r[i]) && r[i] in ws
    ensures forall w :: w in ws && AllDigits(w) ==> w in r
    decreases |ws|
  {
    if ws == [] then []
    else (if AllDigits(ws[0]) then [ws[0]] else []) + DigitTokens(ws[1..])
  }

  /** The filter keeps the order of the words: the tokens of two word lists
      are the tokens of the first followed by those of the second. */
  lemma {:induction false} DigitTokensAppend(a: seq<string>, b: seq<string>)
    ensures DigitTokens(a + b) == DigitTokens(a) + DigitTokens(b)
    decreases |a|
  {
    if a == [] {
      assert a + b == b;
    } else {
      var h := if AllDigits(a[0]) then [a[0]] else [];
      calc {
        DigitTokens(a + b);
        { assert a + b == [a[0]] + (a[1..] + b); }
        DigitTokens([a[0]] + (a[1..] + b));
        { DigitTokensCons(a[0], a[1..] + b); }
        h + DigitTokens(a[1..] + b);
        { DigitTokensAppend(a[1..], b); }
        h + (DigitTokens(a[1..]) + DigitTokens(b));
        (h + DigitTokens(a[1..])) + DigitTokens(b);
        { DigitTokensCons(a[0], a[1..]); assert [a[0]] + a[1..] == a; }
        DigitTokens(a) + DigitTokens(b);
      }
    }
  }

  lemma DigitTokensCons(w: string, rest: seq<string>)
    ensures DigitTokens([w] + rest) == (if AllDigits(w) then [w] else []) + DigitTokens(rest)
  {
    assert ([w] + rest)[1..] == rest;
  }

  /** A single word is kept exactly when it is all digits. */
  lemma DigitTokensSingle(w: string)
    ensures DigitTokens([w]) == if AllDigits(w) then [w] else []
  {
    assert [w][1..] == [];
  }

  /** min(int(t) for t in ts). */
  function MinValue(ts: seq<string>): (m: nat)
    requires |ts| > 0 && forall i :: 0 <= i < |ts| ==> AllDigits(ts[i])
    ensures exists i :: 0 <= i < |ts| && DigitsValue(ts[i]) == m
    ensures forall i :: 0 <= i < |ts| ==> m <= DigitsValue(ts[i])
    decreases |ts|
  {
    if |ts| == 1 then DigitsValue(ts[0])
    else
      var rest := MinValue(ts[1..]);
      assert forall i :: 1 <= i < |ts| ==> ts[i] == ts[1..][i - 1];
      if DigitsValue(ts[0]) <= rest then DigitsValue(ts[0]) else rest
  }

  /** str(min([int(i) for i in c.split() if i.isdigit()])). */
  function SmallestYear(c: string): (r: Result<string, CopyrightError>)
    ensures r.Failure? <==> forall w :: w in Words(c) ==> !AllDigits(w)
    ensures r.Failure? ==> r.error == NoYearTokens
    ensures r.Success? ==> AllDigits(r.value) && |r.value| >= 1
    ensures r.Success? ==> r.value == NatToDecimal(DigitsValue(r.value))
    ensures r.Success? ==> exists w :: w in Words(c) && AllDigits(w) && DigitsValue(w) == DigitsValue(r.value)
    ensures r.Success? ==> forall w :: w in Words(c) && AllDigits(w) ==> DigitsValue(r.value) <= DigitsValue(w)
  {
    var ts := DigitTokens(Words(c));
    if ts == [] then
      Failure(NoYearTokens)
    else
      var m := MinValue(ts);
      DecimalRoundTrip(m);
      var i :| 0 <= i < |ts| && DigitsValue(ts[i]) == m;
      assert ts[i] in Words(c);
      forall w | w in Words(c) && AllDigits(w) ensures m <= DigitsValue(w) {
        var j :| 0 <= j < |ts| && ts[j] == w;
      }
      Success(NatToDecimal(m))
  }

  /** The line with a leading copyright glyph cut off. */
  function WithoutMark(c: string): (r: string)
    ensures StartsWith(c, "\U{A9}") ==> [c[0]] + r == c
    ensures !StartsWith(c, "\U{A9}") ==> r == c
  {
    if StartsWith(c, "\U{A9}") then c[1..] else c
  }

  /** The year read from a copyright line that is not Audible's own. */
  function OverrideYear(c: string): (r: Result<string, CopyrightError>)
    ensures r.Success? ==> AllDigits(r.value) && |r.value| >= 1
    ensures r.Failure? ==> r.error != DateNotText
  {
    if Contains(c, "Public Domain") then
      var y := PublicDomainYear(c);
      if y.Some? then Success(y.value) else Failure(PatternMismatch)
    else
      var c1 := WithoutMark(c);
      var c2 := if Contains(c1, "(P)") then BeforeLastP(c1) else Some(c1);
      if c2.None? then Failure(PatternMismatch)
      else if ';' in c2.value then SmallestYear(c2.value)
      else
        var y := LeadingYear(c2.value);
        if y.Some? then Success(y.value) else Failure(PatternMismatch)
  }

  /** use_copyright_date on the date found so far, given how many copyright
      spans the page has and the normalized text of the first of them (every
      span reads the same, document-wide, text). */
  function CopyrightDate(date: DateField, spans: nat, text: string): (r: Result<DateField, CopyrightError>)
    // no span, or a span with empty text: the date stands
    ensures spans == 0 || text == "" ==> r == Success(date)
    // Audible's own line: a text date is cut to at most four characters, and
    // anything else cannot be cut
    ensures spans > 0 && StartsWith(text, "\U{A9} ") ==>
              (r.Failure? <==> !date.DateText?)
              && (r.Failure? ==> r.error == DateNotText)
              && (date.DateText? ==> r.value.DateText? && StartsWith(date.text, r.value.text)
                                     && |r.value.text| == (if |date.text| < 4 then |date.text| else 4))
    // any other line: the date is replaced by digits read from the line
    ensures spans > 0 && text != "" && !StartsWith(text, "\U{A9} ") ==>
              (r.Success? <==> OverrideYear(text).Success?)
              && (r.Success? ==> r.value == DateText(OverrideYear(text).value))
              && (r.Failure? ==> r.error == OverrideYear(text).error)
  {
    if spans == 0 then Success(date)
    else if StartsWith(text, "\U{A9} ") then
      if date.DateText? then Success(DateText(date.text[..if |date.text| < 4 then |date.text| else 4]))
      else Failure(DateNotText)
    else if text == "" then Success(date)
    else
      var y := OverrideYear(text);
      if y.Success? then Success(DateText(y.value)) else Failure(y.error)
  }

  // -------------------------------------------------------------- lemmas

  /** Any other copyright line replaces the date by a string of digits or fails;
      the date found so far plays no part. */
  lemma OverrideIgnoresDate(date1: DateField, date2: DateField, spans: nat, text: string)
    requires spans > 0 && !StartsWith(text, "\U{A9} ") && text != ""
    ensures CopyrightDate(date1, spans, text) == CopyrightDate(date2, spans, text)
    ensures CopyrightDate(date1, spans, text).Success? ==>
              var d := CopyrightDate(date1, spans, text).value;
              d.DateText? && AllDigits(d.text) && |d.text| >= 1
  {
  }

  /** A public-domain line gives the four digits after the last "(P)" that has
      them. */
  lemma PublicDomainCase(c: string)
    requires !StartsWith(c, "\U{A9} ") && Contains(c, "Public Domain")
    ensures OverrideYear(c).Success? <==> exists k: nat :: k <= |c| && '\n' !in c[..k] && PhonogramYearAt(c, k)
    ensures OverrideYear(c).Success? ==> |OverrideYear(c).value| == 4 && Contains(c, OverrideYear(c).value)
    ensures OverrideYear(c) == (if PublicDomainYear(c).Some? then Success(PublicDomainYear(c).value)
                                else Failure(PatternMismatch))
  {
    var y := PublicDomainYear(c);
    if y.Some? {
      var k: nat :| k <= |c| && '\n' !in c[..k] && PhonogramYearAt(c, k) && y.value == c[k + 3..k + 7];
      assert StartsWith(c[k + 3..], y.value);
      ContainsAt(c, y.value, k + 3);
    }
  }

  /** Without ';' and without "(P)", a line that is neither Audible's nor in
      the public domain yields four digits at position 1, else at position 0. */
  lemma LeadingYearCase(c: string)
    requires !Contains(c, "Public Domain") && !StartsWith(c, "\U{A9}") && !Contains(c, "(P)") && ';' !in c
    ensures OverrideYear(c) == (if LeadingYear(c).Some? then Success(LeadingYear(c).value) else Failure(PatternMismatch))
  {
  }

  /** Without "(P)" but with ';', a line outside the public domain yields the
      least all-digit word, written without leading zeros. */
  lemma SemicolonCase(c: string)
    requires !Contains(c, "Public Domain") && !Contains(WithoutMark(c), "(P)") && ';' in WithoutMark(c)
    ensures OverrideYear(c) == SmallestYear(WithoutMark(c))
  {
  }

  /** With "(P)", a line outside the public domain is first cut before its
      last "(P)", and the ';' rule or the leading year then reads the cut
      text; a line whose "(P)" lies past the first line does not match. */
  lemma PhonogramCutCase(c: string)
    requires !Contains(c, "Public Domain") && Contains(WithoutMark(c), "(P)")
    ensures BeforeLastP(WithoutMark(c)).None? ==> OverrideYear(c) == Failure(PatternMismatch)
    ensures var c2 := BeforeLastP(WithoutMark(c));
            c2.Some? && ';' in c2.value ==> OverrideYear(c) == SmallestYear(c2.value)
    ensures var c2 := BeforeLastP(WithoutMark(c));
            c2.Some? && ';' !in c2.value ==>
              OverrideYear(c) == (if LeadingYear(c2.value).Some? then Success(LeadingYear(c2.value).value)
                                  else Failure(PatternMismatch))
  {
  }

  /** A string none of whose possible starting points holds p's first
      character does not contain p. */
  lemma FirstCharAbsent(s: string, p: string)
    requires |p| > 0 && forall i :: 0 <= i && i + |p| <= |s| ==> s[i] != p[0]
    ensures !Contains(s, p)
  {
    if Contains(s, p) {
      var i := ContainsWitness(s, p);
    }
  }

  lemma {:induction false} WordLengthOf(w: string, rest: string)
    requires NoSpace(w) && (rest == [] || IsSpace(rest[0]))
    ensures WordLength(w + rest) == |w|
    decreases |w|
  {
    if w != [] {
      assert (w + rest)[1..] == w[1..] + rest;
      WordLengthOf(w[1..], rest);
    } else {
      assert w + rest == rest;
    }
  }

  /** split() takes a word that ends at whitespace or at the end as one token. */
  lemma WordsStep(w: string, rest: string)
    requires w != [] && NoSpace(w) && (rest == [] || IsSpace(rest[0]))
    ensures Words(w + rest) == [w] + Words(rest)
  {
    WordLengthOf(w, rest);
    var s := w + rest;
    assert s[..|w|] == w && s[|w|..] == rest;
  }

  /** A year written directly before the ';' is no digit token: with
      "2001; 2010 " the minimum rule finds 2010, not 2001. */
  lemma GluedYearIgnored(y1: string, y2: string, c: string)
    requires |y1| == 4 && AllDigits(y1) && |y2| == 4 && AllDigits(y2) && y2[0] != '0'
    requires c == y1 + "; " + y2 + " "
    ensures SmallestYear(c) == Success(y2)
  {
    var w1 := y1 + ";";
    assert NoSpace(w1) by {
      assert forall i :: 0 <= i < 4 ==> w1[i] == y1[i];
    }
    assert c == w1 + (" " + (y2 + " "));
    WordsStep(w1, " " + (y2 + " "));
    assert Words(" " + (y2 + " ")) == Words(y2 + " ");
    WordsStep(y2, " ");
    assert Words(" ") == Words([]);
    assert Words(c) == [w1, y2];
    assert !AllDigits(w1) by { assert w1[4] == ';'; }
    assert [w1, y2][1..] == [y2] && [y2][1..] == [];
    assert DigitTokens([y2]) == [y2] + DigitTokens([]);
    assert DigitTokens([w1, y2]) == [] + DigitTokens([y2]);
    assert MinValue([y2]) == DigitsValue(y2);
    CanonicalDecimal(y2);
  }

  /** A digit string without a leading zero is str(int()) of itself. */
  lemma {:induction false} CanonicalDecimal(s: string)
    requires |s| >= 1 && AllDigits(s) && s[0] != '0'
    ensures NatToDecimal(DigitsValue(s)) == s
    decreases |s|
  {
    var n := |s|;
    var d := s[n - 1] as int - '0' as int;
    if n == 1 {
      assert DigitsValue(s) == DigitsValue([]) * 10 + d;
    } else {
      var p := s[..n - 1];
      assert p[0] == s[0];
      CanonicalDecimal(p);
      Positive(p);
      var v := DigitsValue(s);
      assert v == DigitsValue(p) * 10 + d;
      assert v / 10 == DigitsValue(p) && v % 10 == d;
      assert s == p + [s[n - 1]];
    }
  }

  lemma {:induction false} Positive(s: string)
    requires |s| >= 1 && AllDigits(s) && s[0] != '0'
    ensures DigitsValue(s) >= 1
    decreases |s|
  {
    if |s| > 1 {
      var p := s[..|s| - 1];
      assert p[0] == s[0];
      Positive(p);
    }
  }

  /** A year at the very start is taken when the character after it is no
      digit: "2015 Author " gives 2015. */
  lemma YearAtStart(y: string, rest: string)
    requires |y| == 4 && AllDigits(y) && rest != [] && !IsDigit(rest[0])
    ensures LeadingYear(y + rest) == Some(y)
  {
    var c := y + rest;
    assert c[4] == rest[0];
    assert c[..4] == y;
  }

  /** A fifth digit moves the year by one: "12345" gives "2345". */
  lemma FiveDigitsExample(c: string)
    requires c == "12345"
    ensures LeadingYear(c) == Some("2345")
  {
    assert c[1..5] == "2345";
  }

  /** "\U{A9} 2015; 2018" is Audible's own line: the date found so far is cut
      to its year, and the years in the line are not read. */
  lemma AudibleLineExample(date: DateField, text: string)
    requires date == DateText("2018-03-01") && text == "\U{A9} 2015; 2018"
    ensures CopyrightDate(date, 1, text) == Success(DateText("2018"))
  {
    assert StartsWith(text, "\U{A9} ");
    assert date.text[..4] == "2018";
  }
}
