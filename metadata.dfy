/** The host's metadata record as compile_metadata and the add_* helpers fill
    it: genres, styles (the narrators) and moods (the authors and the series)
    are sets that are cleared and refilled; the other entries are assigned. */
module Metadata {
  import opened Text
  import opened Copyright

  /** The contributor roles whose entries in the author list are no authors. */
  const RoleWords: seq<string> := ["contributor", "translator", "foreword", "translated"]

  /** author.lower() contains one of the role words. */
  predicate IsRole(entry: string) {
    exists i :: 0 <= i < |RoleWords| && Contains(Lower(entry), RoleWords[i])
  }

  /** The genre set add_genres builds: the parent genre, and the child genre
      when there is one. */
  function GenreSet(parent: string, child: string): (g: set<string>)
    ensures parent in g
    ensures child in g <==> child != "" || child == parent
    ensures forall x :: x in g ==> x == parent || (x == child && child != "")
  {
    {parent} + (if child != "" then {child} else {})
  }

  /** The genre string update logs: "parent, child", or the parent alone. */
  function GenreString(parent: string, child: string): (r: string)
    ensures child == "" ==> r == parent
    ensures child != "" ==> r == parent + ", " + child
  {
    if child != "" then parent + ", " + child else parent
  }

  /** The styles add_narrators_to_styles builds: every comma-separated entry
      of the narrator text, stripped. */
  function NarratorStyles(narrator: string): set<string> {
    set p | p in SplitOn(narrator, ',') :: Strip(p)
  }

  /** The moods add_authors_to_moods builds: every comma-separated entry of the
      author text that names no contributor role, stripped. */
  function AuthorMoods(author: string): set<string> {
    set p | p in SplitOn(author, ',') && !IsRole(p) :: Strip(p)
  }

  /** The styles the loop of add_narrators_to_styles has added after the
      given entries. */
  function StylesOf(parts: seq<string>): set<string>
    decreases |parts|
  {
    if parts == [] then {} else StylesOf(parts[..|parts| - 1]) + {Strip(parts[|parts| - 1])}
  }

  /** The moods the loop of add_authors_to_moods has added after the given
      entries. */
  function MoodsOf(parts: seq<string>): set<string>
    decreases |parts|
  {
    if parts == [] then {}
    else MoodsOf(parts[..|parts| - 1]) + (if IsRole(parts[|parts| - 1]) then {} else {Strip(parts[|parts| - 1])})
  }

  /** The loop adds exactly the stripped entries. */
  lemma {:induction false} StylesOfEntries(parts: seq<string>)
    ensures StylesOf(parts) == set p | p in parts :: Strip(p)
    decreases |parts|
  {
    if parts != [] {
      var init := parts[..|parts| - 1];
      StylesOfEntries(init);
      assert parts == init + [parts[|parts| - 1]];
      assert forall p :: p in parts <==> p in init || p == parts[|parts| - 1];
    }
  }

  /** The loop adds exactly the stripped entries that name no role. */
  lemma {:induction false} MoodsOfEntries(parts: seq<string>)
    ensures MoodsOf(parts) == set p | p in parts && !IsRole(p) :: Strip(p)
    decreases |parts|
  {
    if parts != [] {
      var init := parts[..|parts| - 1];
      var last := parts[|parts| - 1];
      MoodsOfEntries(init);
      var whole := set p | p in parts && !IsRole(p) :: Strip(p);
      var before := set p | p in init && !IsRole(p) :: Strip(p);
      var added: set<string> := if IsRole(last) then {} else {Strip(last)};
      assert parts == init + [last];
      forall x | x in whole ensures x in before + added {
        var p :| p in parts && !IsRole(p) && x == Strip(p);
        if p != last {
          assert p in init;
        }
      }
      forall x | x in before + added ensures x in whole {
        if x in before {
          var p :| p in init && !IsRole(p) && x == Strip(p);
          assert p in parts;
        } else {
          assert last in parts;
        }
      }
      assert whole == before + added;
    }
  }

  /** The moods add_series_to_moods adds. */
  function SeriesMoods(series: string, series2: string): (m: set<string>)
    ensures forall x :: x in m ==> StartsWith(x, "Series: ")
    ensures series != "" ==> "Series: " + series in m
    ensures series2 != "" ==> "Series: " + series2 in m
    ensures forall x :: x in m ==> (x == "Series: " + series && series != "") || (x == "Series: " + series2 && series2 != "")
  {
    var a := if series != "" then {"Series: " + series} else {};
    var b := if series2 != "" then {"Series: " + series2} else {};
    forall x | x in a + b ensures StartsWith(x, "Series: ") {
      var s := if x in a then series else series2;
      assert x == "Series: " + s;
      assert x[..8] == "Series: ";
    }
    a + b
  }

  /** Everything the record holds, for stating what a method leaves alone. */
  datatype RecordState = RecordState(
    genres: set<string>, styles: set<string>, moods: set<string>,
    title: string, titleSort: string, studio: string, summary: string,
    originallyAvailableAt: DateField)

  class MetadataRecord {
    var genres: set<string>
    var styles: set<string>
    var moods: set<string>
    var title: string
    var titleSort: string
    var studio: string
    var summary: string
    var originallyAvailableAt: DateField

    function State(): RecordState
      reads this
    {
      RecordState(genres, styles, moods, title, titleSort, studio, summary, originallyAvailableAt)
    }

    constructor (st: RecordState)
      ensures State() == st
    {
      genres, styles, moods := st.genres, st.styles, st.moods;
      title, titleSort, studio, summary := st.title, st.titleSort, st.studio, st.summary;
      originallyAvailableAt := st.originallyAvailableAt;
    }

    /** add_genres: unless the preference forbids overwriting, the genres become
        the parent genre and the child genre. */
    method AddGenres(noOverwrite: bool, parent: string, child: string)
      modifies this
      ensures State() == old(State()).(genres := if noOverwrite then old(genres) else GenreSet(parent, child))
    {
      if !noOverwrite {
        genres := {};
        genres := genres + {parent};
        if child != "" {
          genres := genres + {child};
        }
      }
    }

    /** add_narrators_to_styles. */
    method AddNarratorsToStyles(narrator: string)
      modifies this
      ensures State() == old(State()).(styles := NarratorStyles(narrator))
    {
      var narrators := SplitOn(narrator, ',');
      styles := {};
      var i := 0;
      while i < |narrators|
        invariant 0 <= i <= |narrators|
        invariant styles == StylesOf(narrators[..i])
        invariant State() == old(State()).(styles := styles)
      {
        assert narrators[..i + 1][..i] == narrators[..i];
        styles := styles + {Strip(narrators[i])};
        i := i + 1;
      }
      assert narrators[..i] == narrators;
      StylesOfEntries(narrators);
    }

    /** add_authors_to_moods. */
    method AddAuthorsToMoods(author: string)
      modifies this
      ensures State() == old(State()).(moods := AuthorMoods(author))
    {
      var authors := SplitOn(author, ',');
      moods := {};
      var i := 0;
      while i < |authors|
        invariant 0 <= i <= |authors|
        invariant moods == MoodsOf(authors[..i])
        invariant State() == old(State()).(moods := moods)
      {
        assert authors[..i + 1][..i] == authors[..i];
        if !IsRole(authors[i]) {
          moods := moods + {Strip(authors[i])};
        }
        i := i + 1;
      }
      assert authors[..i] == authors;
      MoodsOfEntries(authors);
    }

    /** add_series_to_moods: the series links are added to the moods already
        there. */
    method AddSeriesToMoods(series: string, series2: string)
      modifies this
      ensures State() == old(State()).(moods := old(moods) + SeriesMoods(series, series2))
    {
      if series != "" {
        moods := moods + {"Series: " + series};
      }
      if series2 != "" {
        moods := moods + {"Series: " + series2};
      }
    }
  }

  // -------------------------------------------------------------- lemmas

  /** Every style is one narrator entry, stripped: it holds no comma and has no
      whitespace at either end. */
  lemma StylesAreStrippedNames(narrator: string)
    ensures forall x :: x in NarratorStyles(narrator) ==>
              ',' !in x && Strip(x) == x && Contains(narrator, x)
  {
    forall x | x in NarratorStyles(narrator)
      ensures ',' !in x && Strip(x) == x && Contains(narrator, x)
    {
      var p :| p in SplitOn(narrator, ',') && x == Strip(p);
      StripIdempotent(p);
      StripInside(p);
      PieceInside(narrator, p);
      ContainsTrans(narrator, p, x);
    }
  }

  /** No mood taken from the author list names a contributor role. */
  lemma MoodsNameNoRole(author: string)
    ensures forall x :: x in AuthorMoods(author) ==> !IsRole(x)
  {
    forall x | x in AuthorMoods(author) ensures !IsRole(x) {
      var p :| p in SplitOn(author, ',') && !IsRole(p) && x == Strip(p);
      if IsRole(x) {
        var i :| 0 <= i < |RoleWords| && Contains(Lower(x), RoleWords[i]);
        var lo, hi :| 0 <= lo <= hi <= |p| && x == p[lo..hi];
        LowerSlice(p, lo, hi);
        ContainsInSlice(Lower(p), lo, hi, RoleWords[i]);
      }
    }
  }

  /** A lone narrator is one style. */
  lemma SingleNarrator(narrator: string)
    requires ',' !in narrator
    ensures NarratorStyles(narrator) == {Strip(narrator)}
  {
    assert SplitOn(narrator, ',') == [narrator];
  }

  /** The genre string of the log lists the genre set, comma-separated. */
  lemma GenreStringListsGenres(parent: string, child: string)
    requires ',' !in parent && ',' !in child && Strip(parent) == parent && Strip(child) == child
    ensures (set p | p in SplitOn(GenreString(parent, child), ',') :: Strip(p)) == GenreSet(parent, child)
  {
    var g := GenreString(parent, child);
    if child != "" {
      var b := " " + child;
      assert g == parent + "," + b;
      SplitPair(parent, b, g);
      StripLeadingSpace(child);
      StrippedPair(parent, b, child);
    } else {
      assert SplitOn(parent, ',') == [parent];
    }
  }

  lemma StrippedPair(a: string, b: string, c: string)
    requires Strip(a) == a && Strip(b) == c
    ensures (set p | p in [a, b] :: Strip(p)) == {a, c}
  {
    assert forall p :: p in [a, b] <==> p == a || p == b;
  }

  lemma SplitPair(a: string, b: string, s: string)
    requires ',' !in a && ',' !in b && s == a + "," + b
    ensures SplitOn(s, ',') == [a, b]
  {
    assert s[|a|] == ',';
    assert s[..|a|] == a;
    var k := IndexOf(s, ',');
    assert k == |a|;
    assert s[k + 1..] == b;
  }

  // ------------------------------------------------------------- helpers

  lemma StripInside(p: string)
    ensures Contains(p, Strip(p)) && (',' !in p ==> ',' !in Strip(p))
  {
    var lo, hi :| 0 <= lo <= hi <= |p| && Strip(p) == p[lo..hi];
    assert StartsWith(p[lo..], Strip(p)) by {
      assert p[lo..][..hi - lo] == p[lo..hi];
    }
    ContainsAt(p, Strip(p), lo);
  }

  lemma PieceInside(s: string, p: string)
    requires p in SplitOn(s, ',')
    ensures Contains(s, p) && ',' !in p
    decreases |s|
  {
    if ',' in s {
      var k := IndexOf(s, ',');
      if p == s[..k] {
        assert StartsWith(s, p);
      } else {
        PieceInside(s[k + 1..], p);
        var j := ContainsWitness(s[k + 1..], p);
        assert s[k + 1..][j..] == s[k + 1 + j..];
        ContainsAt(s, p, k + 1 + j);
      }
    } else {
      assert StartsWith(s, p);
    }
  }

  lemma ContainsTrans(a: string, b: string, c: string)
    requires Contains(a, b) && Contains(b, c)
    ensures Contains(a, c)
  {
    var i := ContainsWitness(a, b);
    var j := ContainsWitness(b, c);
    forall k | 0 <= k < |c| ensures a[i + j + k] == c[k] {
      assert a[i..][..|b|][j + k] == b[j + k];
      assert b[j..][..|c|][k] == c[k];
    }
    assert a[i + j..][..|c|] == c;
    ContainsAt(a, c, i + j);
  }

  lemma StripLeadingSpace(s: string)
    requires Strip(s) == s && s != ""
    ensures Strip(" " + s) == s
  {
    var t := " " + s;
    assert t[1..] == s;
    assert LeadingSpaces(t) == 1 + LeadingSpaces(s);
    assert LeadingSpaces(s) == 0;
    assert TrailingSpaces(s) == 0;
    assert t[..|t| - 1] == " " + s[..|s| - 1];
    assert TrailingSpaces(t) == 0;
  }
}
