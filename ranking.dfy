/** run_search: walk the parsed rows in page order, skip rows without an item
    id and pre-order rows, score the rest, keep those at or above IGNORE_SCORE,
    then sort by score, highest first. Python's sorted(..., reverse=True) is
    stable, so rows with equal scores stay in page order. */
module Ranking {
  import opened Wrappers
  import opened Rows
  import opened Scoring

  /** The parts of the host's SearchTool the ranking calls: get_id_from_url
      ("" when no valid id is found) and check_if_preorder (which compares
      with today's date), both given as functions. */
  datatype SearchHelper = SearchHelper(
    item: LocalItem,
    idOf: Row -> string,
    isPreorder: Date -> bool)

  /** The dict appended to `info` for a kept row. */
  datatype Hit = Hit(
    id: string,
    title: string,
    year: Option<int>,
    date: Option<Date>,
    score: int,
    thumb: Option<string>,
    artist: string)

  /** Rows that reach score_result: a valid id, and not a pre-order listing
      (a row without a date is never checked). */
  predicate Eligible(h: SearchHelper, row: Row) {
    h.idOf(row) != "" && (row.date.None? || !h.isPreorder(row.date.value))
  }

  predicate Accepted(h: SearchHelper, row: Row) {
    Eligible(h, row) && ScoreResult(h.item, row) >= IgnoreScore
  }

  function HitOf(h: SearchHelper, row: Row): Hit {
    Hit(h.idOf(row), row.title,
        if row.date.Some? then Some(row.date.value.year) else None,
        row.date, ScoreResult(h.item, row), row.thumb, row.author)
  }

  /** `info` before sorting: the accepted rows in page order. */
  function Kept(h: SearchHelper, rows: seq<Row>): seq<Hit>
    decreases |rows|
  {
    if rows == [] then []
    else
      var last := rows[|rows| - 1];
      Kept(h, rows[..|rows| - 1]) + (if Accepted(h, last) then [HitOf(h, last)] else [])
  }

  predicate SortedByScore(s: seq<Hit>) {
    forall i, j :: 0 <= i < j < |s| ==> s[i].score >= s[j].score
  }

  /** The entries of s that have score k, in order. */
  function WithScore(s: seq<Hit>, k: int): seq<Hit>
    decreases |s|
  {
    if s == [] then []
    else (if s[0].score == k then [s[0]] else []) + WithScore(s[1..], k)
  }

  /** Insert x before the first entry whose score is not above x's. */
  function InsertByScore(x: Hit, s: seq<Hit>): (r: seq<Hit>)
    ensures multiset(r) == multiset(s) + multiset{x}
    decreases |s|
  {
    if s == [] || x.score >= s[0].score then [x] + s
    else
      assert s == [s[0]] + s[1..];
      [s[0]] + InsertByScore(x, s[1..])
  }

  /** sorted(s, key=score, reverse=True). */
  function SortByScore(s: seq<Hit>): (r: seq<Hit>)
    ensures multiset(r) == multiset(s)
    decreases |s|
  {
    if s == [] then []
    else
      assert s == [s[0]] + s[1..];
      InsertByScore(s[0], SortByScore(s[1..]))
  }

  function Ranked(h: SearchHelper, rows: seq<Row>): seq<Hit> {
    SortByScore(Kept(h, rows))
  }

  method RunSearch(h: SearchHelper, rows: seq<Row>) returns (info: seq<Hit>)
    ensures info == Ranked(h, rows)
  {
    info := [];
    var i := 0;
    while i < |rows|
      invariant 0 <= i <= |rows|
      invariant info == Kept(h, rows[..i])
    {
      assert rows[..i + 1][..i] == rows[..i];
      var f := rows[i];
      var validItemId := h.idOf(f);
      if validItemId == "" {
        i := i + 1;
        continue;
      }
      if f.date.Some? && h.isPreorder(f.date.value) {
        i := i + 1;
        continue;
      }
      var score := ScoreResult(h.item, f);
      if score >= IgnoreScore {
        info := info + [HitOf(h, f)];
      }
      i := i + 1;
    }
    assert rows[..i] == rows;
    info := SortByScore(info);
  }

  // ------------------------------------------------------------ ordering

  /** Inserting an entry under a bound into entries under it stays under it. */
  lemma {:induction false} InsertBounded(x: Hit, s: seq<Hit>, b: int)
    requires x.score <= b && forall i :: 0 <= i < |s| ==> s[i].score <= b
    ensures forall i :: 0 <= i < |InsertByScore(x, s)| ==> InsertByScore(x, s)[i].score <= b
    decreases |s|
  {
    if s != [] && x.score < s[0].score {
      InsertBounded(x, s[1..], b);
    }
  }

  lemma {:induction false} InsertKeepsSorted(x: Hit, s: seq<Hit>)
    requires SortedByScore(s)
    ensures SortedByScore(InsertByScore(x, s))
    decreases |s|
  {
    if s != [] && x.score < s[0].score {
      var t := InsertByScore(x, s[1..]);
      InsertKeepsSorted(x, s[1..]);
      InsertBounded(x, s[1..], s[0].score);
      var r := [s[0]] + t;
      assert InsertByScore(x, s) == r;
      forall i, j | 0 <= i < j < |r| ensures r[i].score >= r[j].score {
        assert r[j] == t[j - 1];
        if i > 0 {
          assert r[i] == t[i - 1];
        }
      }
    }
  }

  lemma {:induction false} SortIsSorted(s: seq<Hit>)
    ensures SortedByScore(SortByScore(s))
    decreases |s|
  {
    if s != [] {
      SortIsSorted(s[1..]);
      InsertKeepsSorted(s[0], SortByScore(s[1..]));
    }
  }

  lemma {:induction false} WithScoreInsert(x: Hit, s: seq<Hit>, k: int)
    ensures WithScore(InsertByScore(x, s), k) == (if x.score == k then [x] else []) + WithScore(s, k)
    decreases |s|
  {
    if s == [] || x.score >= s[0].score {
      assert ([x] + s)[1..] == s;
    } else {
      WithScoreInsert(x, s[1..], k);
      assert ([s[0]] + InsertByScore(x, s[1..]))[1..] == InsertByScore(x, s[1..]);
    }
  }

  /** Stability: for every score, the entries with that score come out of the
      sort in the order they went in. */
  lemma {:induction false} SortIsStable(s: seq<Hit>, k: int)
    ensures WithScore(SortByScore(s), k) == WithScore(s, k)
    decreases |s|
  {
    if s != [] {
      SortIsStable(s[1..], k);
      WithScoreInsert(s[0], SortByScore(s[1..]), k);
    }
  }

  // ---------------------------------------------------------- membership

  lemma {:induction false} KeptFromAcceptedRows(h: SearchHelper, rows: seq<Row>)
    ensures |Kept(h, rows)| <= |rows|
    ensures forall e :: e in Kept(h, rows) <==>
              exists j :: 0 <= j < |rows| && Accepted(h, rows[j]) && e == HitOf(h, rows[j])
    decreases |rows|
  {
    if rows != [] {
      var init := rows[..|rows| - 1];
      KeptFromAcceptedRows(h, init);
      assert forall j :: 0 <= j < |init| ==> init[j] == rows[j];
      forall e | e in Kept(h, rows)
        ensures exists j :: 0 <= j < |rows| && Accepted(h, rows[j]) && e == HitOf(h, rows[j])
      {
        if e !in Kept(h, init) {
          assert Accepted(h, rows[|rows| - 1]) && e == HitOf(h, rows[|rows| - 1]);
        }
      }
      forall e | exists j :: 0 <= j < |rows| && Accepted(h, rows[j]) && e == HitOf(h, rows[j])
        ensures e in Kept(h, rows)
      {
        var j :| 0 <= j < |rows| && Accepted(h, rows[j]) && e == HitOf(h, rows[j]);
        if j < |init| {
          assert e in Kept(h, init);
        }
      }
    }
  }

  /** What run_search returns: sorted by score, highest first, ties in page
      order; every entry is the hit of a row that has an id, is not a
      pre-order and scores at least IGNORE_SCORE, and every such row has its
      hit there; never more entries than rows. */
  lemma RankedProperties(h: SearchHelper, rows: seq<Row>)
    ensures SortedByScore(Ranked(h, rows))
    ensures forall k :: WithScore(Ranked(h, rows), k) == WithScore(Kept(h, rows), k)
    ensures |Ranked(h, rows)| <= |rows|
    ensures forall e :: e in Ranked(h, rows) <==>
              exists j :: 0 <= j < |rows| && Accepted(h, rows[j]) && e == HitOf(h, rows[j])
    ensures forall e :: e in Ranked(h, rows) ==> e.score >= IgnoreScore && e.id != ""
  {
    var kept := Kept(h, rows);
    SortIsSorted(kept);
    forall k ensures WithScore(Ranked(h, rows), k) == WithScore(kept, k) {
      SortIsStable(kept, k);
    }
    KeptFromAcceptedRows(h, rows);
    assert |Ranked(h, rows)| == |multiset(Ranked(h, rows))| == |multiset(kept)| == |kept|;
    forall e ensures e in Ranked(h, rows) <==> e in kept {
      assert e in Ranked(h, rows) <==> e in multiset(Ranked(h, rows));
    }
  }
}
