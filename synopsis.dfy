/** The synopsis cleanup in update: a fixed, ordered table of literal
    replace-all steps that removes inline tags and turns list and paragraph
    tags into newlines and bullets. */
module Synopsis {
  import opened Text

  /** (tag, replacement) in the order the source applies them. */
  const Steps: seq<(string, string)> := [
    ("<i>", ""), ("</i>", ""),
    ("<em>", ""), ("</em>", ""),
    ("<u>", ""), ("</u>", ""),
    ("<b>", ""), ("</b>", ""),
    ("<strong>", ""), ("</strong>", ""),
    ("<ul>", ""), ("</ul>", "\n"),
    ("<ol>", ""), ("</ol>", "\n"),
    ("<li>", " \U{2022} "), ("</li>", "\n"),
    ("<br />", ""),
    ("<p>", ""), ("</p>", "\n")
  ]

  /** A tag as the table's patterns are: '<' first, '>' last, neither inside. */
  predicate SimpleTag(t: string) {
    |t| >= 2 && t[0] == '<' && t[|t| - 1] == '>'
    && (forall i :: 0 < i < |t| ==> t[i] != '<')
    && (forall i :: 0 <= i < |t| - 1 ==> t[i] != '>')
  }

  /** Text between tags. */
  predicate Plain(t: string) {
    '<' !in t
  }

  predicate WellFormedSteps(steps: seq<(string, string)>) {
    forall i :: 0 <= i < |steps| ==> SimpleTag(steps[i].0) && Plain(steps[i].1)
  }

  function ApplySteps(s: string, steps: seq<(string, string)>): string
    requires WellFormedSteps(steps)
    decreases |steps|
  {
    if steps == [] then s
    else ApplySteps(ReplaceAll(s, steps[0].0, steps[0].1), steps[1..])
  }

  function CleanSynopsis(s: string): string {
    assert WellFormedSteps(Steps) by {
      forall i | 0 <= i < |Steps| ensures SimpleTag(Steps[i].0) && Plain(Steps[i].1) {
      }
    }
    ApplySteps(s, Steps)
  }

  /** What each piece of a synopsis becomes: the replacement for a tag of the
      table, everything else as it is. */
  function RenderPiece(t: string): string {
    if t in {"</p>", "</li>", "</ul>", "</ol>"} then "\n"
    else if t == "<li>" then " \U{2022} "
    else if t in {"<i>", "</i>", "<em>", "</em>", "<u>", "</u>", "<b>", "</b>",
                  "<strong>", "</strong>", "<ul>", "<ol>", "<br />", "<p>"} then ""
    else t
  }

  /** A synopsis cut into pieces that are plain text or simple tags. */
  predicate Pieces(ps: seq<string>) {
    forall i :: 0 <= i < |ps| ==> Plain(ps[i]) || SimpleTag(ps[i])
  }

  // ------------------------------------------------ one replace-all step

  /** No match can start inside plain text. */
  lemma {:induction false} ReplacePlainPrefix(a: string, b: string, p: string, rep: string)
    requires Plain(a) && p != [] && p[0] == '<'
    ensures ReplaceAll(a + b, p, rep) == a + ReplaceAll(b, p, rep)
    decreases |a|
  {
    if a != [] {
      var s := a + b;
      if |s| >= |p| {
        assert s[..|p|][0] == a[0] != p[0];
      }
      assert s[1..] == a[1..] + b;
      ReplacePlainPrefix(a[1..], b, p, rep);
      if |s| < |p| {
        assert |b| < |p| && ReplaceAll(b, p, rep) == b;
      }
    } else {
      assert a + b == b;
    }
  }

  /** A simple tag is no proper prefix of another simple tag. */
  lemma TagMismatch(t: string, b: string, p: string)
    requires SimpleTag(t) && SimpleTag(p) && t != p && |t + b| >= |p|
    ensures (t + b)[..|p|] != p
  {
    var s := t + b;
    if |p| < |t| {
      assert s[..|p|][|p| - 1] == t[|p| - 1];
      assert t[|p| - 1] != '>';
    } else if |p| > |t| {
      assert s[..|p|][|t| - 1] == t[|t| - 1];
      assert p[|t| - 1] != '>';
    } else {
      assert s[..|p|] == t;
    }
  }

  /** A simple tag in front is replaced when it is the pattern, kept when not. */
  lemma ReplaceTagPrefix(t: string, b: string, p: string, rep: string)
    requires SimpleTag(t) && SimpleTag(p)
    ensures ReplaceAll(t + b, p, rep) == (if t == p then rep else t) + ReplaceAll(b, p, rep)
  {
    var s := t + b;
    if t == p {
      assert s[..|p|] == p && s[|p|..] == b;
    } else {
      if |s| >= |p| {
        TagMismatch(t, b, p);
      }
      assert s[1..] == t[1..] + b;
      assert Plain(t[1..]) by {
        forall i | 0 <= i < |t[1..]| ensures t[1..][i] != '<' {
          assert t[1..][i] == t[i + 1];
        }
      }
      ReplacePlainPrefix(t[1..], b, p, rep);
    }
  }

  function Step(t: string, p: string, rep: string): string {
    if SimpleTag(t) && t == p then rep else t
  }

  function MapStep(ps: seq<string>, p: string, rep: string): (r: seq<string>)
    ensures |r| == |ps|
    decreases |ps|
  {
    if ps == [] then [] else [Step(ps[0], p, rep)] + MapStep(ps[1..], p, rep)
  }

  lemma {:induction false} ReplacePieces(ps: seq<string>, p: string, rep: string)
    requires Pieces(ps) && SimpleTag(p)
    ensures ReplaceAll(Concat(ps), p, rep) == Concat(MapStep(ps, p, rep))
    decreases |ps|
  {
    if ps != [] {
      ReplacePieces(ps[1..], p, rep);
      if SimpleTag(ps[0]) {
        ReplaceTagPrefix(ps[0], Concat(ps[1..]), p, rep);
      } else {
        ReplacePlainPrefix(ps[0], Concat(ps[1..]), p, rep);
      }
    } else {
      assert ReplaceAll([], p, rep) == [];
    }
  }

  // ----------------------------------------------------- the whole table

  function MapApply(ps: seq<string>, steps: seq<(string, string)>): (r: seq<string>)
    requires WellFormedSteps(steps)
    ensures |r| == |ps|
    decreases |ps|
  {
    if ps == [] then [] else [ApplySteps(ps[0], steps)] + MapApply(ps[1..], steps)
  }

  lemma {:induction false} MapStepPieces(ps: seq<string>, p: string, rep: string)
    requires Pieces(ps) && Plain(rep)
    ensures Pieces(MapStep(ps, p, rep))
    decreases |ps|
  {
    if ps != [] {
      MapStepPieces(ps[1..], p, rep);
    }
  }

  /** Applying the table to a piece on its own is one step and then the rest. */
  lemma {:induction false} ApplyPieceStep(t: string, steps: seq<(string, string)>)
    requires Plain(t) || SimpleTag(t)
    requires WellFormedSteps(steps) && steps != []
    ensures ApplySteps(t, steps) == ApplySteps(Step(t, steps[0].0, steps[0].1), steps[1..])
  {
    ReplacePieces([t], steps[0].0, steps[0].1);
    assert Concat([t]) == t;
    assert Concat([Step(t, steps[0].0, steps[0].1)]) == Step(t, steps[0].0, steps[0].1);
  }

  lemma {:induction false} MapApplyStep(ps: seq<string>, steps: seq<(string, string)>)
    requires Pieces(ps) && WellFormedSteps(steps) && steps != []
    ensures MapApply(ps, steps) == MapApply(MapStep(ps, steps[0].0, steps[0].1), steps[1..])
    decreases |ps|
  {
    if ps != [] {
      MapApplyStep(ps[1..], steps);
      ApplyPieceStep(ps[0], steps);
    }
  }

  lemma {:induction false} ApplyPieces(ps: seq<string>, steps: seq<(string, string)>)
    requires Pieces(ps) && WellFormedSteps(steps)
    ensures ApplySteps(Concat(ps), steps) == Concat(MapApply(ps, steps))
    decreases |steps|
  {
    if steps == [] {
      assert MapApply(ps, steps) == ps by { MapApplyEmpty(ps, steps); }
    } else {
      var p, rep := steps[0].0, steps[0].1;
      ReplacePieces(ps, p, rep);
      MapStepPieces(ps, p, rep);
      ApplyPieces(MapStep(ps, p, rep), steps[1..]);
      MapApplyStep(ps, steps);
    }
  }

  lemma {:induction false} MapApplyEmpty(ps: seq<string>, steps: seq<(string, string)>)
    requires WellFormedSteps(steps) && steps == []
    ensures MapApply(ps, steps) == ps
    decreases |ps|
  {
    if ps != [] {
      MapApplyEmpty(ps[1..], steps);
    }
  }

  // -------------------------------------------------------- single pieces

  /** Plain text goes through every step untouched. */
  lemma {:induction false} ApplyPlain(t: string, steps: seq<(string, string)>)
    requires Plain(t) && WellFormedSteps(steps)
    ensures ApplySteps(t, steps) == t
    decreases |steps|
  {
    if steps != [] {
      ReplacePlainPrefix(t, [], steps[0].0, steps[0].1);
      assert t + [] == t;
      assert ReplaceAll([], steps[0].0, steps[0].1) == [];
      ApplyPlain(t, steps[1..]);
    }
  }

  /** A tag is replaced by the first step whose pattern it is, or kept. */
  lemma {:induction false} ApplyTag(t: string, steps: seq<(string, string)>)
    requires SimpleTag(t) && WellFormedSteps(steps)
    ensures ApplySteps(t, steps) == FirstReplacement(t, steps)
    decreases |steps|
  {
    if steps != [] {
      ApplyPieceStep(t, steps);
      if t == steps[0].0 {
        ApplyPlain(steps[0].1, steps[1..]);
      } else {
        ApplyTag(t, steps[1..]);
      }
    }
  }

  function FirstReplacement(t: string, steps: seq<(string, string)>): string
    decreases |steps|
  {
    if steps == [] then t
    else if steps[0].0 == t then steps[0].1
    else FirstReplacement(t, steps[1..])
  }

  lemma StepsWellFormed()
    ensures WellFormedSteps(Steps)
  {
    forall i | 0 <= i < |Steps| ensures SimpleTag(Steps[i].0) && Plain(Steps[i].1) {
    }
  }

  /** Finding a tag at position i of a table whose earlier patterns differ. */
  lemma {:induction false} FirstReplacementAt(t: string, steps: seq<(string, string)>, i: nat)
    requires i < |steps| && steps[i].0 == t
    requires forall j :: 0 <= j < i ==> steps[j].0 != t
    ensures FirstReplacement(t, steps) == steps[i].1
    decreases i
  {
    if i > 0 {
      FirstReplacementAt(t, steps[1..], i - 1);
    }
  }

  lemma {:induction false} FirstReplacementMiss(t: string, steps: seq<(string, string)>)
    requires forall i :: 0 <= i < |steps| ==> steps[i].0 != t
    ensures FirstReplacement(t, steps) == t
    decreases |steps|
  {
    if steps != [] {
      FirstReplacementMiss(t, steps[1..]);
    }
  }

  /** Each row of the table, looked up on its own. */
  lemma Row0(t: string) requires t == "<i>" ensures FirstReplacement(t, Steps) == RenderPiece(t) { FirstReplacementAt(t, Steps, 0); }
  lemma Row1(t: string) requires t == "</i>" ensures FirstReplacement(t, Steps) == RenderPiece(t) { FirstReplacementAt(t, Steps, 1); }
  lemma Row2(t: string) requires t == "<em>" ensures FirstReplacement(t, Steps) == RenderPiece(t) { FirstReplacementAt(t, Steps, 2); }
  lemma Row3(t: string) requires t == "</em>" ensures FirstReplacement(t, Steps) == RenderPiece(t) { FirstReplacementAt(t, Steps, 3); }
  lemma Row4(t: string) requires t == "<u>" ensures FirstReplacement(t, Steps) == RenderPiece(t) { FirstReplacementAt(t, Steps, 4); }
  lemma Row5(t: string) requires t == "</u>" ensures FirstReplacement(t, Steps) == RenderPiece(t) { FirstReplacementAt(t, Steps, 5); }
  lemma Row6(t: string) requires t == "<b>" ensures FirstReplacement(t, Steps) == RenderPiece(t) { FirstReplacementAt(t, Steps, 6); }
  lemma Row7(t: string) requires t == "</b>" ensures FirstReplacement(t, Steps) == RenderPiece(t) { FirstReplacementAt(t, Steps, 7); }
  lemma Row8(t: string) requires t == "<strong>" ensures FirstReplacement(t, Steps) == RenderPiece(t) { FirstReplacementAt(t, Steps, 8); }
  lemma Row9(t: string) requires t == "</strong>" ensures FirstReplacement(t, Steps) == RenderPiece(t) { FirstReplacementAt(t, Steps, 9); }
  lemma Row10(t: string) requires t == "<ul>" ensures FirstReplacement(t, Steps) == RenderPiece(t) { FirstReplacementAt(t, Steps, 10); }
  lemma Row11(t: string) requires t == "</ul>" ensures FirstReplacement(t, Steps) == RenderPiece(t) { FirstReplacementAt(t, Steps, 11); }
  lemma Row12(t: string) requires t == "<ol>" ensures FirstReplacement(t, Steps) == RenderPiece(t) { FirstReplacementAt(t, Steps, 12); }
  lemma Row13(t: string) requires t == "</ol>" ensures FirstReplacement(t, Steps) == RenderPiece(t) { FirstReplacementAt(t, Steps, 13); }
  lemma Row14(t: string) requires t == "<li>" ensures FirstReplacement(t, Steps) == RenderPiece(t) { FirstReplacementAt(t, Steps, 14); }
  lemma Row15(t: string) requires t == "</li>" ensures FirstReplacement(t, Steps) == RenderPiece(t) { FirstReplacementAt(t, Steps, 15); }
  lemma Row16(t: string) requires t == "<br />" ensures FirstReplacement(t, Steps) == RenderPiece(t) { FirstReplacementAt(t, Steps, 16); }
  lemma Row17(t: string) requires t == "<p>" ensures FirstReplacement(t, Steps) == RenderPiece(t) { FirstReplacementAt(t, Steps, 17); }
  lemma Row18(t: string) requires t == "</p>" ensures FirstReplacement(t, Steps) == RenderPiece(t) { FirstReplacementAt(t, Steps, 18); }

  lemma OutsideTable(t: string)
    requires t !in {"<i>", "</i>", "<em>", "</em>", "<u>"} && t !in {"</u>", "<b>", "</b>", "<strong>", "</strong>"}
    requires t !in {"<ul>", "</ul>", "<ol>", "</ol>", "<li>"} && t !in {"</li>", "<br />", "<p>", "</p>"}
    ensures FirstReplacement(t, Steps) == t == RenderPiece(t)
  {
    assert forall i :: 0 <= i < |Steps| ==> Steps[i].0 != t;
    FirstReplacementMiss(t, Steps);
  }

  /** Looking a piece up in the table agrees with the reference rendering. */
  lemma LookupIsRender(t: string)
    ensures FirstReplacement(t, Steps) == RenderPiece(t)
  {
    if t == "<i>" {
      Row0(t);
    } else if t == "</i>" {
      Row1(t);
    } else if t == "<em>" {
      Row2(t);
    } else if t == "</em>" {
      Row3(t);
    } else if t == "<u>" {
      Row4(t);
    } else if t == "</u>" {
      Row5(t);
    } else if t == "<b>" {
      Row6(t);
    } else if t == "</b>" {
      Row7(t);
    } else if t == "<strong>" {
      Row8(t);
    } else if t == "</strong>" {
      Row9(t);
    } else if t == "<ul>" {
      Row10(t);
    } else if t == "</ul>" {
      Row11(t);
    } else if t == "<ol>" {
      Row12(t);
    } else if t == "</ol>" {
      Row13(t);
    } else if t == "<li>" {
      Row14(t);
    } else if t == "</li>" {
      Row15(t);
    } else if t == "<br />" {
      Row16(t);
    } else if t == "<p>" {
      Row17(t);
    } else if t == "</p>" {
      Row18(t);
    } else {
      OutsideTable(t);
    }
  }

  /** The table and the reference rendering agree on every single piece. */
  lemma RenderMatchesTable(t: string)
    requires Plain(t) || SimpleTag(t)
    ensures CleanSynopsis(t) == RenderPiece(t)
  {
    StepsWellFormed();
    if SimpleTag(t) {
      ApplyTag(t, Steps);
      LookupIsRender(t);
    } else {
      ApplyPlain(t, Steps);
      PlainRender(t);
    }
  }

  lemma PlainRender(t: string)
    requires Plain(t)
    ensures RenderPiece(t) == t
  {
    if t != [] {
      assert t[0] != '<';
    }
  }

  function MapRender(ps: seq<string>): (r: seq<string>)
    decreases |ps|
  {
    if ps == [] then [] else [RenderPiece(ps[0])] + MapRender(ps[1..])
  }

  lemma {:induction false} MapApplyIsRender(ps: seq<string>)
    requires Pieces(ps)
    ensures (StepsWellFormed(); MapApply(ps, Steps)) == MapRender(ps)
    decreases |ps|
  {
    StepsWellFormed();
    if ps != [] {
      MapApplyIsRender(ps[1..]);
      RenderMatchesTable(ps[0]);
    }
  }

  // ------------------------------------------------------------ theorems

  /** A synopsis made of plain text and simple tags is cleaned piece by piece:
      each "</p>", "</li>", "</ul>" and "</ol>" becomes a newline, each "<li>"
      a bullet, the other tags of the table vanish, and the text between them
      and every other tag is kept as it is. */
  lemma CleanByPieces(ps: seq<string>)
    requires Pieces(ps)
    ensures CleanSynopsis(Concat(ps)) == Concat(MapRender(ps))
  {
    StepsWellFormed();
    ApplyPieces(ps, Steps);
    MapApplyIsRender(ps);
  }

  /** A synopsis without '<' is returned unchanged. */
  lemma CleanPlain(s: string)
    requires Plain(s)
    ensures CleanSynopsis(s) == s
  {
    StepsWellFormed();
    ApplyPlain(s, Steps);
  }

  lemma Concat3(x: string, y: string, z: string)
    ensures Concat([x, y, z]) == x + y + z
  {
    assert [z][1..] == [];
    assert Concat([z]) == z + Concat([]) == z;
    assert [y, z][1..] == [z];
    assert Concat([y, z]) == y + z;
    assert [x, y, z][1..] == [y, z];
    assert Concat([x, y, z]) == x + (y + z);
  }

  lemma MapRender3(x: string, y: string, z: string)
    ensures MapRender([x, y, z]) == [RenderPiece(x), RenderPiece(y), RenderPiece(z)]
  {
    var ps := [x, y, z];
    assert ps[1..] == [y, z] && ps[1..][1..] == [z] && [z][1..] == [];
    assert MapRender([z]) == [RenderPiece(z)] + MapRender([]);
    assert MapRender([y, z]) == [RenderPiece(y)] + MapRender([z]);
  }

  /** A paragraph of plain text becomes its text and a line break. */
  lemma ParagraphBecomesLine(a: string, s: string)
    requires Plain(a) && s == "<p>" + a + "</p>"
    ensures CleanSynopsis(s) == a + "\n"
  {
    var ps := ["<p>", a, "</p>"];
    var c := Concat(ps);
    assert c == s by { Concat3("<p>", a, "</p>"); }
    var m := Concat(MapRender(ps));
    assert m == a + "\n" by {
      MapRender3("<p>", a, "</p>");
      PlainRender(a);
      Concat3("", a, "\n");
    }
    assert CleanSynopsis(c) == m by {
      assert Pieces(ps);
      CleanByPieces(ps);
    }
  }

  /** A list item of plain text becomes a bullet line. */
  lemma ListItemBecomesBullet(a: string, s: string)
    requires Plain(a) && s == "<li>" + a + "</li>"
    ensures CleanSynopsis(s) == " \U{2022} " + a + "\n"
  {
    var ps := ["<li>", a, "</li>"];
    var c := Concat(ps);
    assert c == s by { Concat3("<li>", a, "</li>"); }
    var m := Concat(MapRender(ps));
    assert m == " \U{2022} " + a + "\n" by {
      MapRender3("<li>", a, "</li>");
      PlainRender(a);
      Concat3(" \U{2022} ", a, "\n");
    }
    assert CleanSynopsis(c) == m by {
      assert Pieces(ps);
      CleanByPieces(ps);
    }
  }
}
