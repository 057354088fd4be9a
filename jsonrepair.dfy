/** The repair applied to an embedded structured-data block before it is
    parsed as JSON: line breaks are removed, then every backslash that follows
    a character other than a backslash and does not start a JSON escape is
    doubled. The regular expression's matches never overlap (a match ends on
    the backslash, and the next one must start on a non-backslash), so the
    repair is defined one character at a time. */
module JsonRepair {
  import opened Wrappers
  import opened Text

  predicate IsHex(c: char) {
    ('0' <= c <= '9') || ('a' <= c <= 'f') || ('A' <= c <= 'F')
  }

  /** What may follow a backslash: one of b f n r t ' " \ /, or u and four
      hexadecimal digits. */
  predicate EscapeFollows(t: string) {
    |t| >= 1
    && (t[0] in "bfnrt'\"\\/"
        || (|t| >= 5 && t[0] == 'u' && IsHex(t[1]) && IsHex(t[2]) && IsHex(t[3]) && IsHex(t[4])))
  }

  /** The first character of s is a backslash the regular expression matches,
      given the character before it. */
  predicate Flagged(prev: Option<char>, s: string) {
    |s| >= 1 && s[0] == '\\' && prev.Some? && prev.value != '\\' && !EscapeFollows(s[1..])
  }

  function RepairFrom(prev: Option<char>, s: string): string
    decreases |s|
  {
    if s == [] then []
    else (if Flagged(prev, s) then "\\\\" else [s[0]]) + RepairFrom(Some(s[0]), s[1..])
  }

  /** Delete every occurrence of one character. */
  function Remove(s: string, c: char): (r: string)
    ensures c !in r
    ensures forall d :: d in r ==> d in s
    decreases |s|
  {
    if s == [] then [] else (if s[0] == c then [] else [s[0]]) + Remove(s[1..], c)
  }

  /** The repair of one structured-data block. */
  function RepairJson(s: string): string {
    RepairFrom(None, ReplaceAll(s, "\n", ""))
  }

  /** No backslash in s is one the repair would double. */
  predicate CleanFrom(prev: Option<char>, s: string)
    decreases |s|
  {
    s == [] || (!Flagged(prev, s) && CleanFrom(Some(s[0]), s[1..]))
  }

  // -------------------------------------------------------------- lemmas

  /** Removing a one-character pattern with ReplaceAll is Remove. */
  lemma {:induction false} ReplaceIsRemove(s: string, c: char)
    ensures ReplaceAll(s, [c], []) == Remove(s, c)
    decreases |s|
  {
    if s != [] {
      ReplaceIsRemove(s[1..], c);
      assert s[..1] == [s[0]];
      assert s[1..] == s[|[c]|..];
    }
  }

  /** Clean text is a fixpoint of the repair. */
  lemma {:induction false} CleanIsFixpoint(prev: Option<char>, s: string)
    requires CleanFrom(prev, s)
    ensures RepairFrom(prev, s) == s
    decreases |s|
  {
    if s != [] {
      CleanIsFixpoint(Some(s[0]), s[1..]);
    }
  }

  /** A prefix without backslashes comes through the repair unchanged. */
  lemma {:induction false} RepairKeepsPlainPrefix(prev: Option<char>, s: string, k: nat)
    requires k <= |s| && '\\' !in s[..k]
    ensures |RepairFrom(prev, s)| >= k && RepairFrom(prev, s)[..k] == s[..k]
    decreases k
  {
    if k > 0 {
      assert s[0] == s[..k][0];
      assert s[1..][..k - 1] == s[..k][1..];
      RepairKeepsPlainPrefix(Some(s[0]), s[1..], k - 1);
    }
  }

  /** A valid escape after a backslash stays valid. */
  lemma EscapeSurvives(t: string)
    requires EscapeFollows(t)
    ensures EscapeFollows(RepairFrom(Some('\\'), t))
  {
    if t[0] == '\\' {
      assert !Flagged(Some('\\'), t);
    } else if t[0] in "bfnrt'\"/" {
      RepairKeepsPlainPrefix(Some('\\'), t, 1);
    } else {
      assert '\\' !in t[..5];
      RepairKeepsPlainPrefix(Some('\\'), t, 5);
      var r := RepairFrom(Some('\\'), t);
      assert r[..5] == t[..5];
      assert r[0] == t[0] && r[1] == t[1] && r[2] == t[2] && r[3] == t[3] && r[4] == t[4];
    }
  }

  /** The output of the repair is clean. */
  lemma {:induction false} RepairIsClean(prev: Option<char>, s: string)
    ensures CleanFrom(prev, RepairFrom(prev, s))
    decreases |s|
  {
    if s != [] {
      var rest := RepairFrom(Some(s[0]), s[1..]);
      RepairIsClean(Some(s[0]), s[1..]);
      if Flagged(prev, s) {
        var out := "\\\\" + rest;
        assert out[1..] == "\\" + rest && ("\\" + rest)[1..] == rest;
        assert EscapeFollows(out[1..]);
        assert !Flagged(Some('\\'), out[1..]);
      } else {
        var out := [s[0]] + rest;
        assert out[1..] == rest;
        if s[0] == '\\' && prev.Some? && prev.value != '\\' {
          EscapeSurvives(s[1..]);
        }
      }
    }
  }

  /** Repairing twice is repairing once. */
  lemma RepairIdempotent(s: string)
    ensures RepairJson(RepairJson(s)) == RepairJson(s)
  {
    var once := RepairJson(s);
    var joined := ReplaceAll(s, "\n", "");
    ReplaceIsRemove(s, '\n');
    NoNewlineAdded(None, joined);
    AbsentNotContained(once, '\n');
    RepairIsClean(None, joined);
    CleanIsFixpoint(None, once);
  }

  lemma {:induction false} AbsentNotContained(s: string, c: char)
    requires c !in s
    ensures !Contains(s, [c])
    decreases |s|
  {
    if s != [] {
      AbsentNotContained(s[1..], c);
      assert !StartsWith(s, [c]) by {
        assert s[0] != c;
      }
    }
  }

  lemma {:induction false} NoNewlineAdded(prev: Option<char>, s: string)
    requires '\n' !in s
    ensures '\n' !in RepairFrom(prev, s)
    decreases |s|
  {
    if s != [] {
      NoNewlineAdded(Some(s[0]), s[1..]);
    }
  }

  /** Text without backslashes or line breaks is left alone. */
  lemma PlainUnchanged(s: string)
    requires '\\' !in s && '\n' !in s
    ensures RepairJson(s) == s
  {
    ReplaceIsRemove(s, '\n');
    RemoveAbsent(s, '\n');
    PlainIsClean(None, s);
    CleanIsFixpoint(None, s);
  }

  lemma {:induction false} RemoveAbsent(s: string, c: char)
    requires c !in s
    ensures Remove(s, c) == s
    decreases |s|
  {
    if s != [] {
      RemoveAbsent(s[1..], c);
    }
  }

  lemma {:induction false} PlainIsClean(prev: Option<char>, s: string)
    requires '\\' !in s
    ensures CleanFrom(prev, s)
    decreases |s|
  {
    if s != [] {
      PlainIsClean(Some(s[0]), s[1..]);
    }
  }

  /** The repair only inserts backslashes: with every backslash deleted, input
      and output agree. */
  lemma {:induction false} RepairOnlyAddsBackslashes(prev: Option<char>, s: string)
    ensures Remove(RepairFrom(prev, s), '\\') == Remove(s, '\\')
    decreases |s|
  {
    if s != [] {
      var piece := if Flagged(prev, s) then "\\\\" else [s[0]];
      var rest := RepairFrom(Some(s[0]), s[1..]);
      RepairOnlyAddsBackslashes(Some(s[0]), s[1..]);
      RemoveAppend(piece, rest, '\\');
      if Flagged(prev, s) {
        assert piece[1..][1..] == [];
      }
    }
  }

  lemma {:induction false} RemoveAppend(a: string, b: string, c: char)
    ensures Remove(a + b, c) == Remove(a, c) + Remove(b, c)
    decreases |a|
  {
    if a != [] {
      assert (a + b)[1..] == a[1..] + b;
      RemoveAppend(a[1..], b, c);
    } else {
      assert a + b == b;
    }
  }

  /** One character is added for every flagged backslash and none otherwise. */
  lemma {:induction false} RepairLength(prev: Option<char>, s: string)
    ensures |RepairFrom(prev, s)| == |s| + FlaggedCount(prev, s)
    decreases |s|
  {
    if s != [] {
      RepairLength(Some(s[0]), s[1..]);
    }
  }

  function FlaggedCount(prev: Option<char>, s: string): nat
    decreases |s|
  {
    if s == [] then 0 else (if Flagged(prev, s) then 1 else 0) + FlaggedCount(Some(s[0]), s[1..])
  }

  /** Text without backslashes passes through, and the character before what
      follows is its last one. */
  lemma {:induction false} RepairPlainPrefix(prev: Option<char>, a: string, rest: string)
    requires a != [] && '\\' !in a
    ensures RepairFrom(prev, a + rest) == a + RepairFrom(Some(a[|a| - 1]), rest)
    decreases |a|
  {
    var s := a + rest;
    assert s[0] == a[0] && s[1..] == a[1..] + rest;
    if |a| > 1 {
      RepairPlainPrefix(Some(a[0]), a[1..], rest);
    }
  }

  /** A backslash between plain text that starts no escape is doubled, and
      nothing else changes. */
  lemma StrayBackslashDoubled(a: string, c: char, b: string)
    requires a != [] && '\\' !in a && '\n' !in a && '\\' !in b && '\n' !in b
    requires c !in "bfnrt'\"\\/u\n"
    ensures RepairJson(a + ['\\', c] + b) == a + "\\\\" + [c] + b
  {
    var tail := ['\\', c] + b;
    var s := a + tail;
    assert '\n' !in s;
    PlainUnchangedByJoin(s);
    RepairPlainPrefix(None, a, tail);
    assert a + ['\\', c] + b == s;
    assert Flagged(Some(a[|a| - 1]), tail);
    assert tail[1..] == [c] + b && ([c] + b)[1..] == b;
    PlainIsClean(Some(c), b);
    CleanIsFixpoint(Some(c), b);
    assert RepairFrom(Some('\\'), [c] + b) == [c] + b;
    assert RepairFrom(Some(a[|a| - 1]), tail) == "\\\\" + ([c] + b);
  }

  lemma PlainUnchangedByJoin(s: string)
    requires '\n' !in s
    ensures ReplaceAll(s, "\n", "") == s
  {
    ReplaceIsRemove(s, '\n');
    RemoveAbsent(s, '\n');
  }
}
