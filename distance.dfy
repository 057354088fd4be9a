/** Levenshtein edit distance, the measure the host's Util.LevenshteinDistance
    computes and the scorer turns into deductions. */
module Distance {

  function Min3(a: nat, b: nat, c: nat): (m: nat)
    ensures m <= a && m <= b && m <= c
    ensures m == a || m == b || m == c
  {
    if a <= b && a <= c then a else if b <= c then b else c
  }

  /** The fewest single-character insertions, deletions and substitutions that
      turn a into b. */
  function Levenshtein(a: string, b: string): nat
    decreases |a| + |b|
  {
    if |a| == 0 then |b|
    else if |b| == 0 then |a|
    else Min3(Levenshtein(a[1..], b) + 1,
              Levenshtein(a, b[1..]) + 1,
              Levenshtein(a[1..], b[1..]) + (if a[0] == b[0] then 0 else 1))
  }

  lemma {:induction false} LevenshteinSelf(a: string)
    ensures Levenshtein(a, a) == 0
    decreases |a|
  {
    if |a| > 0 {
      LevenshteinSelf(a[1..]);
    }
  }

  /** Distance 0 means the strings are equal, so the only zero deduction is an
      exact match. */
  lemma {:induction false} LevenshteinZero(a: string, b: string)
    requires Levenshtein(a, b) == 0
    ensures a == b
    decreases |a| + |b|
  {
    if |a| > 0 && |b| > 0 {
      LevenshteinZero(a[1..], b[1..]);
      assert a == [a[0]] + a[1..] && b == [b[0]] + b[1..];
    }
  }

  lemma {:induction false} LevenshteinUpper(a: string, b: string)
    ensures Levenshtein(a, b) <= if |a| >= |b| then |a| else |b|
    decreases |a| + |b|
  {
    if |a| > 0 && |b| > 0 {
      LevenshteinUpper(a[1..], b[1..]);
    }
  }

  lemma {:induction false} LevenshteinLower(a: string, b: string)
    ensures Levenshtein(a, b) >= if |a| >= |b| then |a| - |b| else |b| - |a|
    decreases |a| + |b|
  {
    if |a| > 0 && |b| > 0 {
      LevenshteinLower(a[1..], b);
      LevenshteinLower(a, b[1..]);
      LevenshteinLower(a[1..], b[1..]);
    }
  }

  lemma {:induction false} LevenshteinSymmetric(a: string, b: string)
    ensures Levenshtein(a, b) == Levenshtein(b, a)
    decreases |a| + |b|
  {
    if |a| > 0 && |b| > 0 {
      LevenshteinSymmetric(a[1..], b);
      LevenshteinSymmetric(a, b[1..]);
      LevenshteinSymmetric(a[1..], b[1..]);
    }
  }
}
