/** How Python's `re` picks a match for the few pattern shapes the agent uses.
    re.search returns the leftmost match; a leading greedy `(.*)` under re.match
    first takes everything up to the first newline (`.` does not match '\n')
    and then backs off one character at a time, so it settles on the LAST split
    point at which the rest of the pattern matches. */
module Scan {
  import opened Wrappers

  /** The least k with lo <= k <= hi and p(k): the leftmost match. */
  function FirstWhere(lo: nat, hi: nat, p: nat -> bool): (r: Option<nat>)
    ensures r.Some? ==> lo <= r.value <= hi && p(r.value)
                        && forall k :: lo <= k < r.value ==> !p(k)
    ensures r.None? ==> forall k :: lo <= k <= hi ==> !p(k)
    decreases hi - lo
  {
    if lo > hi then None
    else if p(lo) then Some(lo)
    else if lo == hi then None
    else FirstWhere(lo + 1, hi, p)
  }

  /** The greatest k <= hi with p(k): where a greedy prefix stops backing off. */
  function LastWhere(hi: nat, p: nat -> bool): (r: Option<nat>)
    ensures r.Some? ==> r.value <= hi && p(r.value)
                        && forall k :: r.value < k <= hi ==> !p(k)
    ensures r.None? ==> forall k :: 0 <= k <= hi ==> !p(k)
    decreases hi
  {
    if p(hi) then Some(hi)
    else if hi == 0 then None
    else LastWhere(hi - 1, p)
  }

  /** The index of the first '\n', or |s| when there is none. */
  function FirstNewline(s: string): (n: nat)
    ensures n <= |s|
    ensures '\n' !in s[..n]
    ensures n < |s| ==> s[n] == '\n'
    decreases |s|
  {
    if s == [] then 0
    else if s[0] == '\n' then 0
    else
      var m := FirstNewline(s[1..]);
      assert s[..m + 1] == [s[0]] + s[1..][..m];
      m + 1
  }

  /** `.*` can cover s[..k] exactly when k does not pass the first newline. */
  lemma NewlineFree(s: string, k: nat)
    requires k <= |s|
    ensures ('\n' !in s[..k]) <==> k <= FirstNewline(s)
  {
    var n := FirstNewline(s);
    if k > n {
      assert s[..k][n] == '\n';
    } else {
      assert s[..k] == s[..n][..k];
    }
  }

  /** re.match("(.*)X", s) where `starts(k)` says that X matches at k: the end
      of group 1, if the pattern matches at all. */
  function GreedyPrefix(s: string, starts: nat -> bool): (r: Option<nat>)
    ensures r.Some? ==> r.value <= |s| && '\n' !in s[..r.value] && starts(r.value)
    ensures r.Some? ==> forall k :: r.value < k <= |s| && '\n' !in s[..k] ==> !starts(k)
    ensures r.None? ==> forall k :: 0 <= k <= |s| && '\n' !in s[..k] ==> !starts(k)
  {
    var n := FirstNewline(s);
    var r := LastWhere(n, starts);
    if r.Some? then
      assert s[..r.value] == s[..n][..r.value];
      forall k | r.value < k <= |s| && '\n' !in s[..k] ensures !starts(k) {
        NewlineFree(s, k);
      }
      r
    else
      forall k | 0 <= k <= |s| && '\n' !in s[..k] ensures !starts(k) {
        NewlineFree(s, k);
      }
      r
  }
}
