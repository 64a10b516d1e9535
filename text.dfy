/** Strings as character sequences, and the first-occurrence search that the
    scanner is built on (Rust's `str::find` and `str::contains`). Positions are
    character indices; every tag the scanner searches for is ASCII, so they
    select the same slices as the byte offsets of the original. */
module Text {

  datatype Option<+T> = None | Some(value: T) {
    /** Rust's `unwrap_or_default` when given the type's default value. */
    function UnwrapOr(default: T): T {
      match this
      case Some(v) => v
      case None => default
    }
  }

  /** `pat` occurs in `s` starting at index `i`. */
  predicate OccursAt(s: string, pat: string, i: int) {
    0 <= i && i + |pat| <= |s| && s[i..i + |pat|] == pat
  }

  /** `i` is the first index at or after `from` where `pat` occurs in `s`. */
  predicate FirstFrom(s: string, pat: string, from: int, i: int) {
    from <= i && OccursAt(s, pat, i) && forall j :: from <= j < i ==> !OccursAt(s, pat, j)
  }

  /** `pat` occurs nowhere in `s` at or after `from`. */
  ghost predicate AbsentFrom(s: string, pat: string, from: int) {
    forall j :: from <= j ==> !OccursAt(s, pat, j)
  }

  /** `s[from..].find(pat)`, with the offset it returns made absolute. */
  function Find(s: string, pat: string, from: nat): (r: Option<nat>)
    requires from <= |s|
    ensures r.Some? ==> from <= r.value && OccursAt(s, pat, r.value)
    decreases |s| - from
  {
    if from + |pat| > |s| then None
    else if s[from..from + |pat|] == pat then Some(from)
    else Find(s, pat, from + 1)
  }

  /** `Find` returns the first occurrence at or after `from`, and nothing only
      when there is none. */
  lemma {:induction false} FindFirstOccurrence(s: string, pat: string, from: nat)
    requires from <= |s|
    ensures Find(s, pat, from).Some? ==> FirstFrom(s, pat, from, Find(s, pat, from).value)
    ensures Find(s, pat, from).None? ==> AbsentFrom(s, pat, from)
    decreases |s| - from
  {
    if from + |pat| <= |s| && s[from..from + |pat|] != pat {
      FindFirstOccurrence(s, pat, from + 1);
    }
  }

  /** `s.contains(pat)`. */
  function Contains(s: string, pat: string): bool {
    Find(s, pat, 0).Some?
  }

  lemma ContainsIff(s: string, pat: string)
    ensures Contains(s, pat) <==> exists i :: OccursAt(s, pat, i)
  {
    FindFirstOccurrence(s, pat, 0);
  }

  /** The first occurrence is unique, so `Find` returns it. */
  lemma FindFirst(s: string, pat: string, from: nat, i: int)
    requires from <= |s|
    requires FirstFrom(s, pat, from, i)
    ensures Find(s, pat, from) == Some(i)
  {
    FindFirstOccurrence(s, pat, from);
  }

  /** Starting the search later changes nothing when the skipped range holds no occurrence. */
  lemma FindSkip(s: string, pat: string, from: nat, to: nat)
    requires from <= to <= |s|
    requires forall j :: from <= j < to ==> !OccursAt(s, pat, j)
    ensures Find(s, pat, from) == Find(s, pat, to)
  {
    FindFirstOccurrence(s, pat, to);
    match Find(s, pat, to)
    case Some(i) =>
      FindFirst(s, pat, from, i);
    case None =>
      FindFirstOccurrence(s, pat, from);
  }

  /** A slice is the concatenation of its two halves. */
  lemma SliceSplit(s: string, i: nat, j: nat, k: nat)
    requires i <= j <= k <= |s|
    ensures s[i..k] == s[i..j] + s[j..k]
  {
  }

  /** Occurrences of `p`, then `x`, then `q`, one right after the other, are
      an occurrence of `p + x + q`. */
  lemma Adjacent(s: string, p: string, x: string, q: string, i: nat)
    requires OccursAt(s, p, i) && i + |p| + |x| <= |s| && s[i + |p|..i + |p| + |x|] == x
    requires OccursAt(s, q, i + |p| + |x|)
    ensures OccursAt(s, p + x + q, i)
  {
    var a, b := i + |p|, i + |p| + |x|;
    SliceSplit(s, i, a, b + |q|);
    SliceSplit(s, a, b, b + |q|);
  }

  /** The `t`-th character of an occurrence starting at `i`. */
  lemma OccursAtChar(s: string, pat: string, i: int, t: nat)
    requires OccursAt(s, pat, i) && t < |pat|
    ensures s[i + t] == pat[t]
  {
    assert s[i..i + |pat|][t] == s[i + t];
  }

  /** Every character of an occurrence starting at `i`. */
  lemma OccursAtChars(s: string, pat: string, i: int)
    requires OccursAt(s, pat, i)
    ensures forall t :: 0 <= t < |pat| ==> s[i + t] == pat[t]
  {
    forall t | 0 <= t < |pat| ensures s[i + t] == pat[t] {
      OccursAtChar(s, pat, i, t);
    }
  }

  /** Occurrences inside a slice are the occurrences in the whole string that fit inside it. */
  lemma OccursInSlice(s: string, pat: string, lo: nat, hi: nat, k: int)
    requires lo <= hi <= |s|
    ensures OccursAt(s[lo..hi], pat, k) <==> 0 <= k && OccursAt(s, pat, lo + k) && lo + k + |pat| <= hi
  {
    if 0 <= k && lo + k + |pat| <= hi {
      var inner, outer := s[lo..hi][k..k + |pat|], s[lo + k..lo + k + |pat|];
      forall t | 0 <= t < |pat| ensures inner[t] == outer[t] {
      }
      assert inner == outer;
    }
  }

  /** A pattern whose `t`-th character is missing from `s[..n]` has no
      occurrence whose `t`-th character would fall before `n`. */
  lemma MissingChar(s: string, pat: string, t: nat, n: nat)
    requires t < |pat| && n <= |s| && pat[t] !in s[..n]
    ensures forall j :: 0 <= j && j + t < n ==> !OccursAt(s, pat, j)
  {
    forall j | 0 <= j && j + t < n ensures !OccursAt(s, pat, j) {
      if OccursAt(s, pat, j) {
        OccursAtChar(s, pat, j, t);
      }
    }
  }
}
