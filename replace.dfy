/** `String.replaceAll(regex, replacement)` as `evaluate` uses it, for a
    pattern and a replacement with no metacharacters: every leftmost,
    non-overlapping occurrence of a literal text is replaced. The string is
    split at the occurrences and joined back with the replacement. */
module Replace {
  import opened Wrappers

  /** `pat` occurs in `s` at `k`. */
  predicate OccursAt(s: string, pat: string, k: nat) {
    k + |pat| <= |s| && s[k..k + |pat|] == pat
  }

  /** `pat` occurs nowhere in `s`. */
  ghost predicate Free(s: string, pat: string) {
    forall k: nat :: !OccursAt(s, pat, k)
  }

  /** The first occurrence of `pat` in `s` at or after `from`. */
  function FindFrom(s: string, pat: string, from: nat): (r: Option<nat>)
    requires |pat| > 0 && from <= |s|
    ensures r.Some? ==> from <= r.value && OccursAt(s, pat, r.value)
    decreases |s| - from
  {
    if from + |pat| > |s| then None
    else if s[from..from + |pat|] == pat then Some(from)
    else FindFrom(s, pat, from + 1)
  }

  /** `FindFrom` finds the leftmost occurrence: there is none before it,
      and none at all when it finds nothing. */
  lemma {:induction false} FindFromIsLeftmost(s: string, pat: string, from: nat, k: nat)
    requires |pat| > 0 && from <= k <= |s|
    requires FindFrom(s, pat, from).None? || k < FindFrom(s, pat, from).value
    ensures !OccursAt(s, pat, k)
    decreases k - from
  {
    if from < k {
      FindFromIsLeftmost(s, pat, from + 1, k);
    }
  }

  /** The pieces of `s` between the occurrences of `pat`, left to right. */
  function Split(s: string, pat: string): (r: seq<string>)
    requires |pat| > 0
    ensures |r| >= 1
    decreases |s|
  {
    match FindFrom(s, pat, 0)
    case None => [s]
    case Some(i) => [s[..i]] + Split(s[i + |pat|..], pat)
  }

  /** The pieces joined with `sep` between each two of them. */
  function Join(parts: seq<string>, sep: string): string
    requires |parts| >= 1
  {
    if |parts| == 1 then parts[0] else parts[0] + sep + Join(parts[1..], sep)
  }

  /** `s.replaceAll(pat, v)` for a literal `pat` and `v`. A string without
      the pattern is returned unchanged, whatever `v` is. */
  function ReplaceAll(s: string, pat: string, v: string): (r: string)
    requires |pat| > 0
    ensures Free(s, pat) ==> r == s
  {
    Join(Split(s, pat), v)
  }

  /** Splitting loses nothing: joining the pieces with the pattern gives the
      string back. Together with `SplitPiecesAreFree` this says that
      `ReplaceAll` puts `v` exactly where the occurrences of `pat` were. */
  lemma {:induction false} SplitJoinRoundTrip(s: string, pat: string)
    requires |pat| > 0
    ensures Join(Split(s, pat), pat) == s
    decreases |s|
  {
    match FindFrom(s, pat, 0)
    case None =>
    case Some(i) =>
      var rest := s[i + |pat|..];
      SplitAt(s, pat, i);
      SplitJoinRoundTrip(rest, pat);
      JoinFirst(s[..i], Split(rest, pat), pat);
      Reassemble(s, i, i + |pat|);
  }

  /** One step of `Split`: the piece before the first occurrence, then the
      pieces of what follows it. */
  lemma {:induction false} SplitAt(s: string, pat: string, i: nat)
    requires |pat| > 0 && FindFrom(s, pat, 0) == Some(i)
    ensures Split(s, pat) == [s[..i]] + Split(s[i + |pat|..], pat)
  {
  }

  /** A string is its three slices at `i` and `j` put back together. */
  lemma {:induction false} Reassemble(s: string, i: nat, j: nat)
    requires i <= j <= |s|
    ensures s == s[..i] + s[i..j] + s[j..]
  {
  }

  /** Joining a first piece in front of further pieces. */
  lemma {:induction false} JoinFirst(first: string, more: seq<string>, sep: string)
    requires |more| >= 1
    ensures Join([first] + more, sep) == first + sep + Join(more, sep)
  {
    assert ([first] + more)[1..] == more;
  }

  /** No piece contains the pattern: no occurrence is left unreplaced. */
  lemma {:induction false} SplitPiecesAreFree(s: string, pat: string)
    requires |pat| > 0
    ensures forall j :: 0 <= j < |Split(s, pat)| ==> Free(Split(s, pat)[j], pat)
    decreases |s|
  {
    var r := Split(s, pat);
    match FindFrom(s, pat, 0)
    case None =>
      forall k: nat | k + |pat| <= |s|
        ensures !OccursAt(s, pat, k)
      {
        FindFromIsLeftmost(s, pat, 0, k);
      }
    case Some(i) =>
      var rest := s[i + |pat|..];
      SplitPiecesAreFree(rest, pat);
      assert r[1..] == Split(rest, pat);
      forall k: nat | k + |pat| <= i
        ensures !OccursAt(s[..i], pat, k)
      {
        SliceOfPrefix(s, i, k, k + |pat|);
        FindFromIsLeftmost(s, pat, 0, k);
      }
      assert r[0] == s[..i];
      forall j | 1 <= j < |r|
        ensures Free(r[j], pat)
      {
        assert r[j] == Split(rest, pat)[j - 1];
      }
  }

  /** A slice of a prefix is the same slice of the whole string. */
  lemma {:induction false} SliceOfPrefix(s: string, i: nat, a: nat, b: nat)
    requires a <= b <= i <= |s|
    ensures s[..i][a..b] == s[a..b]
  {
  }
}
