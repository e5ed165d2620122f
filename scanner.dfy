/** The two regular expressions `PathSegment` runs over a path template, written
    out as scanners: the non-greedy placeholder search `\{.*?\}` that the
    string constructor and the `Resource` constructor loop over with
    `Matcher.find`, and the name
    extraction `replaceAll("(\{(\w*)(\s*:.*?)?\})", "$2")` applied to each
    placeholder found. Character classes follow `java.util.regex` without
    flags: `.` excludes line terminators, `\w` is ASCII `[a-zA-Z_0-9]` and
    `\s` is `[ \t\n\x0B\f\r]`. */
module Scanner {
  import opened Wrappers

  /** The characters Java's `.` does not match. */
  predicate IsLineTerminator(c: char) {
    c == '\n' || c == '\r' || c == '\U{85}' || c == '\U{2028}' || c == '\U{2029}'
  }

  /** Java's `\w`. */
  predicate IsWordChar(c: char) {
    ('a' <= c <= 'z') || ('A' <= c <= 'Z') || ('0' <= c <= '9') || c == '_'
  }

  /** Java's `\s`. */
  predicate IsSpaceChar(c: char) {
    c == ' ' || c == '\t' || c == '\n' || c == '\U{0B}' || c == '\U{0C}' || c == '\r'
  }

  /** The characters `s[k..j]` could all be consumed by the lazy `.*?` before
      the closing brace: no `}` and no line terminator among them. */
  ghost predicate Clean(s: string, k: nat, j: nat)
    requires k <= j <= |s|
  {
    forall m :: k <= m < j ==> s[m] != '}' && !IsLineTerminator(s[m])
  }

  /** `s[i..j]` is what `\{.*?\}` matches when a match attempt starts at `i`. */
  ghost predicate IsPlaceholderAt(s: string, i: nat, j: nat) {
    i + 2 <= j <= |s| && s[i] == '{' && s[j - 1] == '}' && Clean(s, i + 1, j - 1)
  }

  /** A whole string that is one placeholder match. */
  ghost predicate IsPlaceholderText(t: string) {
    IsPlaceholderAt(t, 0, |t|)
  }

  /** A match span `s[start..end]`. */
  datatype Span = Span(start: nat, end: nat)

  /** Where the lazy `.*?` stops when it starts at `k`: the first `}` at or
      after `k`, unless a line terminator or the end of the input comes first. */
  function CloseFrom(s: string, k: nat): (r: Option<nat>)
    requires k <= |s|
    ensures r.Some? ==> k <= r.value < |s| && s[r.value] == '}' && Clean(s, k, r.value)
    decreases |s| - k
  {
    if k == |s| then None
    else if s[k] == '}' then Some(k)
    else if IsLineTerminator(s[k]) then None
    else CloseFrom(s, k + 1)
  }

  /** One `Matcher.find()` of `\{.*?\}` starting at `from`: the leftmost
      position where a match attempt succeeds, with the lazy (shortest) end. */
  function NextPlaceholder(s: string, from: nat): (r: Option<Span>)
    requires from <= |s|
    ensures r.Some? ==> from <= r.value.start && IsPlaceholderAt(s, r.value.start, r.value.end)
    decreases |s| - from
  {
    if from == |s| then None
    else if s[from] == '{' then
      match CloseFrom(s, from + 1)
      case Some(j) => Some(Span(from, j + 1))
      case None => NextPlaceholder(s, from + 1)
    else NextPlaceholder(s, from + 1)
  }

  /** When the lazy scan finds no `}`, no `}` ends a clean stretch from `k`. */
  lemma {:induction false} CloseFromNone(s: string, k: nat)
    requires k <= |s| && CloseFrom(s, k).None?
    ensures forall j :: k <= j < |s| && s[j] == '}' ==> !Clean(s, k, j)
    decreases |s| - k
  {
    if k < |s| && s[k] != '}' && !IsLineTerminator(s[k]) {
      CloseFromNone(s, k + 1);
      forall j | k <= j < |s| && s[j] == '}'
        ensures !Clean(s, k, j)
      {
        if j == k {
        } else {
          assert !Clean(s, k + 1, j);
        }
      }
    }
  }

  /** `NextPlaceholder` is leftmost: no placeholder starts between `from`
      and the match it reports, nor anywhere from `from` on when it reports
      none. */
  lemma {:induction false} NextPlaceholderIsLeftmost(s: string, from: nat)
    requires from <= |s|
    ensures NextPlaceholder(s, from).Some? ==>
      forall i, j :: from <= i < NextPlaceholder(s, from).value.start ==> !IsPlaceholderAt(s, i, j)
    ensures NextPlaceholder(s, from).None? ==> forall i, j :: from <= i ==> !IsPlaceholderAt(s, i, j)
    decreases |s| - from
  {
    if from < |s| {
      NextPlaceholderIsLeftmost(s, from + 1);
      if s[from] == '{' && CloseFrom(s, from + 1).None? {
        CloseFromNone(s, from + 1);
      }
    }
  }

  /** Every match the `while (matcher.find())` loop sees from `from` on, in
      order. Each is a placeholder, each starts where the previous one ended
      or later, and all lie within `s[from..]`. */
  function SpansFrom(s: string, from: nat): (r: seq<Span>)
    requires from <= |s|
    ensures forall k :: 0 <= k < |r| ==> from <= r[k].start && IsPlaceholderAt(s, r[k].start, r[k].end)
    ensures forall k :: 0 <= k < |r| - 1 ==> r[k].end <= r[k + 1].start
    decreases |s| - from
  {
    match NextPlaceholder(s, from)
    case None => []
    case Some(sp) => [sp] + SpansFrom(s, sp.end)
  }

  /** The placeholder matches of a whole template, left to right. */
  function Placeholders(s: string): (r: seq<Span>)
    ensures forall k :: 0 <= k < |r| ==> IsPlaceholderAt(s, r[k].start, r[k].end)
    ensures forall k :: 0 <= k < |r| - 1 ==> r[k].end <= r[k + 1].start
  {
    SpansFrom(s, 0)
  }

  /** Nothing is skipped: every position at which a placeholder match could
      start lies inside one of the matches found, so the scan reports every
      placeholder that does not overlap an earlier one. */
  lemma {:induction false} SpansCoverEveryPlaceholder(s: string, from: nat, i: nat, j: nat)
    requires from <= i && IsPlaceholderAt(s, i, j)
    ensures exists k :: 0 <= k < |SpansFrom(s, from)| && SpansFrom(s, from)[k].start <= i < SpansFrom(s, from)[k].end
    decreases |s| - from
  {
    var r := SpansFrom(s, from);
    NextPlaceholderIsLeftmost(s, from);
    match NextPlaceholder(s, from)
    case None =>
      assert false;
    case Some(sp) =>
      assert r[0] == sp;
      if i >= sp.end {
        SpansCoverEveryPlaceholder(s, sp.end, i, j);
        var k :| 0 <= k < |SpansFrom(s, sp.end)| && SpansFrom(s, sp.end)[k].start <= i < SpansFrom(s, sp.end)[k].end;
        assert r[k + 1] == SpansFrom(s, sp.end)[k];
      } else {
        assert sp.start <= i;
      }
  }

  /** A template without any `{` has no placeholders. */
  lemma {:induction false} NoBraceNoPlaceholders(s: string, from: nat)
    requires from <= |s|
    requires forall k :: from <= k < |s| ==> s[k] != '{'
    ensures SpansFrom(s, from) == []
  {
  }

  // ---------------------------------------------------------------------
  // Name extraction: "(\{(\w*)(\s*:.*?)?\})" replaced by "$2".

  /** Length of the longest prefix of `y` made of characters of the class. */
  function RunLength(y: string, inClass: char -> bool): (n: nat)
    ensures n <= |y|
    ensures forall k :: 0 <= k < n ==> inClass(y[k])
    ensures n < |y| ==> !inClass(y[n])
  {
    if y == [] || !inClass(y[0]) then 0 else 1 + RunLength(y[1..], inClass)
  }

  /** A run of class characters followed by a character outside the class
      (or by nothing) is exactly the run. */
  lemma {:induction false} RunLengthOfRun(a: string, b: string, inClass: char -> bool)
    requires forall k :: 0 <= k < |a| ==> inClass(a[k])
    requires b == [] || !inClass(b[0])
    ensures RunLength(a + b, inClass) == |a|
  {
    if a != [] {
      assert (a + b)[0] == a[0];
      assert (a + b)[1..] == a[1..] + b;
      RunLengthOfRun(a[1..], b, inClass);
    } else {
      assert a + b == b;
    }
  }

  /** `r`, followed by the final `}`, is matched by `(\s*:.*?)?\}`: either it
      is empty, or white space and then a colon start it. Backtracking cannot
      help otherwise, since neither a space nor `:` is a word character. */
  predicate IsConstraintTail(r: string) {
    r == [] || (var k := RunLength(r, IsSpaceChar); k < |r| && r[k] == ':')
  }

  /** The text inside a candidate match starting at `p`, up to the final `}`. */
  function Inside(t: string, p: nat): string
    requires p < |t| - 1
  {
    t[p + 1..|t| - 1]
  }

  /** The name pattern matches `t` from `p` to its final `}` (in a placeholder
      text the final `}` is the only one, so no match can end anywhere else). */
  predicate NameMatchAt(t: string, p: nat)
    requires p < |t|
  {
    t[p] == '{' && p < |t| - 1 &&
    IsConstraintTail(Inside(t, p)[RunLength(Inside(t, p), IsWordChar)..])
  }

  /** The leftmost position at or after `p` where the name pattern matches. */
  function FirstNameMatch(t: string, p: nat): (r: Option<nat>)
    requires p <= |t|
    ensures r.Some? ==> p <= r.value < |t| && NameMatchAt(t, r.value)
    ensures forall q :: p <= q < (if r.Some? then r.value else |t|) ==> !NameMatchAt(t, q)
    decreases |t| - p
  {
    if p == |t| then None
    else if NameMatchAt(t, p) then Some(p)
    else FirstNameMatch(t, p + 1)
  }

  /** `paramText.replaceAll(PARAM_WITH_REGEX_PATTERN, "$2")` on a placeholder
      text: the one possible match is replaced by its leading word characters
      (group 2); without a match the text, braces included, is returned. */
  function ExtractName(t: string): (r: string)
    requires IsPlaceholderText(t)
    ensures r == t || (|r| < |t| && '}' !in r)
    ensures r == t <==> FirstNameMatch(t, 0).None?
    ensures FirstNameMatch(t, 0).Some? ==>
      var p := FirstNameMatch(t, 0).value;
      p <= |r| && r[..p] == t[..p] && forall k :: p <= k < |r| ==> IsWordChar(r[k])
  {
    match FirstNameMatch(t, 0)
    case None => t
    case Some(p) =>
      var w := Inside(t, p)[..RunLength(Inside(t, p), IsWordChar)];
      assert forall k :: 0 <= k < |w| ==> IsWordChar(w[k]);
      assert forall k :: 0 < k < p ==> t[..p][k] == t[k] && t[k] != '}';
      assert '}' !in t[..p];
      assert '}' !in w;
      assert |w| <= |Inside(t, p)|;
      assert (t[..p] + w)[..p] == t[..p];
      t[..p] + w
  }

  /** `{id}` names `id`. */
  lemma ExtractNameOfBare(w: string)
    requires forall k :: 0 <= k < |w| ==> IsWordChar(w[k])
    ensures IsPlaceholderText("{" + w + "}")
    ensures ExtractName("{" + w + "}") == w
  {
    var t := "{" + w + "}";
    assert Inside(t, 0) == w;
    assert RunLength(w, IsWordChar) == |w|;
    assert NameMatchAt(t, 0);
    assert t[..0] == [];
  }

  /** `{id: [0-9]+}` names `id` too: the constraint after the colon, and the
      white space before it, are dropped. */
  lemma ExtractNameOfConstrained(w: string, sp: string, c: string)
    requires forall k :: 0 <= k < |w| ==> IsWordChar(w[k])
    requires forall k :: 0 <= k < |sp| ==> IsSpaceChar(sp[k]) && !IsLineTerminator(sp[k])
    requires forall k :: 0 <= k < |c| ==> c[k] != '}' && !IsLineTerminator(c[k])
    ensures IsPlaceholderText("{" + w + sp + ":" + c + "}")
    ensures ExtractName("{" + w + sp + ":" + c + "}") == w
  {
    var t := "{" + w + sp + ":" + c + "}";
    var y := w + sp + ":" + c;
    assert Inside(t, 0) == y;
    assert forall k :: 0 < k < |t| - 1 ==> t[k] == y[k - 1];
    assert IsPlaceholderText(t);
    RunLengthOfRun(w, sp + ":" + c, IsWordChar);
    assert y == w + (sp + ":" + c);
    var n := RunLength(y, IsWordChar);
    var r := y[n..];
    assert r == sp + ":" + c;
    RunLengthOfRun(sp, ":" + c, IsSpaceChar);
    assert r == sp + (":" + c);
    assert r[|sp|] == ':';
    assert NameMatchAt(t, 0);
    assert y[..n] == w;
    assert t[..0] == [];
  }

  /** The grammar takes no leading white space: `{ id }` is not matched by the
      name pattern, so its "name" keeps the braces and the spaces. */
  lemma ExtractNameKeepsSpacedText()
    ensures IsPlaceholderText("{ id }")
    ensures ExtractName("{ id }") == "{ id }"
  {
    var t := "{ id }";
    assert Clean(t, 1, 5);
    assert RunLength(Inside(t, 0), IsWordChar) == 0;
    assert RunLength(Inside(t, 0), IsSpaceChar) == 1;
    assert !NameMatchAt(t, 0);
    assert FirstNameMatch(t, 0) == None;
  }
}
