/** The JavaScript string built-ins the core relies on: `trim`, `indexOf`, `startsWith`, the first
    piece of `split`, and the `\w` character class of a regular expression without the `u` or `i`
    flag. Strings are sequences of characters. */
module Text {
  import opened Errors

  /** The characters `String.prototype.trim` removes: JavaScript's WhiteSpace (tab, vertical tab,
      form feed, space, no-break space, the byte order mark and every other space separator)
      and LineTerminator (line feed, carriage return, line and paragraph separator). */
  predicate IsWhitespace(c: char) {
    || c == '\t' || c == '\n' || c == '\U{000B}' || c == '\U{000C}' || c == '\r' || c == ' '
    || c == '\U{00A0}' || c == '\U{1680}' || ('\U{2000}' <= c <= '\U{200A}')
    || c == '\U{2028}' || c == '\U{2029}' || c == '\U{202F}' || c == '\U{205F}'
    || c == '\U{3000}' || c == '\U{FEFF}'
  }

  /** `\w`: an ASCII letter, digit or underscore. */
  predicate IsWordChar(c: char) {
    ('a' <= c <= 'z') || ('A' <= c <= 'Z') || ('0' <= c <= '9') || c == '_'
  }

  /** Every character of `s` in the index range [i, j) is whitespace. */
  predicate WhitespaceBetween(s: string, i: nat, j: nat)
    requires i <= j <= |s|
  {
    forall k :: i <= k < j ==> IsWhitespace(s[k])
  }

  predicate AllWhitespace(s: string) {
    WhitespaceBetween(s, 0, |s|)
  }

  /** Neither starts nor ends with whitespace. */
  predicate Trimmed(s: string) {
    s == [] || (!IsWhitespace(s[0]) && !IsWhitespace(s[|s| - 1]))
  }

  predicate StartsWith(s: string, prefix: string) {
    |prefix| <= |s| && s[..|prefix|] == prefix
  }

  /** The index of the first character at or after `i` that is not whitespace, or `|s|`. */
  function SkipWhitespace(s: string, i: nat): (k: nat)
    requires i <= |s|
    decreases |s| - i
    ensures i <= k <= |s| && WhitespaceBetween(s, i, k)
    ensures k == |s| || !IsWhitespace(s[k])
  {
    if i < |s| && IsWhitespace(s[i]) then SkipWhitespace(s, i + 1) else i
  }

  /** Going back from `j` but not past `lo`: the end of the last character that is not whitespace, or `lo`. */
  function SkipWhitespaceBack(s: string, lo: nat, j: nat): (k: nat)
    requires lo <= j <= |s|
    decreases j
    ensures lo <= k <= j && WhitespaceBetween(s, k, j)
    ensures k == lo || !IsWhitespace(s[k - 1])
  {
    if lo < j && IsWhitespace(s[j - 1]) then SkipWhitespaceBack(s, lo, j - 1) else j
  }

  /** `String.prototype.trim`: the slice of `s` left once the whitespace on both ends is cut off.
      The result is `s` between the bounds of `TrimBounds`, outside of which there is only
      whitespace. */
  function Trim(s: string): (r: string)
    ensures Trimmed(r) && |r| <= |s|
    ensures r == [] <==> AllWhitespace(s)
    ensures r == s[TrimBounds(s).0..TrimBounds(s).1]
  {
    var (i, j) := TrimBounds(s);
    s[i..j]
  }

  /** Where `Trim` cuts: everything before `i` and from `j` on is whitespace, and the slice
      between them neither starts nor ends with whitespace. */
  function TrimBounds(s: string): (b: (nat, nat))
    ensures b.0 <= b.1 <= |s|
    ensures WhitespaceBetween(s, 0, b.0) && WhitespaceBetween(s, b.1, |s|)
    ensures b.0 < b.1 ==> !IsWhitespace(s[b.0]) && !IsWhitespace(s[b.1 - 1])
  {
    var i := SkipWhitespace(s, 0);
    (i, SkipWhitespaceBack(s, i, |s|))
  }

  /** Cutting whitespace off a trimmed string leaves it whole, also when whitespace was appended. */
  lemma TrimAfterWhitespace(m: string, w: string)
    requires Trimmed(m) && AllWhitespace(w)
    ensures Trim(m + w) == m
  {
    var s := m + w;
    var (i, j) := TrimBounds(s);
    if m != [] {
      assert s[0] == m[0];
      assert i == 0;
      assert s[|m| - 1] == m[|m| - 1];
      assert WhitespaceBetween(s, |m|, |s|);
      assert j == |m|;
      assert s[i..j] == m;
    } else {
      assert s == w;
    }
  }

  /** Trimming strips exactly the surrounding whitespace: a trimmed string with whitespace on
      either side comes back as it was. */
  lemma TrimSurrounded(lead: string, m: string, trail: string)
    requires AllWhitespace(lead) && Trimmed(m) && AllWhitespace(trail)
    ensures Trim(lead + m + trail) == m
  {
    var s := lead + m + trail;
    var (i, j) := TrimBounds(s);
    if m != [] {
      assert s[|lead|] == m[0];
      assert WhitespaceBetween(s, 0, |lead|);
      assert i == |lead|;
      assert s[|lead| + |m| - 1] == m[|m| - 1];
      assert WhitespaceBetween(s, |lead| + |m|, |s|);
      assert j == |lead| + |m|;
      assert s[i..j] == m;
    } else {
      assert AllWhitespace(s);
    }
  }

  /** Whether `pat` occurs in `s` starting at index `i`. */
  predicate OccursAt(s: string, pat: string, i: nat) {
    i + |pat| <= |s| && s[i..i + |pat|] == pat
  }

  /** `s.indexOf(pat, from)` for a non-empty pattern: the first index at or after `from` where
      `pat` occurs, if any. (For the empty pattern JavaScript answers `min(from, |s|)`; no caller
      searches for it.) */
  function IndexOf(s: string, pat: string, from: nat): (r: Option<nat>)
    decreases |s| - from
    ensures r.Some? ==> from <= r.value && OccursAt(s, pat, r.value)
    ensures forall j :: from <= j && (r.None? || j < r.value) ==> !OccursAt(s, pat, j)
  {
    if from + |pat| > |s| then None
    else if OccursAt(s, pat, from) then Some(from)
    else IndexOf(s, pat, from + 1)
  }

  /** The first occurrence at or after `from` is the `k` with an occurrence at `k` and none before. */
  lemma IndexOfFound(s: string, pat: string, from: nat, k: nat)
    requires from <= k && OccursAt(s, pat, k)
    requires forall j :: from <= j < k ==> !OccursAt(s, pat, j)
    ensures IndexOf(s, pat, from) == Some(k)
  {
  }

  /** Skipping a stretch that holds no occurrence does not change the first occurrence found. */
  lemma {:induction false} IndexOfSkip(s: string, pat: string, from: nat, k: nat)
    requires from <= k
    requires forall j :: from <= j < k ==> !OccursAt(s, pat, j)
    ensures IndexOf(s, pat, from) == IndexOf(s, pat, k)
    decreases k - from
  {
    if from < k && from + |pat| <= |s| {
      IndexOfSkip(s, pat, from + 1, k);
    }
  }

  /** Moves a found index right by `d`. */
  function Shift(r: Option<nat>, d: nat): Option<nat> {
    match r
    case None => None
    case Some(i) => Some(d + i)
  }

  /** Searching after a prefix finds what searching the rest finds, moved by the prefix length. */
  lemma {:induction false} IndexOfShifted(p: string, t: string, pat: string, k: nat)
    ensures IndexOf(p + t, pat, |p| + k) == Shift(IndexOf(t, pat, k), |p|)
    decreases |t| - k
  {
    if |p| + k + |pat| <= |p + t| {
      assert (p + t)[|p| + k..|p| + k + |pat|] == t[k..k + |pat|];
      if !OccursAt(t, pat, k) {
        IndexOfShifted(p, t, pat, k + 1);
      }
    }
  }

  /** A slice of `t` is the same slice of `p + t`, moved by the length of `p`. */
  lemma SliceShifted(p: string, t: string, i: nat, j: nat, i2: nat, j2: nat)
    requires i <= j <= |t| && i2 == |p| + i && j2 == |p| + j
    ensures (p + t)[i2..j2] == t[i..j]
  {
  }

  /** Text appended after a found occurrence does not move the first occurrence. */
  lemma {:induction false} IndexOfExtended(s: string, t: string, pat: string, from: nat)
    requires IndexOf(s, pat, from).Some?
    ensures IndexOf(s + t, pat, from) == IndexOf(s, pat, from)
    decreases |s| - from
  {
    assert (s + t)[from..from + |pat|] == s[from..from + |pat|];
    if !OccursAt(s, pat, from) {
      IndexOfExtended(s, t, pat, from + 1);
    }
  }

  /** `s.split(sep)[0]` for a non-empty separator: the text before the first occurrence of `sep`,
      or all of `s`. */
  function FirstPiece(s: string, sep: string): (r: string)
    ensures |r| <= |s| && r == s[..|r|]
    ensures |r| < |s| ==> OccursAt(s, sep, |r|)
    ensures forall j :: 0 <= j < |r| ==> !OccursAt(s, sep, j)
  {
    match IndexOf(s, sep, 0)
    case Some(i) => s[..i]
    case None => s
  }

  /** JavaScript truthiness of an optional string: given, and not empty. */
  predicate Given(option: Option<string>) {
    option.Some? && option.value != ""
  }
}
