/** Diff bounding and API-key validation (src/utils.ts). */
module Utils {
  import opened Errors
  import Text

  /** The default for `MAX_DIFF_LENGTH`; the limit itself is a parameter of `TruncateDiff`. */
  const DefaultMaxDiffLength: nat := 4000

  /** Appended to a diff that was cut short. */
  const TruncationMarker := "\n... (truncated due to length)"

  const NoDiffError := GPushError("No git diff available", 5)

  const InvalidKeyError :=
    GPushError("Invalid API key format. API key should start with \"sk-\" followed by letters and numbers", 3)

  function Min(a: nat, b: nat): nat { if a <= b then a else b }

  /** `truncateDiff`: rejects the empty diff; otherwise keeps at most `maxLength` characters of
      it, marking a cut. The result is never empty, never longer than `maxLength` plus the
      marker, and always starts with as much of the diff as the limit allows. */
  function TruncateDiff(diff: string, maxLength: nat): (r: Result<string>)
    ensures r.Err? <==> diff == ""
    ensures r.Err? ==> r.error == NoDiffError
    ensures r.Ok? ==> r.value != "" && |r.value| <= maxLength + |TruncationMarker|
    ensures r.Ok? ==> var n := Min(|diff|, maxLength); |r.value| >= n && r.value[..n] == diff[..n]
  {
    if diff == "" then Err(NoDiffError)
    else if |diff| > maxLength then Ok(diff[..maxLength] + TruncationMarker)
    else Ok(diff)
  }

  /** The marker is 30 characters long. */
  lemma MarkerLength()
    ensures |TruncationMarker| == 30
  {
  }

  /** A non-empty diff within the limit comes back unchanged. */
  lemma TruncateShortDiff(diff: string, maxLength: nat)
    requires diff != "" && |diff| <= maxLength
    ensures TruncateDiff(diff, maxLength) == Ok(diff)
  {
  }

  /** A diff over the limit becomes its first `maxLength` characters followed by the marker,
      `maxLength + 30` characters in all. */
  lemma TruncateLongDiff(diff: string, maxLength: nat)
    requires |diff| > maxLength
    ensures TruncateDiff(diff, maxLength) == Ok(diff[..maxLength] + TruncationMarker)
    ensures |TruncateDiff(diff, maxLength).value| == maxLength + 30
  {
  }

  /** The two recorded cases: 5000 `a`s give 4030 characters, and `test diff` is kept as is. */
  lemma TruncateRecordedCases()
    ensures |TruncateDiff(seq(5000, _ => 'a'), DefaultMaxDiffLength).value| == 4030
    ensures TruncateDiff("test diff", DefaultMaxDiffLength) == Ok("test diff")
  {
    TruncateLongDiff(seq(5000, _ => 'a'), DefaultMaxDiffLength);
  }

  /** `[A-Za-z0-9-_]`: a word character or a hyphen. */
  predicate IsKeyChar(c: char) {
    Text.IsWordChar(c) || c == '-'
  }

  /** The whole key matches `^sk-[A-Za-z0-9-_]{20,}$`. */
  predicate ValidApiKey(key: string) {
    Text.StartsWith(key, "sk-") && KeyBody(key[3..])
  }

  /** At least twenty characters, each of them a letter, digit, hyphen or underscore. */
  predicate KeyBody(t: string) {
    |t| >= 20 && forall i :: 0 <= i < |t| ==> IsKeyChar(t[i])
  }

  /** `validateApiKey`: passes exactly the keys of the anchored pattern, else fails with code 3. */
  function ValidateApiKey(key: string): (r: Outcome)
    ensures r.Pass? <==> ValidApiKey(key)
    ensures r.Fail? ==> r.error.exitCode == 3
  {
    if ValidApiKey(key) then Pass else Fail(InvalidKeyError)
  }

  /** An accepted key is `sk-` followed by a key body, so it has at least 23 characters; and
      every such concatenation is accepted. */
  lemma ApiKeyShape(body: string)
    ensures ValidApiKey("sk-" + body) <==> KeyBody(body)
    ensures forall key :: ValidApiKey(key) ==> |key| >= 23 && key == "sk-" + key[3..]
  {
    assert ("sk-" + body)[3..] == body;
  }

  /** The pattern is anchored at the end: appending a character outside the class to an
      accepted key yields a rejected one, and appending one inside the class keeps it accepted. */
  lemma ApiKeyAnchoredAtEnd(key: string, c: char)
    requires ValidApiKey(key)
    ensures ValidApiKey(key + [c]) <==> IsKeyChar(c)
  {
    assert (key + [c])[..3] == key[..3];
    var body := key[3..] + [c];
    assert (key + [c])[3..] == body;
    assert body[|body| - 1] == c;
    assert forall i :: 0 <= i < |body| - 1 ==> body[i] == key[3..][i];
  }
}
