/** Commit-message extraction and the push workflow (src/git.ts).

    The git client and the AI provider are outside the model: an `Environment` holds what they
    answer (the staged diff, the provider's reply as a function of the diff it is sent, whether
    commit and push succeed) and records, in order, every call the workflow makes to them. */
module Git {
  import opened Errors
  import Text
  import Utils

  // ---------------------------------------------------------------------------------------------
  // Commit-message extraction: /```(?:\w*\n)?(.*?)```/s, else the first paragraph.

  const Fence := "```"

  /** The end of the run of `\w` characters that starts at `i`. */
  function WordRunEnd(s: string, i: nat): (j: nat)
    requires i <= |s|
    decreases |s| - i
    ensures i <= j <= |s|
    ensures forall k :: i <= k < j ==> Text.IsWordChar(s[k])
    ensures j == |s| || !Text.IsWordChar(s[j])
  {
    if i < |s| && Text.IsWordChar(s[i]) then WordRunEnd(s, i + 1) else i
  }

  /** Where a block's body starts when its opening fence ends at `p`: past an optional language
      tag line `(?:\w*\n)`, that is, word characters and then a newline. The skipped part never
      holds a backtick. */
  function BodyStart(s: string, p: nat): (q: nat)
    requires p <= |s|
    ensures p <= q <= |s|
    ensures q == p || (s[q - 1] == '\n' && forall k :: p <= k < q - 1 ==> Text.IsWordChar(s[k]))
    ensures q > p <==> WordRunEnd(s, p) < |s| && s[WordRunEnd(s, p)] == '\n'
    ensures q > p ==> q == WordRunEnd(s, p) + 1
  {
    var j := WordRunEnd(s, p);
    if j < |s| && s[j] == '\n' then j + 1 else p
  }

  /** The body `[start, close)` of the first fenced block: the first fence, past its tag line,
      up to the first fence after that. A fence met later never opens a block: if the first one
      has no partner, none does, since the tag line holds no backtick. */
  function FirstFencedBody(s: string): (b: Option<(nat, nat)>)
    ensures b.Some? ==> b.value.0 <= b.value.1 && Text.OccursAt(s, Fence, b.value.1)
    ensures b.Some? ==> forall j :: b.value.0 <= j < b.value.1 ==> !Text.OccursAt(s, Fence, j)
  {
    match Text.IndexOf(s, Fence, 0)
    case None => None
    case Some(open) =>
      var start := BodyStart(s, open + 3);
      match Text.IndexOf(s, Fence, start)
      case None => None
      case Some(close) => Some((start, close))
  }

  /** What the pattern matches, in terms of plain searches: there is a block exactly when there
      is a fence and another one after it; the body then starts past the first fence and its tag
      line, and ends at the next fence after the first. */
  lemma FirstFencedBodyMatches(s: string)
    ensures var b := FirstFencedBody(s);
            var first := Text.IndexOf(s, Fence, 0);
            && (b.Some? <==> first.Some? && Text.IndexOf(s, Fence, first.value + 3).Some?)
            && (b.Some? ==>
                  b.value.0 == BodyStart(s, first.value + 3)
                  && Some(b.value.1) == Text.IndexOf(s, Fence, first.value + 3))
  {
    var first := Text.IndexOf(s, Fence, 0);
    if first.Some? {
      TagLineHoldsNoFence(s, first.value + 3);
    }
  }

  /** The tag line skipped by `BodyStart` holds no fence, so searching for the closing fence from
      the end of the opening one or from the body start finds the same. */
  lemma TagLineHoldsNoFence(s: string, p: nat)
    requires p <= |s|
    ensures Text.IndexOf(s, Fence, p) == Text.IndexOf(s, Fence, BodyStart(s, p))
  {
    var q := BodyStart(s, p);
    forall j | p <= j < q
      ensures !Text.OccursAt(s, Fence, j)
    {
      if j + 3 <= |s| {
        assert s[j..j + 3][0] == s[j];
        assert Text.IsWordChar(s[j]) || s[j] == '\n';
      }
    }
    Text.IndexOfSkip(s, Fence, p, q);
  }

  /** `extractCommitMessage`: the trimmed body of the first fenced block, or else the trimmed
      text before the first blank line. Never has whitespace at either end. */
  function ExtractCommitMessage(response: string): (m: string)
    ensures Text.Trimmed(m)
  {
    match FirstFencedBody(response)
    case Some((start, close)) => Text.Trim(response[start..close])
    case None => Text.Trim(Text.FirstPiece(response, "\n\n"))
  }

  /** A message wrapped the way a model is asked to answer: a fence, an optional tag, a newline,
      the message, a newline and the closing fence. */
  function Fenced(tag: string, message: string): string {
    Fence + tag + "\n" + message + "\n" + Fence
  }

  predicate NoFence(s: string) {
    Text.IndexOf(s, Fence, 0).None?
  }

  /** A fence right after a preamble that has no fence of its own, not even one completed by the
      fence's first backticks, is the first fence. */
  lemma {:induction false} FirstFenceAfter(preamble: string, rest: string)
    requires NoFence(preamble + "``") && Text.StartsWith(rest, Fence)
    ensures Text.IndexOf(preamble + rest, Fence, 0) == Some(|preamble|)
  {
    var s := preamble + rest;
    var n := |preamble|;
    assert s[..n + 2] == preamble + "``";
    forall j | 0 <= j < n
      ensures !Text.OccursAt(s, Fence, j)
    {
      assert s[j..j + 3] == (preamble + "``")[j..j + 3];
      assert !Text.OccursAt(preamble + "``", Fence, j);
    }
    assert s[n..n + 3] == rest[..3];
    Text.IndexOfFound(s, Fence, 0, n);
  }

  /** A block at the very start of a reply: the first fence opens it, its body starts past the
      tag line, and the first fence after that is the one after the message and its newline. */
  lemma {:induction false} BlockAtStart(tag: string, message: string, narration: string)
    requires forall i :: 0 <= i < |tag| ==> Text.IsWordChar(tag[i])
    requires NoFence(message)
    ensures var s := Fenced(tag, message) + narration;
            Text.IndexOf(s, Fence, 0) == Some(0)
            && BodyStart(s, 3) == 4 + |tag|
            && Text.IndexOf(s, Fence, 4 + |tag|) == Some(5 + |tag| + |message|)
            && s[4 + |tag|..5 + |tag| + |message|] == message + "\n"
  {
    var s := Fenced(tag, message) + narration;
    var start := 4 + |tag|;
    var close := start + |message| + 1;
    assert s[..3] == Fence;
    assert Text.IndexOf(s, Fence, 0) == Some(0);
    assert forall k :: 3 <= k < 3 + |tag| ==> s[k] == tag[k - 3];
    assert s[3 + |tag|] == '\n';
    assert WordRunEnd(s, 3) == 3 + |tag|;
    assert s[start..close] == message + "\n";
    assert s[close..close + 3] == Fence;
    ClosingFenceFound(s, message, start, close);
  }

  /** A fence-free message and its newline, followed by a fence: the first fence from the start
      of the message is that one. */
  lemma ClosingFenceFound(s: string, message: string, start: nat, close: nat)
    requires close == start + |message| + 1 && close + 3 <= |s|
    requires s[start..close] == message + "\n" && s[close..close + 3] == Fence
    requires NoFence(message)
    ensures Text.IndexOf(s, Fence, start) == Some(close)
  {
    forall j | start <= j < close
      ensures !Text.OccursAt(s, Fence, j)
    {
      if j + 3 <= close - 1 {
        NoFenceInside(s, message, start, close, j, j - start);
      } else {
        assert s[close - 1] == '\n';
        assert s[j..j + 3][close - 1 - j] == '\n';
      }
    }
    Text.IndexOfFound(s, Fence, start, close);
  }

  /** A window of three characters lying inside the message is not a fence. */
  lemma NoFenceInside(s: string, message: string, start: nat, close: nat, j: nat, i: nat)
    requires close == start + |message| + 1 && close <= |s|
    requires s[start..close] == message + "\n" && NoFence(message)
    requires j == start + i && j + 3 <= close - 1
    ensures !Text.OccursAt(s, Fence, j)
  {
    var body := s[start..close];
    assert s[j..j + 3] == body[i..i + 3];
    assert body[i..i + 3] == message[i..i + 3];
    assert !Text.OccursAt(message, Fence, i);
  }

  /** A run of word characters is found at the same place after a preamble is put in front. */
  lemma {:induction false} WordRunEndShifted(p: string, t: string, k: nat)
    requires k <= |t|
    ensures WordRunEnd(p + t, |p| + k) == |p| + WordRunEnd(t, k)
    decreases |t| - k
  {
    if k < |t| {
      assert (p + t)[|p| + k] == t[k];
      if Text.IsWordChar(t[k]) {
        WordRunEndShifted(p, t, k + 1);
      }
    }
  }

  /** A tag line is skipped the same way after a preamble is put in front: from `k2`, the
      position `k` moved by the preamble. */
  lemma BodyStartShifted(p: string, t: string, s: string, k: nat, k2: nat)
    requires s == p + t && k <= |t| && k2 == |p| + k
    ensures BodyStart(s, k2) == |p| + BodyStart(t, k)
  {
    WordRunEndShifted(p, t, k);
    var w := WordRunEnd(t, k);
    if w < |t| {
      assert (p + t)[|p| + w] == t[w];
    }
  }

  /** A closing fence is found at the same place, moved by the preamble. */
  lemma CloseShifted(p: string, t: string, s: string, start: nat, close: nat, start2: nat, close2: nat)
    requires s == p + t && Text.IndexOf(t, Fence, start) == Some(close)
    requires start2 == |p| + start && close2 == |p| + close
    ensures Text.IndexOf(s, Fence, start2) == Some(close2)
  {
    Text.IndexOfShifted(p, t, Fence, start);
  }

  /** A block found in `t` at `start`..`close` is found at `start2`..`close2`, the same
      positions moved by the preamble, once the preamble is put in front, provided the first
      fence of the whole is the block's opening fence, moved to `open2`. */
  lemma {:induction false} FirstFencedBodyShifted(p: string, t: string, s: string, open: nat, start: nat, close: nat,
                                                  open2: nat, start2: nat, close2: nat)
    requires s == p + t && open2 == |p| + open && start2 == |p| + start && close2 == |p| + close
    requires Text.IndexOf(s, Fence, 0) == Some(open2) && open + 3 <= |t|
    requires BodyStart(t, open + 3) == start && Text.IndexOf(t, Fence, start) == Some(close)
    ensures FirstFencedBody(s) == Some((start2, close2))
  {
    BodyStartShifted(p, t, s, open + 3, open2 + 3);
    CloseShifted(p, t, s, start, close, start2, close2);
    FencedBodyFrom(s, open2, start2, close2);
  }

  /** Round trip: a trimmed message without a fence in it, wrapped in a fenced block with any
      word-only tag, preceded by any preamble without a fence and followed by any narration, is
      extracted unchanged. */
  lemma {:induction false} ExtractFenced(preamble: string, tag: string, message: string, narration: string)
    requires NoFence(preamble + "``")
    requires forall i :: 0 <= i < |tag| ==> Text.IsWordChar(tag[i])
    requires Text.Trimmed(message) && NoFence(message)
    ensures ExtractCommitMessage(preamble + Fenced(tag, message) + narration) == message
  {
    var t := Fenced(tag, message) + narration;
    var s := preamble + t;
    var n := |preamble|;
    var start, close := 4 + |tag|, 5 + |tag| + |message|;
    var start2, close2 := n + start, n + close;
    assert preamble + Fenced(tag, message) + narration == s;
    BlockAtStart(tag, message, narration);
    assert t[..3] == Fence;
    FirstFenceAfter(preamble, t);
    FirstFencedBodyShifted(preamble, t, s, 0, start, close, n, start2, close2);
    Text.SliceShifted(preamble, t, start, close, start2, close2);
    ExtractFromBody(s, start2, close2);
    Text.TrimAfterWhitespace(message, "\n");
  }

  /** The three searches of the pattern determine the block. */
  lemma FencedBodyFrom(s: string, open: nat, start: nat, close: nat)
    requires Text.IndexOf(s, Fence, 0) == Some(open) && open + 3 <= |s|
    requires BodyStart(s, open + 3) == start && Text.IndexOf(s, Fence, start) == Some(close)
    ensures FirstFencedBody(s) == Some((start, close))
  {
  }

  /** A run of word characters that ends inside `s` ends at the same place once text is appended. */
  lemma WordRunEndExtended(s: string, t: string, i: nat)
    requires i <= |s| && WordRunEnd(s, i) < |s|
    ensures WordRunEnd(s + t, i) == WordRunEnd(s, i)
  {
    var j := WordRunEnd(s, i);
    assert (s + t)[j] == s[j];
    assert forall k :: i <= k < j ==> (s + t)[k] == s[k];
  }

  /** A tag line that ends inside `s` is skipped the same way once text is appended. */
  lemma BodyStartExtended(s: string, t: string, u: string, k: nat)
    requires u == s + t && k <= |s| && WordRunEnd(s, k) < |s|
    ensures BodyStart(u, k) == BodyStart(s, k)
  {
    WordRunEndExtended(s, t, k);
    assert u[WordRunEnd(s, k)] == s[WordRunEnd(s, k)];
  }

  /** The positions the pattern finds in a reply that has a fenced block: the first fence, the
      body start past its tag line, and the closing fence, which the tag line never reaches. */
  lemma FencedBodyParts(s: string) returns (open: nat, start: nat, close: nat)
    requires FirstFencedBody(s).Some?
    ensures Text.IndexOf(s, Fence, 0) == Some(open) && open + 3 <= |s|
    ensures BodyStart(s, open + 3) == start && Text.IndexOf(s, Fence, start) == Some(close)
    ensures FirstFencedBody(s) == Some((start, close)) && WordRunEnd(s, open + 3) < |s|
  {
    open := Text.IndexOf(s, Fence, 0).value;
    start, close := FirstFencedBody(s).value.0, FirstFencedBody(s).value.1;
    assert s[close] == s[close..close + 3][0] == '`';
  }

  /** Text appended after the first fenced block does not move it. */
  lemma {:induction false} FirstFencedBodyExtended(s: string, t: string)
    requires FirstFencedBody(s).Some?
    ensures FirstFencedBody(s + t) == FirstFencedBody(s)
  {
    var u := s + t;
    var open, start, close := FencedBodyParts(s);
    BodyStartExtended(s, t, u, open + 3);
    Text.IndexOfExtended(s, t, Fence, 0);
    Text.IndexOfExtended(s, t, Fence, start);
    FencedBodyFrom(u, open, start, close);
  }

  lemma ExtractFromBody(s: string, start: nat, close: nat)
    requires FirstFencedBody(s) == Some((start, close))
    ensures ExtractCommitMessage(s) == Text.Trim(s[start..close])
  {
  }

  /** Whatever follows the first fenced block never changes the extracted message. */
  lemma {:induction false} NarrationIgnored(s: string, t: string)
    requires FirstFencedBody(s).Some?
    ensures ExtractCommitMessage(s + t) == ExtractCommitMessage(s)
  {
    var (start, close) := FirstFencedBody(s).value;
    FirstFencedBodyExtended(s, t);
    ExtractFromBody(s, start, close);
    ExtractFromBody(s + t, start, close);
    assert (s + t)[start..close] == s[start..close];
  }

  /** A reply whose first fence has no partner matches no block at all: the first paragraph is
      taken, fence included. */
  lemma UnpairedFenceFallsBack(s: string)
    requires Text.IndexOf(s, Fence, 0).Some?
    requires Text.IndexOf(s, Fence, Text.IndexOf(s, Fence, 0).value + 3).None?
    ensures ExtractCommitMessage(s) == Text.Trim(Text.FirstPiece(s, "\n\n"))
  {
    FirstFencedBodyMatches(s);
  }

  /** A response that is nothing but whitespace yields the empty message. */
  lemma WhitespaceOnlyResponse(response: string)
    requires Text.AllWhitespace(response)
    ensures ExtractCommitMessage(response) == ""
  {
    var p := Text.FirstPiece(response, "\n\n");
    assert Text.AllWhitespace(p) by {
      forall k | 0 <= k < |p| ensures Text.IsWhitespace(p[k]) {
        assert p[k] == response[k];
      }
    }
  }

  /** Without any fence, a trimmed first paragraph is the message, whatever follows the blank
      line. */
  lemma {:induction false} ExtractFirstParagraph(paragraph: string, rest: string)
    requires Text.Trimmed(paragraph) && Text.IndexOf(paragraph, "\n\n", 0).None?
    requires NoFence(paragraph + "\n\n" + rest)
    ensures ExtractCommitMessage(paragraph + "\n\n" + rest) == paragraph
  {
    var s := paragraph + "\n\n" + rest;
    var n := |paragraph|;
    assert s[n..n + 2] == "\n\n";
    forall j | 0 <= j < n
      ensures !Text.OccursAt(s, "\n\n", j)
    {
      if j + 2 <= n {
        assert s[j..j + 2] == paragraph[j..j + 2];
        assert !Text.OccursAt(paragraph, "\n\n", j);
      } else {
        assert j == n - 1 && s[j] == paragraph[n - 1];
        assert s[j..j + 2][0] == s[j];
      }
    }
    Text.IndexOfFound(s, "\n\n", 0, n);
    assert Text.FirstPiece(s, "\n\n") == paragraph;
    Text.TrimAfterWhitespace(paragraph, "");
    assert paragraph + "" == paragraph;
  }

  // ---------------------------------------------------------------------------------------------
  // The push workflow.

  /** The options of `gpush push`. A branch is used only when it is given and not empty. */
  datatype PushOptions = PushOptions(dryRun: bool, force: bool, branch: Option<string>)

  /** A call the workflow makes to the git client or the AI provider. */
  datatype Effect =
    | ReadDiff                   // git diff --cached --diff-algorithm=minimal
    | Generate(diff: string)     // the provider is asked for a message for this diff
    | Commit(message: string)
    | Push(args: seq<string>)

  /** What the git client and the provider answer. `provider` stands for `generateCommitMessage`,
      which may fail; `commit` and `push` say whether those git operations succeed. */
  datatype Capabilities = Capabilities(
    diff: Result<string>,
    provider: string -> Result<string>,
    commit: Outcome,
    push: Outcome,
    maxDiffLength: nat)

  /** How `handlePushCommand` ends. Every failure is caught, shown and exits with code 1. */
  datatype PushOutcome =
    | Completed(message: string)   // committed and pushed with this message
    | Previewed(message: string)   // dry run: message generated and shown only
    | Aborted(reason: string)      // the message shown for the error

  const NoChangesMessage := "No changes detected. Stage your changes first with `git add`"

  function ExitCode(o: PushOutcome): (code: nat)
    ensures code == 0 <==> !o.Aborted?
    ensures code <= 1
  {
    if o.Aborted? then 1 else 0
  }

  /** The arguments of `git push`: `--force` first exactly when forcing, then `origin` and the
      branch exactly when a branch is given; no option, no argument. */
  function PushArgs(force: bool, branch: Option<string>): (args: seq<string>)
    ensures |args| == (if force then 1 else 0) + (if Text.Given(branch) then 2 else 0)
    ensures force <==> |args| > 0 && args[0] == "--force"
    ensures Text.Given(branch) <==> |args| >= 2 && args[|args| - 2..] == ["origin", branch.value]
  {
    (if force then ["--force"] else []) + (if Text.Given(branch) then ["origin", branch.value] else [])
  }

  predicate Mutates(e: Effect) {
    e.Commit? || e.Push?
  }

  /** One run of the workflow: its outcome and the calls it makes, in order. */
  datatype Run = Run(outcome: PushOutcome, effects: seq<Effect>)

  /** The last step of the workflow: commit with the message, then, only if that succeeded,
      push with the arguments the options call for. */
  function CommitAndPushRun(c: Capabilities, o: PushOptions, message: string): (run: Run)
    ensures |run.effects| >= 1 && run.effects[0] == Commit(message)
    ensures |run.effects| == 2 <==> c.commit.Pass?
    ensures |run.effects| <= 2
    ensures c.commit.Pass? ==> run.effects[1] == Push(PushArgs(o.force, o.branch))
    ensures run.outcome.Completed? <==> c.commit.Pass? && c.push.Pass?
    ensures run.outcome.Completed? ==> run.outcome.message == message
    ensures !run.outcome.Previewed?
  {
    match c.commit
    case Fail(e) => Run(Aborted(e.message), [Commit(message)])
    case Pass =>
      var pushed := [Commit(message), Push(PushArgs(o.force, o.branch))];
      match c.push
      case Fail(e) => Run(Aborted(e.message), pushed)
      case Pass => Run(Completed(message), pushed)
  }

  /** What the provider is asked about: the staged diff, truncated. */
  function ProviderInput(c: Capabilities): (input: string)
    requires c.diff.Ok? && c.diff.value != ""
    ensures Utils.TruncateDiff(c.diff.value, c.maxDiffLength) == Ok(input)
  {
    Utils.TruncateDiff(c.diff.value, c.maxDiffLength).value
  }

  /** `handlePushCommand` as a function of what the environment answers. The diff is always read
      first and a failed read or an empty diff ends the run there; otherwise the truncated diff is
      sent to the provider, a failure of which ends the run; a dry run then shows the extracted
      message, any other run commits it and pushes. */
  function PushRun(c: Capabilities, o: PushOptions): (run: Run)
    ensures |run.effects| >= 1 && run.effects[0] == ReadDiff
    ensures c.diff.Err? ==> run == Run(Aborted(c.diff.error.message), [ReadDiff])
    ensures c.diff == Ok("") ==> run == Run(Aborted(NoChangesMessage), [ReadDiff])
    ensures c.diff.Ok? && c.diff.value != "" ==>
              |run.effects| >= 2 && run.effects[..2] == [ReadDiff, Generate(ProviderInput(c))]
    ensures c.diff.Ok? && c.diff.value != "" && c.provider(ProviderInput(c)).Err? ==>
              run == Run(Aborted(c.provider(ProviderInput(c)).error.message), run.effects[..2])
    ensures c.diff.Ok? && c.diff.value != "" && c.provider(ProviderInput(c)).Ok? && o.dryRun ==>
              run == Run(Previewed(ExtractCommitMessage(c.provider(ProviderInput(c)).value)), run.effects[..2])
    ensures c.diff.Ok? && c.diff.value != "" && c.provider(ProviderInput(c)).Ok? && !o.dryRun ==>
              var rest := CommitAndPushRun(c, o, ExtractCommitMessage(c.provider(ProviderInput(c)).value));
              run.effects[2..] == rest.effects && run.outcome == rest.outcome
  {
    match c.diff
    case Err(e) => Run(Aborted(e.message), [ReadDiff])
    case Ok(diff) =>
      if diff == "" then Run(Aborted(NoChangesMessage), [ReadDiff])
      else
        var input := ProviderInput(c);
        var asked := [ReadDiff, Generate(input)];
        match c.provider(input)
        case Err(e) => Run(Aborted(e.message), asked)
        case Ok(response) =>
          var message := ExtractCommitMessage(response);
          if o.dryRun then Run(Previewed(message), asked)
          else
            var rest := CommitAndPushRun(c, o, message);
            Run(rest.outcome, asked + rest.effects)
  }

  /** A dry run never commits or pushes. */
  lemma DryRunMutatesNothing(c: Capabilities, o: PushOptions)
    requires o.dryRun
    ensures forall i :: 0 <= i < |PushRun(c, o).effects| ==> !Mutates(PushRun(c, o).effects[i])
  {
  }

  /** A push is only ever the fourth call, right after committing the message extracted from the
      provider's reply to the truncated diff, and the commit then succeeded. */
  lemma {:induction false} PushOnlyAfterCommit(c: Capabilities, o: PushOptions)
    ensures forall i :: 0 <= i < |PushRun(c, o).effects| && PushRun(c, o).effects[i].Push? ==>
              i == 3 && c.diff.Ok? && c.diff.value != "" && c.provider(ProviderInput(c)).Ok?
              && PushRun(c, o).effects[2] == Commit(ExtractCommitMessage(c.provider(ProviderInput(c)).value))
              && c.commit.Pass?
  {
    var run := PushRun(c, o);
    if c.diff.Ok? && c.diff.value != "" && c.provider(ProviderInput(c)).Ok? && !o.dryRun {
      var rest := CommitAndPushRun(c, o, ExtractCommitMessage(c.provider(ProviderInput(c)).value));
      assert run.effects == run.effects[..2] + rest.effects;
    }
  }

  /** A completed run made exactly four calls, the last two committing the message it reports
      and pushing with the arguments the options call for. */
  lemma CompletedRun(c: Capabilities, o: PushOptions)
    requires PushRun(c, o).outcome.Completed?
    ensures var run := PushRun(c, o);
            |run.effects| == 4 && run.effects[2] == Commit(run.outcome.message)
            && run.effects[3] == Push(PushArgs(o.force, o.branch))
            && c.commit.Pass? && c.push.Pass?
  {
  }

  /** A failed push leaves the commit made: the run shows the commit before the push. */
  lemma PushFailureAfterCommit(c: Capabilities, o: PushOptions)
    requires PushRun(c, o).outcome.Aborted? && |PushRun(c, o).effects| == 4
    ensures c.push.Fail? && PushRun(c, o).effects[2].Commit? && PushRun(c, o).effects[3].Push?
  {
  }

  /** Provider failures, whatever their exit code, end the workflow with exit code 1 and
      before any commit. */
  lemma ProviderFailureExitsOne(c: Capabilities, o: PushOptions)
    requires c.diff.Ok? && c.diff.value != ""
    requires c.provider(ProviderInput(c)).Err?
    ensures ExitCode(PushRun(c, o).outcome) == 1
    ensures |PushRun(c, o).effects| == 2
  {
  }

  const ExampleDiff := "diff --git a/x b/x\n+hello\n"
  const ExampleMessage := "feat: add hello marker"
  /** "```\nfeat: add hello marker\n```\nThis adds a greeting." */
  const ExampleResponse := Fenced("", ExampleMessage) + "\nThis adds a greeting."

  /** The example reply is the example message in an untagged fenced block, then narration. */
  lemma ExampleExtraction()
    ensures ExtractCommitMessage(ExampleResponse) == ExampleMessage
  {
    assert NoFence(ExampleMessage) by {
      forall j | 0 <= j ensures !Text.OccursAt(ExampleMessage, Fence, j) {
        if j + 3 <= |ExampleMessage| {
          assert ExampleMessage[j] != '`';
          assert ExampleMessage[j..j + 3][0] == ExampleMessage[j];
        }
      }
    }
    assert "" + Fenced("", ExampleMessage) + "\nThis adds a greeting." == ExampleResponse;
    ExtractFenced("", "", ExampleMessage, "\nThis adds a greeting.");
  }

  /** The end-to-end example without options: the fenced message is committed, then pushed
      with no arguments. */
  lemma ExampleRun(c: Capabilities)
    requires c.diff == Ok(ExampleDiff) && c.maxDiffLength == Utils.DefaultMaxDiffLength
    requires c.provider(ExampleDiff) == Ok(ExampleResponse)
    requires c.commit == Pass && c.push == Pass
    ensures PushRun(c, PushOptions(false, false, None)) ==
            Run(Completed(ExampleMessage),
                [ReadDiff, Generate(ExampleDiff), Commit(ExampleMessage), Push([])])
  {
    Utils.TruncateShortDiff(ExampleDiff, Utils.DefaultMaxDiffLength);
    ExampleExtraction();
  }

  /** The same example with `--force` and `--branch`: the push gets `--force origin <branch>`. */
  lemma ExampleForcedRun(c: Capabilities, branch: string)
    requires c.diff == Ok(ExampleDiff) && c.maxDiffLength == Utils.DefaultMaxDiffLength
    requires c.provider(ExampleDiff) == Ok(ExampleResponse)
    requires c.commit == Pass && c.push == Pass && branch != ""
    ensures PushRun(c, PushOptions(false, true, Some(branch))) ==
            Run(Completed(ExampleMessage),
                [ReadDiff, Generate(ExampleDiff), Commit(ExampleMessage), Push(["--force", "origin", branch])])
  {
    Utils.TruncateShortDiff(ExampleDiff, Utils.DefaultMaxDiffLength);
    ExampleExtraction();
    assert PushArgs(true, Some(branch)) == ["--force"] + ["origin", branch] == ["--force", "origin", branch];
  }

  /** The git client and the provider, seen from the workflow: fixed answers and the record of
      every call made to them. */
  class Environment {
    const caps: Capabilities
    var effects: seq<Effect>

    constructor (caps: Capabilities)
      ensures this.caps == caps && effects == []
    {
      this.caps := caps;
      effects := [];
    }

    method ReadDiff() returns (r: Result<string>)
      modifies this
      ensures r == caps.diff && effects == old(effects) + [Effect.ReadDiff]
    {
      r := caps.diff;
      effects := effects + [Effect.ReadDiff];
    }

    method Generate(diff: string) returns (r: Result<string>)
      modifies this
      ensures r == caps.provider(diff) && effects == old(effects) + [Effect.Generate(diff)]
    {
      r := caps.provider(diff);
      effects := effects + [Effect.Generate(diff)];
    }

    method Commit(message: string) returns (r: Outcome)
      modifies this
      ensures r == caps.commit && effects == old(effects) + [Effect.Commit(message)]
    {
      r := caps.commit;
      effects := effects + [Effect.Commit(message)];
    }

    method Push(args: seq<string>) returns (r: Outcome)
      modifies this
      ensures r == caps.push && effects == old(effects) + [Effect.Push(args)]
    {
      r := caps.push;
      effects := effects + [Effect.Push(args)];
    }

    /** `getStagedDiff`: the staged diff, truncated on return; an empty one fails with code 5. */
    method GetStagedDiff() returns (r: Result<string>)
      modifies this
      ensures effects == old(effects) + [Effect.ReadDiff]
      ensures caps.diff.Err? ==> r == caps.diff
      ensures caps.diff.Ok? ==> r == Utils.TruncateDiff(caps.diff.value, caps.maxDiffLength)
    {
      var diff := ReadDiff();
      if diff.Err? {
        return diff;
      }
      r := Utils.TruncateDiff(diff.value, caps.maxDiffLength);
    }
  }

  /** `handlePushCommand`: read the diff, refuse an empty one, ask the provider about the
      truncated diff, extract the message, stop here on a dry run, else commit and push. */
  method HandlePush(env: Environment, options: PushOptions) returns (outcome: PushOutcome)
    modifies env
    ensures env.effects == old(env.effects) + PushRun(env.caps, options).effects
    ensures outcome == PushRun(env.caps, options).outcome
  {
    var diff := env.ReadDiff();
    if diff.Err? {
      return Aborted(diff.error.message);
    }
    if diff.value == "" {
      return Aborted(NoChangesMessage);
    }
    var input := Utils.TruncateDiff(diff.value, env.caps.maxDiffLength).value;
    assert input == ProviderInput(env.caps);
    ghost var before := old(env.effects);
    var response := env.Generate(input);
    AppendPair(before, ReadDiff, Generate(input));
    if response.Err? {
      return Aborted(response.error.message);
    }
    var commitMessage := ExtractCommitMessage(response.value);
    if options.dryRun {
      return Previewed(commitMessage);
    }
    outcome := CommitAndPush(env, options, commitMessage);
    AppendAssociative(before, [ReadDiff, Generate(input)], CommitAndPushRun(env.caps, options, commitMessage).effects);
  }

  /* Two facts about appending to the record of calls. Given as lemmas, they spare the proofs
     above an element-by-element comparison of the records. */

  lemma AppendPair<T>(s: seq<T>, x: T, y: T)
    ensures s + [x] + [y] == s + [x, y]
  {
  }

  lemma AppendAssociative<T>(s: seq<T>, t: seq<T>, u: seq<T>)
    ensures s + t + u == s + (t + u)
  {
  }

  /** The commit-and-push step: commit, and push only when the commit succeeded. The push
      arguments are built in place: `--force`, then `origin` and the branch. */
  method CommitAndPush(env: Environment, options: PushOptions, commitMessage: string)
    returns (outcome: PushOutcome)
    modifies env
    ensures env.effects == old(env.effects) + CommitAndPushRun(env.caps, options, commitMessage).effects
    ensures outcome == CommitAndPushRun(env.caps, options, commitMessage).outcome
  {
    var committed := env.Commit(commitMessage);
    if committed.Fail? {
      return Aborted(committed.error.message);
    }
    var pushArgs: seq<string> := [];
    if options.force {
      pushArgs := pushArgs + ["--force"];
    }
    if Text.Given(options.branch) {
      pushArgs := pushArgs + ["origin", options.branch.value];
    }
    assert pushArgs == PushArgs(options.force, options.branch);
    var pushed := env.Push(pushArgs);
    if pushed.Fail? {
      return Aborted(pushed.error.message);
    }
    return Completed(commitMessage);
  }
}
