# gpush: a verified model of the commit-and-push core

gpush is a command-line tool. It reads the staged git diff and asks an AI provider for a
conventional commit message. It extracts the message from the reply, then commits and pushes.
This project models the logic that decides what happens along the way:

- **Diff bounding and key validation** (`src/utils.ts`), in module `Utils`. This covers the empty-diff
  error, the 4000-character cut with its 30-character marker, and the anchored
  `^sk-[A-Za-z0-9-_]{20,}$` key pattern.
- **Commit-message extraction** (`src/git.ts`), in module `Git`. It takes the first fenced block,
  with an optional word-only tag line, and falls back to the first paragraph. Both are trimmed with
  JavaScript's `trim`. Module `Text` holds the string built-ins this needs: `trim`, `indexOf`,
  `startsWith`, the first piece of `split`, and `\w`.
- **The push workflow** (`handlePushCommand`, `getStagedDiff`), also in `Git`. An `Environment`
  object stands in for the git client and the AI provider. It answers from fixed capabilities and
  records every call the workflow makes, in order. `HandlePush` is proved against the
  specification function `PushRun`. `PushRun`'s contract states the run case by case:
  - the diff is always read first, and a failed read or an empty diff ends the run there;
  - otherwise the truncated diff is sent to the provider, and a provider failure ends the run;
  - a dry run then shows the extracted message and makes no further call;
  - any other run goes on exactly as `CommitAndPushRun`: commit the extracted message, then
    push with the arguments built from `--force` and `--branch` only if the commit succeeded.

  Lemmas about `PushRun` state the consequences: a dry run mutates nothing
  (`Git.DryRunMutatesNothing`); a push only follows a successful commit (`Git.PushOnlyAfterCommit`);
  a completed run made four calls (`Git.CompletedRun`). Exit codes come from `Git.ExitCode` and
  `Git.ProviderFailureExitsOne`.
- **The configuration store** (`src/config.ts`), in module `Config`. A `Store` object holds the
  persisted settings. The getters are functions of the stored map: each falls back to its default
  when a value is unset or empty, and the API key getter fails with exit code 2. The module also
  covers key masking, the `status` report and the `config --set-key/--show-key` command, which
  validates a key before storing it.
- **Interface decisions** (`src/ui.ts`), in module `Ui`. These are the key prompt's validate
  callback, `confirmAction`'s mapping of a cancel to `false`, and the rows of the status table.

Errors the source throws become values: `Result`/`Outcome` in module `Errors`, each carrying the
process exit code.

Behaviours of the code worth noting:

- `handlePushCommand` has no confirmation step. It commits right after the message is generated.
- Every failure inside `handlePushCommand` is caught and ends with exit code 1 (`Git.ExitCode`,
  `Git.ProviderFailureExitsOne`). This includes provider failures with their own codes. The key
  checks of `initializeOpenAI` (src/ai.ts:9-16) run on the first provider call, inside the
  workflow's `try`: a missing key fails with code 2 and a malformed one with code 3. Errors of the
  API call itself carry code 4. All of them end with exit code 1.
- The empty diff never reaches `truncateDiff` from `handlePushCommand`. The workflow's own check
  throws a plain error first (`NoChangesMessage`). So the code-5 error of `truncateDiff` cannot
  arise there.
- An empty extracted message is not rejected. A whitespace-only reply yields the empty message
  (`Git.WhitespaceOnlyResponse`), and the workflow goes on to commit it.
- The status table of `src/ui.ts` shows `gpt-4o` when no model is set. The getter in
  `src/config.ts` defaults to `gpt-4` (`Ui.StatusTableAgreesWithReport`).

## Model

| member | source | states |
|---|---|---|
| Utils.TruncateDiff | src/utils.ts:5-10 | fails with code 5 exactly on the empty diff; otherwise the result is non-empty, at most the limit plus the marker long, and starts with as much of the diff as the limit allows |
| Utils.TruncateShortDiff | src/utils.ts:7-9 | a non-empty diff within the limit is returned unchanged |
| Utils.TruncateLongDiff | src/utils.ts:7-9 | a diff over the limit becomes its first `maxLength` characters plus the marker, `maxLength + 30` characters |
| Utils.MarkerLength | test/index.test.ts:9 | the truncation marker is 30 characters long |
| Utils.TruncateRecordedCases | test/index.test.ts:6-16 | 5000 `a`s truncate to 4030 characters; `test diff` is kept as is |
| Utils.ValidateApiKey | src/utils.ts:12-17 | passes exactly the keys matching `^sk-[A-Za-z0-9-_]{20,}$`, else fails with code 3 |
| Utils.ApiKeyShape | src/utils.ts:14 | `sk-` plus a body is accepted iff the body is 20+ key characters; every accepted key has at least 23 characters |
| Utils.ApiKeyAnchoredAtEnd | src/utils.ts:14 | the pattern is anchored at the end: appending a character keeps a key accepted iff the character is in the class |
| Text.Trim | src/git.ts:25 | `trim` returns exactly the slice between the first and past the last non-whitespace character; it neither starts nor ends with whitespace, and is empty iff the input was all whitespace |
| Text.TrimSurrounded | src/git.ts:25 | whitespace added on either side of a trimmed string is removed by `trim`, leaving it unchanged |
| Text.IndexOf | src/git.ts:29 | `indexOf` finds an occurrence at or after the start, and there is none before it |
| Text.FirstPiece | src/git.ts:29 | `split(sep)[0]` is the prefix before the first occurrence of the separator, or the whole string |
| Git.BodyStart | src/git.ts:23 | the optional tag line `(?:\w*\n)?` is skipped exactly when a run of word characters after the fence ends in a newline, and then the body starts just past that newline; otherwise it starts right after the fence |
| Git.FirstFencedBody | src/git.ts:23-24 | the regex match ends at a fence, with no fence between the body start and it |
| Git.FirstFencedBodyMatches | src/git.ts:23-24 | a match exists iff there is a fence and a later one past its three backticks; the body starts at the first fence, past an optional `\w*\n` tag line, and ends at the first fence after the opening one |
| Git.UnpairedFenceFallsBack | src/git.ts:23-30 | a single fence with no closing one is no match: the first paragraph is used |
| Git.ExtractCommitMessage | src/git.ts:21-31 | the extracted message is always trimmed |
| Git.ExtractFenced | src/git.ts:23-25 | round trip: a trimmed, fence-free message in a fenced block with any word tag, after any fence-free preamble and before any narration, is extracted unchanged |
| Git.NarrationIgnored | src/git.ts:23-25 | text after the first fenced block never changes the extracted message |
| Git.ExtractFirstParagraph | src/git.ts:28-30 | without fences, a trimmed first paragraph is extracted whatever follows the blank line |
| Git.WhitespaceOnlyResponse | src/git.ts:28-30 | a whitespace-only reply yields the empty message |
| Git.ExitCode | src/git.ts:68-75 | the exit code is 0 exactly when the workflow did not abort, and 1 otherwise |
| Git.PushArgs | src/git.ts:61-63 | the push arguments start with `--force` iff forcing, and end with `origin <branch>` iff a non-empty branch is given |
| Git.CommitAndPushRun | src/git.ts:58-67 | commit comes first; push happens only after a successful commit; completion iff both succeed, with the message committed |
| Git.ProviderInput | src/git.ts:49 | the provider is asked about the staged diff as `truncateDiff` returns it |
| Git.PushRun | src/git.ts:33-77 | reads the diff first; a failed or empty diff aborts with its message after that call only; otherwise the next call sends the truncated diff to the provider, whose failure aborts with its message; a dry run previews the extracted message after those two calls; any other run continues as `CommitAndPushRun` with the extracted message |
| Git.DryRunMutatesNothing | src/git.ts:52-56 | a dry run makes no commit and no push |
| Git.PushOnlyAfterCommit | src/git.ts:58-64 | a push is only the fourth call, after a successful commit of the message extracted from the provider's reply to the truncated diff |
| Git.CompletedRun | src/git.ts:59-67 | a completed run made four calls: commit of the reported message, then push with the arguments from the options; both succeeded |
| Git.PushFailureAfterCommit | src/git.ts:59-64 | a run that aborts after four calls failed at the push, with the commit already made |
| Git.ProviderFailureExitsOne | src/git.ts:49-75 | a provider failure ends with exit code 1 after only the diff and generation calls |
| Git.ExampleExtraction | src/git.ts:21-26 | the example reply with an untagged fenced block yields `feat: add hello marker` |
| Git.ExampleRun | src/git.ts:42-66 | the example scenario completes, committing `feat: add hello marker` and pushing with no arguments |
| Git.ExampleForcedRun | src/git.ts:61-64 | with `--force` and a branch, the push arguments are `--force origin <branch>` |
| Git.Environment.GetStagedDiff | src/git.ts:9-19 | returns the staged diff truncated, or the diff read's failure, recording one diff read |
| Git.HandlePush | src/git.ts:33-77 | the calls made and the outcome are exactly those of `PushRun` |
| Git.CommitAndPush | src/git.ts:58-67 | commits, builds the push arguments in place, pushes; the calls and outcome are those of `CommitAndPushRun` |
| Config.Resolved | src/config.ts:31-42 | each getter returns the stored value when it is non-empty, else its default; never empty |
| Config.ApiKey | src/config.ts:26-30 | returns the stored key iff it is set and non-empty, else fails with code 2 |
| Config.SetThenGet | src/config.ts:43-44 | after setting a non-empty value, its getter returns it |
| Config.SetLeavesOthers | src/config.ts:43-44 | setting one key changes no other getter |
| Config.EmptyValueFallsBack | src/config.ts:31-42 | a stored empty string makes the getter fall back to the default, and the key getter fail |
| Config.Mask | src/config.ts:60 | five asterisks then the last up-to-four characters of a set key, else `Not configured` |
| Config.MaskRevealsOnlyLastFour | src/config.ts:82 | keys with the same last four characters are shown identically |
| Config.StatusReport | src/config.ts:52-67 | six lines; the provider line, then the masked key and model for `openai`, else the region and the Bedrock model |
| Config.Store.Get | src/config.ts:43 | reads the stored value |
| Config.Store.Set | src/config.ts:44 | stores a value under its key and changes nothing else |
| Config.Store.ConfigCommand | src/config.ts:74-84 | fails iff a non-empty key is given and is invalid, then with code 3 and nothing stored; a valid key is stored; with no key nothing changes; the printed lines follow the options |
| Config.StoredKeyIsReadBack | src/config.ts:75-77 | a key accepted by `--set-key` is what the key getter then returns |
| Ui.ValidateKeyInput | src/ui.ts:97-101 | each message is shown exactly in its case, checked in order empty, prefix, length; other inputs are accepted |
| Ui.ValidKeyPassesPrompt | src/ui.ts:97-101 | every key `validateApiKey` accepts is accepted at the prompt |
| Ui.PromptLooserThanValidation | src/ui.ts:99-100 | the prompt accepts 20-character and non-class keys that `validateApiKey` rejects |
| Ui.ConfirmAction | src/ui.ts:112-115 | the boolean answer, and `false` when cancelled |
| Ui.ShowStatus | src/ui.ts:147-167 | three rows: provider (default `openai`); for `openai`, the masked key and model; otherwise the Bedrock model and region, with the getters' defaults |
| Ui.StatusModel | src/ui.ts:155 | the stored OpenAI model, or `gpt-4o` |
| Ui.StatusTableAgreesWithReport | src/ui.ts:147-159 | the table and the `status` report agree on the provider and key, but with no model stored they show `gpt-4o` and `gpt-4` |

## Left out

- The AI providers (`src/ai.ts`: the OpenAI and Bedrock clients, prompts, token limits) are not part of this model. The provider is a function from the diff to a reply or an error.
- The git client, the encrypted `conf` store and the `commander` command wiring are libraries. Git's answers are fixed capabilities, and the store is a map.
- Git.Environment: commit and push succeed or fail independently of their arguments and of earlier calls, since the capability answers are fixed.
- Spinners, boxes, gradients, table rendering and console output are left out. Only messages and row contents are modelled.
- The interactive prompts and the `preAction` key check in `src/cli.ts` are left out, as is the prompt's cancel path in `getApiKey`.
- `process.exit` and the uncaught-exception handler of `src/errors.ts` are modelled only as the exit code carried by an outcome or error.
- Asynchronous suspension is not modelled. The calls happen strictly in sequence, which is the order recorded.
- Utils.TruncateDiff: takes the limit as a parameter. It does not model reading `MAX_DIFF_LENGTH` from the environment with `parseInt`; the default 4000 is `DefaultMaxDiffLength`.
- Strings are sequences of characters. JavaScript's `length`, `substring` and `slice` count UTF-16 code units, which differ for characters outside the Basic Multilingual Plane.
- Ui.ConfirmAction: the prompt's message argument and the rendering of the question are left out.
