/** The configuration store with read-time defaults (src/config.ts). The persisted key/value
    store is a map held by a `Store` object; the typed getters are functions of that map. */
module Config {
  import opened Errors
  import Text
  import Utils

  /** The settings of the configuration schema. */
  datatype Key = OpenAiApiKey | OpenAiModel | AiProvider | AwsRegion | BedrockModel

  type Settings = map<Key, string>

  /** `config.get(key)`: the stored value, or nothing. */
  function Lookup(s: Settings, k: Key): (v: Option<string>)
    ensures v.Some? <==> k in s
    ensures v.Some? ==> v.value == s[k]
  {
    if k in s then Some(s[k]) else None
  }

  /** JavaScript's `value || fallback` on a setting: an unset or empty value gives the fallback. */
  function OrElse(v: Option<string>, fallback: string): (r: string)
    ensures v.Some? && v.value != "" ==> r == v.value
    ensures v.None? || v.value == "" ==> r == fallback
  {
    if v.Some? && v.value != "" then v.value else fallback
  }

  /** Whether a setting has a value that counts as set (present and not empty). */
  predicate IsSet(s: Settings, k: Key) {
    k in s && s[k] != ""
  }

  /** The default each getter falls back to. The API key has none: its getter fails instead. */
  function DefaultFor(k: Key): string
    requires k != OpenAiApiKey
  {
    match k
    case OpenAiModel => "gpt-4"
    case AiProvider => "openai"
    case AwsRegion => "eu-central-1"
    case BedrockModel => "anthropic.claude-3-5-sonnet-20240620-v1:0"
  }

  /** The getters `OPENAI_MODEL`, `AI_PROVIDER`, `AWS_REGION` and `BEDROCK_MODEL`: the stored
      value when it is set, else the fixed default. Never empty. */
  function Resolved(s: Settings, k: Key): (r: string)
    requires k != OpenAiApiKey
    ensures r != ""
    ensures IsSet(s, k) ==> r == s[k]
    ensures !IsSet(s, k) ==> r == DefaultFor(k)
  {
    OrElse(Lookup(s, k), DefaultFor(k))
  }

  const NoApiKeyError := GPushError("No API key configured. Use `gpush config --set-key`", 2)

  /** The getter `OPENAI_API_KEY`: the stored key, or an error with exit code 2 when it is unset
      or empty. */
  function ApiKey(s: Settings): (r: Result<string>)
    ensures r.Ok? <==> IsSet(s, OpenAiApiKey)
    ensures r.Ok? ==> r.value == s[OpenAiApiKey] && r.value != ""
    ensures r.Err? ==> r.error == NoApiKeyError && r.error.exitCode == 2
  {
    match Lookup(s, OpenAiApiKey)
    case Some(key) => if key != "" then Ok(key) else Err(NoApiKeyError)
    case None => Err(NoApiKeyError)
  }

  /** Setting a non-empty value makes its getter return it. */
  lemma SetThenGet(s: Settings, k: Key, v: string)
    requires v != ""
    ensures k == OpenAiApiKey ==> ApiKey(s[k := v]) == Ok(v)
    ensures k != OpenAiApiKey ==> Resolved(s[k := v], k) == v
  {
  }

  /** Setting one key changes no other getter. */
  lemma SetLeavesOthers(s: Settings, k: Key, v: string, other: Key)
    requires other != k
    ensures other == OpenAiApiKey ==> ApiKey(s[k := v]) == ApiKey(s)
    ensures other != OpenAiApiKey ==> Resolved(s[k := v], other) == Resolved(s, other)
  {
  }

  /** Storing the empty string does not hide the default: the getter falls back to it. */
  lemma EmptyValueFallsBack(s: Settings, k: Key)
    requires k != OpenAiApiKey
    ensures Resolved(s[k := ""], k) == DefaultFor(k)
    ensures ApiKey(s[OpenAiApiKey := ""]).Err?
  {
  }

  /** `key.slice(-4)`: the last `n` characters, or all of them when there are fewer. */
  function LastChars(key: string, n: nat): (r: string)
    ensures |r| == Utils.Min(|key|, n)
    ensures r == key[|key| - |r|..]
  {
    if |key| <= n then key else key[|key| - n..]
  }

  const NotConfigured := "Not configured"

  /** How a key is shown: five asterisks and its last four characters, or `Not configured`
      when it is unset or empty. */
  function Mask(key: Option<string>): (r: string)
    ensures key.None? || key.value == "" ==> r == NotConfigured
    ensures key.Some? && key.value != "" ==>
              var n := Utils.Min(|key.value|, 4);
              6 <= |r| == 5 + n <= 9 && r[..5] == "*****" && r[5..] == key.value[|key.value| - n..]
  {
    if key.Some? && key.value != "" then "*****" + LastChars(key.value, 4) else NotConfigured
  }

  /** Masking shows nothing but the last four characters: two keys that end alike are shown
      alike, and keys of four or more characters are shown with exactly four. */
  lemma {:induction false} MaskRevealsOnlyLastFour(a: string, b: string)
    requires |a| >= 4 && |b| >= 4 && a[|a| - 4..] == b[|b| - 4..]
    ensures Mask(Some(a)) == Mask(Some(b)) == "*****" + a[|a| - 4..]
  {
    assert LastChars(a, 4) == a[|a| - 4..];
    assert LastChars(b, 4) == b[|b| - 4..];
  }

  /** The lines of the `status` command: the provider, then for `openai` the masked key and the
      model, for any other provider the region and the Bedrock model. */
  function StatusReport(s: Settings): (lines: seq<string>)
    ensures |lines| == 6
    ensures lines[2] == "AI Provider: " + Resolved(s, AiProvider)
    ensures Resolved(s, AiProvider) == "openai" ==>
              lines[3] == "OpenAI API Key: " + Mask(Lookup(s, OpenAiApiKey))
              && lines[4] == "OpenAI Model: " + Resolved(s, OpenAiModel)
    ensures Resolved(s, AiProvider) != "openai" ==>
              lines[3] == "AWS Region: " + Resolved(s, AwsRegion)
              && lines[4] == "Bedrock Model: " + Resolved(s, BedrockModel)
  {
    var provider := Resolved(s, AiProvider);
    var details :=
      if provider == "openai" then
        ["OpenAI API Key: " + Mask(Lookup(s, OpenAiApiKey)), "OpenAI Model: " + Resolved(s, OpenAiModel)]
      else
        ["AWS Region: " + Resolved(s, AwsRegion), "Bedrock Model: " + Resolved(s, BedrockModel)];
    ["\nCurrent Configuration:", "--------------------", "AI Provider: " + provider]
      + details + ["--------------------\n"]
  }

  const KeyStoredLine := "API key successfully stored"

  /** The persisted configuration: a map from settings to values, read by the getters above. */
  class Store {
    var values: Settings

    constructor ()
      ensures values == map[]
    {
      values := map[];
    }

    /** `config.get`. */
    method Get(k: Key) returns (v: Option<string>)
      ensures v == Lookup(values, k)
    {
      v := Lookup(values, k);
    }

    /** `config.set`: stores the value under the key; nothing else changes. */
    method Set(k: Key, v: string)
      modifies this
      ensures values == old(values)[k := v]
    {
      values := values[k := v];
    }

    /** The `config` command: with `--set-key`, validate the key and store it only if valid
      (an invalid one fails with exit code 3 and stores nothing); with `--show-key`, show the
      stored key masked. Returns the lines printed. */
    method ConfigCommand(setKey: Option<string>, showKey: bool) returns (r: Result<seq<string>>)
      modifies this
      ensures r.Err? <==> Text.Given(setKey) && !Utils.ValidApiKey(setKey.value)
      ensures Text.Given(setKey) && !Utils.ValidApiKey(setKey.value) ==>
                r == Err(Utils.InvalidKeyError) && values == old(values)
      ensures Text.Given(setKey) && Utils.ValidApiKey(setKey.value) ==>
                values == old(values)[OpenAiApiKey := setKey.value]
      ensures !Text.Given(setKey) ==> values == old(values)
      ensures r.Ok? ==>
                r.value == (if Text.Given(setKey) then [KeyStoredLine] else [])
                           + (if showKey then ["API key: " + Mask(Lookup(values, OpenAiApiKey))] else [])
    {
      var lines: seq<string> := [];
      if Text.Given(setKey) {
        var valid := Utils.ValidateApiKey(setKey.value);
        if valid.Fail? {
          return Err(valid.error);
        }
        Set(OpenAiApiKey, setKey.value);
        lines := lines + [KeyStoredLine];
      }
      if showKey {
        var key := Get(OpenAiApiKey);
        lines := lines + ["API key: " + Mask(key)];
      }
      return Ok(lines);
    }
  }

  /** A key stored by the `config` command is one the getter then returns. */
  lemma StoredKeyIsReadBack(s: Settings, key: string)
    requires Utils.ValidApiKey(key)
    ensures ApiKey(s[OpenAiApiKey := key]) == Ok(key)
  {
    Utils.ApiKeyShape(key[3..]);
  }
}
