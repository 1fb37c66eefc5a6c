/** The parts of the terminal interface (src/ui.ts) that decide something: the check run on a
    typed-in API key, the answer of a yes/no question, and the rows of the status table. */
module Ui {
  import opened Errors
  import Text
  import Utils
  import Config

  const KeyRequired := "API key is required"
  const KeyNeedsPrefix := "API key must start with sk-"
  const KeyTooShort := "API key is too short"

  /** The prompt's validate callback: the message shown for a rejected input, or nothing when the
      input is accepted. The checks run in order: empty, missing `sk-` prefix, under 20 characters. */
  function ValidateKeyInput(value: string): (r: Option<string>)
    ensures r == Some(KeyRequired) <==> value == ""
    ensures r == Some(KeyNeedsPrefix) <==> value != "" && !Text.StartsWith(value, "sk-")
    ensures r == Some(KeyTooShort) <==> Text.StartsWith(value, "sk-") && |value| < 20
    ensures r.None? <==> Text.StartsWith(value, "sk-") && |value| >= 20
  {
    if value == "" then Some(KeyRequired)
    else if !Text.StartsWith(value, "sk-") then Some(KeyNeedsPrefix)
    else if |value| < 20 then Some(KeyTooShort)
    else None
  }

  /** Every key the `config --set-key` check accepts is also accepted at the prompt. */
  lemma ValidKeyPassesPrompt(key: string)
    requires Utils.ValidApiKey(key)
    ensures ValidateKeyInput(key).None?
  {
    Utils.ApiKeyShape(key[3..]);
  }

  /** Twenty characters: `sk-` followed by seventeen `a`s. */
  const ShortKey := "sk-" + seq(17, _ => 'a')

  /** The prompt is looser than the `config --set-key` check: it counts the prefix towards the
      twenty characters and does not look at which characters follow it, so it accepts keys that
      the other check rejects. */
  lemma PromptLooserThanValidation()
    ensures ValidateKeyInput(ShortKey).None?
    ensures !Utils.ValidApiKey(ShortKey)
    ensures ValidateKeyInput("sk-" + seq(20, _ => '!')).None?
    ensures !Utils.ValidApiKey("sk-" + seq(20, _ => '!'))
  {
    assert ShortKey[3..] == seq(17, _ => 'a');
    var bad := "sk-" + seq(20, _ => '!');
    assert bad[3..][0] == '!';
  }

  /** What a yes/no prompt returns: the answer, or the cancel symbol. */
  datatype Answer = Answered(yes: bool) | Cancelled

  /** `confirmAction`: the answer given, and `false` when the prompt was cancelled. */
  function ConfirmAction(a: Answer): (r: bool)
    ensures a.Answered? ==> r == a.yes
    ensures a.Cancelled? ==> !r
  {
    match a
    case Answered(yes) => yes
    case Cancelled => false
  }

  /** One row of the status table: a setting and the value shown for it. */
  datatype Row = Row(setting: string, value: string)

  /** The model shown for OpenAI when none is set. */
  const StatusDefaultModel := "gpt-4o"

  /** `showStatus`: the rows pushed into the status table. The provider comes first (`openai`
      when unset); for `openai` the masked key and the model (`gpt-4o` when unset) follow, for any
      other provider the Bedrock model and the region, each with the getters' defaults. */
  method ShowStatus(config: Config.Settings) returns (table: seq<Row>)
    ensures |table| == 3
    ensures table[0] == Row("AI Provider", Config.Resolved(config, Config.AiProvider))
    ensures Config.Resolved(config, Config.AiProvider) == "openai" ==>
              table[1] == Row("OpenAI API Key", Config.Mask(Config.Lookup(config, Config.OpenAiApiKey)))
              && table[2] == Row("Model", StatusModel(config))
    ensures Config.Resolved(config, Config.AiProvider) != "openai" ==>
              table[1] == Row("Model", Config.Resolved(config, Config.BedrockModel))
              && table[2] == Row("AWS Region", Config.Resolved(config, Config.AwsRegion))
  {
    table := [];
    var provider := Config.OrElse(Config.Lookup(config, Config.AiProvider), "openai");
    table := table + [Row("AI Provider", provider)];
    if provider == "openai" {
      var apiKey := Config.Lookup(config, Config.OpenAiApiKey);
      var model := Config.OrElse(Config.Lookup(config, Config.OpenAiModel), StatusDefaultModel);
      table := table + [Row("OpenAI API Key", Config.Mask(apiKey)), Row("Model", model)];
    } else {
      var model := Config.OrElse(Config.Lookup(config, Config.BedrockModel),
                                 "anthropic.claude-3-5-sonnet-20240620-v1:0");
      var region := Config.OrElse(Config.Lookup(config, Config.AwsRegion), "eu-central-1");
      table := table + [Row("Model", model), Row("AWS Region", region)];
    }
  }

  /** The model row shown for OpenAI: the stored model, or `gpt-4o`. */
  function StatusModel(config: Config.Settings): (m: string)
    ensures Config.IsSet(config, Config.OpenAiModel) ==> m == Config.Resolved(config, Config.OpenAiModel)
    ensures !Config.IsSet(config, Config.OpenAiModel) ==> m == StatusDefaultModel
  {
    Config.OrElse(Config.Lookup(config, Config.OpenAiModel), StatusDefaultModel)
  }

  /** The status table and the `status` command's report agree on the provider and the key; when
      no model is stored they disagree on the OpenAI model, `gpt-4o` against the getter's `gpt-4`. */
  lemma StatusTableAgreesWithReport(config: Config.Settings)
    ensures Config.StatusReport(config)[2] == "AI Provider: " + Config.Resolved(config, Config.AiProvider)
    ensures Config.Resolved(config, Config.AiProvider) == "openai" ==>
              Config.StatusReport(config)[3]
                == "OpenAI API Key: " + Config.Mask(Config.Lookup(config, Config.OpenAiApiKey))
    ensures Config.Resolved(config, Config.AiProvider) == "openai" && !Config.IsSet(config, Config.OpenAiModel) ==>
              StatusModel(config) == "gpt-4o"
              && Config.StatusReport(config)[4] == "OpenAI Model: gpt-4"
  {
  }
}
