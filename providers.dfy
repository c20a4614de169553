/**
 * Model-id routing: which provider serves a model id, whether the id names a
 * reasoning model, the id sent to the provider (one trailing "-thinking"
 * removed), and the default ids for the title and artifact models.
 */
module Providers {
  import opened Common

  datatype Provider = Cliproxy | Groq

  const ThinkingSuffix: string := "-thinking"

  /** Model ids served through the CLI proxy; everything else goes to Groq. */
  const CliproxyModelIds: set<string> := {
    "gemini-3-flash-preview",
    "gemini-3-pro-preview",
    "gemini-2.5-pro",
    "gpt-5.3-codex",
    "gpt-5.3-codex-spark",
    "gpt-5.2"
  }

  /** The Groq model used for titles, artifacts and summaries unless configured otherwise. */
  const DefaultGroqModel: string := "llama-3.3-70b-versatile"

  /** `modelId.replace(/-thinking$/, "")`. */
  function CleanModelId(modelId: string): (r: string)
    ensures EndsWith(modelId, ThinkingSuffix) ==> modelId == r + ThinkingSuffix
    ensures !EndsWith(modelId, ThinkingSuffix) ==> r == modelId
  {
    if EndsWith(modelId, ThinkingSuffix) then modelId[..|modelId| - |ThinkingSuffix|] else modelId
  }

  /** Exactly one trailing suffix goes: appending it and cleaning gives the id back. */
  lemma CleanStripsOneSuffix(base: string)
    ensures CleanModelId(base + ThinkingSuffix) == base
  {
    var s := base + ThinkingSuffix;
    assert s[|s| - |ThinkingSuffix|..] == ThinkingSuffix;
  }

  function ResolveProvider(modelId: string): (p: Provider)
    ensures p == Cliproxy <==> CleanModelId(modelId) in CliproxyModelIds
  {
    if CleanModelId(modelId) in CliproxyModelIds then Cliproxy else Groq
  }

  /** `modelId.includes("reasoning") || modelId.endsWith("-thinking")`. */
  predicate IsReasoningModel(modelId: string)
  {
    Contains(modelId, "reasoning") || EndsWith(modelId, ThinkingSuffix)
  }

  /** A "-thinking" variant and any id naming reasoning are reasoning models; a plain short id is not. */
  lemma ReasoningExamples()
    ensures IsReasoningModel("gpt-5.2-thinking")
    ensures IsReasoningModel("deepseek-reasoning-large")
    ensures !IsReasoningModel("gpt-5.2")
  {
    var s := "gpt-5.2-thinking";
    assert s[|s| - |ThinkingSuffix|..] == ThinkingSuffix;
    assert OccursAt("deepseek-reasoning-large", "reasoning", 9);
  }

  /** How getLanguageModel serves an id: provider, the id sent to it, and whether reasoning is extracted. */
  datatype Route = Route(provider: Provider, cleanId: string, reasoning: bool)

  function RouteFor(modelId: string): (r: Route)
    ensures r.provider == Cliproxy <==> r.cleanId in CliproxyModelIds
    ensures EndsWith(modelId, ThinkingSuffix) ==> r.cleanId + ThinkingSuffix == modelId
    ensures !EndsWith(modelId, ThinkingSuffix) ==> r.cleanId == modelId
    ensures r.reasoning <==> Contains(modelId, "reasoning") || EndsWith(modelId, ThinkingSuffix)
  {
    Route(ResolveProvider(modelId), CleanModelId(modelId), IsReasoningModel(modelId))
  }

  /** `process.env.X || default`: an unset or empty setting falls back to the default. */
  function ConfiguredOr(setting: Option<string>, default: string): (r: string)
    ensures setting.Some? && setting.value != "" ==> r == setting.value
    ensures setting.None? || setting.value == "" ==> r == default
  {
    if setting.Some? && setting.value != "" then setting.value else default
  }

  function TitleModelId(setting: Option<string>): (r: string)
    ensures setting.None? || setting.value == "" ==> r == DefaultGroqModel
    ensures setting.Some? && setting.value != "" ==> r == setting.value
  {
    ConfiguredOr(setting, DefaultGroqModel)
  }

  function ArtifactModelId(setting: Option<string>): (r: string)
    ensures setting.None? || setting.value == "" ==> r == DefaultGroqModel
    ensures setting.Some? && setting.value != "" ==> r == setting.value
  {
    ConfiguredOr(setting, DefaultGroqModel)
  }

  /** A proxy model asked for in its thinking variant still goes to the proxy; a Groq model stays on Groq. */
  lemma RoutingExamples()
    ensures ResolveProvider("gpt-5.2-thinking") == Cliproxy
    ensures ResolveProvider("llama-3.3-70b-versatile") == Groq
    ensures RouteFor("gpt-5.2-thinking") == Route(Cliproxy, "gpt-5.2", true)
  {
    ThinkingProxyExample();
    GroqModelExample();
  }

  lemma ThinkingProxyExample()
    ensures RouteFor("gpt-5.2-thinking") == Route(Cliproxy, "gpt-5.2", true)
  {
    assert "gpt-5.2" + ThinkingSuffix == "gpt-5.2-thinking";
    ThinkingVariantRouting("gpt-5.2");
  }

  lemma GroqModelExample()
    ensures ResolveProvider(DefaultGroqModel) == Groq
  {
    var s := DefaultGroqModel;
    assert !EndsWith(s, ThinkingSuffix) by {
      assert s[|s| - 1] == 'e';
    }
  }

  /** Every proxied id also reaches the proxy in its "-thinking" form, which is a reasoning model. */
  lemma ThinkingVariantRouting(base: string)
    requires base in CliproxyModelIds
    ensures RouteFor(base + ThinkingSuffix) == Route(Cliproxy, base, true)
  {
    CleanStripsOneSuffix(base);
    var s := base + ThinkingSuffix;
    assert s[|s| - |ThinkingSuffix|..] == ThinkingSuffix;
  }
}
