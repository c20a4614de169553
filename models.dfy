/**
 * The chat-model catalogue offered to the user, the default model, and the
 * catalogue grouped by provider for the model picker.
 */
module Models {
  import opened Common

  datatype ChatModel = ChatModel(id: string, name: string, provider: string, description: string)

  const DefaultChatModel: string := "gemini-3-flash"

  const ChatModels: seq<ChatModel> := [
    ChatModel("gemini-3-flash", "Gemini 3 Flash", "google", "Fast and capable"),
    ChatModel("gemini-3.1-pro-high", "Gemini 3.1 Pro", "google", "Latest Gemini flagship"),
    ChatModel("gpt-5.3-codex", "GPT-5.3 Codex", "openai", "Latest codex model"),
    ChatModel("gpt-5.3-codex-spark", "GPT-5.3 Codex Spark", "openai", "Fast lightweight codex"),
    ChatModel("gpt-5.2", "GPT-5.2", "openai", "OpenAI flagship")
  ]

  /** The models of one provider, in catalogue order. */
  function OfProvider(models: seq<ChatModel>, provider: string): seq<ChatModel>
  {
    Filter(models, (m: ChatModel) => m.provider == provider)
  }

  /** groups and keys are the record built from the models of prefix. */
  ghost predicate GroupedAs(groups: map<string, seq<ChatModel>>, keys: seq<string>, prefix: seq<ChatModel>)
  {
    && Distinct(keys)
    && (forall p :: p in keys <==> p in groups)
    && groups.Keys == ProvidersOf(prefix)
    && (forall p :: p in groups ==> groups[p] == OfProvider(prefix, p))
  }

  /**
   * The `reduce` callback: creates the provider's key on its first model, then
   * pushes the model onto the provider's list. `keys` is the object's key order,
   * which is insertion order for provider names that are not integer-like; a
   * name shared with an `Object.prototype` member is outside this model.
   */
  method Push(groups: map<string, seq<ChatModel>>, keys: seq<string>, model: ChatModel, ghost prefix: seq<ChatModel>)
    returns (groups': map<string, seq<ChatModel>>, keys': seq<string>)
    requires GroupedAs(groups, keys, prefix)
    ensures GroupedAs(groups', keys', prefix + [model])
    ensures keys' == if model.provider in groups then keys else keys + [model.provider]
  {
    var p := model.provider;
    var prior := if p in groups then groups[p] else [];
    keys' := if p in groups then keys else keys + [p];
    groups' := groups[p := prior + [model]];
    ProvidersOfSnoc(prefix, model);
    if p !in groups {
      OfProviderNone(prefix, p);
    }
    forall q | q in groups' ensures groups'[q] == OfProvider(prefix + [model], q) {
      OfProviderSnoc(prefix, model, q);
    }
  }

  /**
   * The `reduce` that builds `Record<provider, ChatModel[]>`. `keys` is the
   * record's key order (insertion order, as for any non-numeric object key).
   */
  method ModelsByProvider(models: seq<ChatModel>) returns (groups: map<string, seq<ChatModel>>, keys: seq<string>)
    ensures forall p :: p in groups <==> exists m :: m in models && m.provider == p
    ensures forall p :: p in groups ==> groups[p] == OfProvider(models, p)
    ensures Distinct(keys) && forall p :: p in keys <==> p in groups
  {
    groups := map[];
    keys := [];
    for i := 0 to |models|
      invariant GroupedAs(groups, keys, models[..i])
    {
      assert models[..i + 1] == models[..i] + [models[i]];
      groups, keys := Push(groups, keys, models[i], models[..i]);
    }
    assert models[..|models|] == models;
  }

  /** The providers that occur in models. */
  function ProvidersOf(models: seq<ChatModel>): set<string>
  {
    set m | m in models :: m.provider
  }

  lemma ProvidersOfSnoc(models: seq<ChatModel>, model: ChatModel)
    ensures ProvidersOf(models + [model]) == ProvidersOf(models) + {model.provider}
  {
  }

  lemma OfProviderNone(models: seq<ChatModel>, p: string)
    requires p !in ProvidersOf(models)
    ensures OfProvider(models, p) == []
  {
    FilterNone(models, (m: ChatModel) => m.provider == p);
  }

  lemma OfProviderSnoc(models: seq<ChatModel>, model: ChatModel, p: string)
    ensures OfProvider(models + [model], p) == OfProvider(models, p) + (if model.provider == p then [model] else [])
  {
    FilterAppend(models, [model], (m: ChatModel) => m.provider == p);
  }

  /** Every model sits in exactly one group: the one keyed by its provider. */
  lemma ExactlyOneGroup(models: seq<ChatModel>, m: ChatModel, p: string)
    requires m in models
    ensures m in OfProvider(models, p) <==> p == m.provider
  {
  }

  /** Sum over the providers ps of the sizes of their groups. */
  function SumSizes(ps: seq<string>, models: seq<ChatModel>): nat
  {
    if ps == [] then 0 else |OfProvider(models, ps[0])| + SumSizes(ps[1..], models)
  }

  /** How often v occurs in ps. */
  function Count(ps: seq<string>, v: string): nat
  {
    if ps == [] then 0 else (if ps[0] == v then 1 else 0) + Count(ps[1..], v)
  }

  lemma {:induction false} CountDistinct(ps: seq<string>, v: string)
    requires Distinct(ps)
    ensures Count(ps, v) == if v in ps then 1 else 0
  {
    if ps != [] {
      CountDistinct(ps[1..], v);
      if ps[0] == v {
        assert v !in ps[1..] by {
          forall j | 0 <= j < |ps| - 1 ensures ps[1..][j] != v {
            assert ps[1..][j] == ps[j + 1];
          }
        }
      }
    }
  }

  /** Adding one model in front grows exactly the groups of its provider, once per occurrence in ps. */
  lemma {:induction false} SumSizesCons(ps: seq<string>, m: ChatModel, rest: seq<ChatModel>)
    ensures SumSizes(ps, [m] + rest) == Count(ps, m.provider) + SumSizes(ps, rest)
  {
    if ps != [] {
      SumSizesCons(ps[1..], m, rest);
      assert ([m] + rest)[1..] == rest;
    }
  }

  /** Groups over distinct providers that cover every model partition the models: their sizes add up to the whole. */
  lemma {:induction false} GroupSizesSum(ps: seq<string>, models: seq<ChatModel>)
    requires Distinct(ps)
    requires forall m :: m in models ==> m.provider in ps
    ensures SumSizes(ps, models) == |models|
  {
    if models == [] {
      SumSizesEmpty(ps);
    } else {
      var rest := models[1..];
      assert models == [models[0]] + rest;
      GroupSizesSum(ps, rest);
      SumSizesCons(ps, models[0], rest);
      CountDistinct(ps, models[0].provider);
    }
  }

  lemma {:induction false} SumSizesEmpty(ps: seq<string>)
    ensures SumSizes(ps, []) == 0
  {
    if ps != [] {
      SumSizesEmpty(ps[1..]);
    }
  }

  /**
   * The catalogue has two providers, google with two models and openai with
   * three, and five models in all.
   */
  lemma CatalogueGroups()
    ensures forall m :: m in ChatModels ==> m.provider in ["google", "openai"]
    ensures ChatModels[0].provider == "google" && ChatModels[2].provider == "openai"
    ensures ProvidersOf(ChatModels) == {"google", "openai"}
    ensures |OfProvider(ChatModels, "google")| == 2
    ensures |OfProvider(ChatModels, "openai")| == 3
  {
  }

  /** The two groups of the catalogue hold all five models between them. */
  lemma CatalogueSizesSum()
    ensures SumSizes(["google", "openai"], ChatModels) == |ChatModels| == 5
  {
    assert forall m :: m in ChatModels ==> m.provider in ["google", "openai"] by {
      CatalogueGroups();
    }
    var ps := ["google", "openai"];
    assert ps[0][0] != ps[1][0];
    GroupSizesSum(["google", "openai"], ChatModels);
  }

  /** The default model is in the catalogue, as its first entry. */
  lemma DefaultIsFirst()
    ensures ChatModels[0].id == DefaultChatModel
    ensures exists m :: m in ChatModels && m.id == DefaultChatModel
  {
    assert ChatModels[0] in ChatModels;
  }
}
