/** The Gemini model table and the request configuration built from it
    (api_doc_generator/generator.py:8-82). */
module Models {
  import opened Results
  import opened Text

  /** One entry of `ModelConfig.MODELS`: its key and its value. */
  datatype ModelInfo = ModelInfo(name: string, description: string, capabilities: seq<string>, experimental: bool)

  /** `ModelConfig.MODELS`, in the dictionary's order (generator.py:12-43). */
  const Catalog: seq<ModelInfo> := [
    ModelInfo("gemini-2.0-flash",
      "Next generation features, superior speed, native tool use, and multimodal generation",
      ["text", "images", "audio", "video"], true),
    ModelInfo("gemini-1.5-flash",
      "Fast and versatile performance across diverse tasks",
      ["text", "images", "audio", "video"], false),
    ModelInfo("gemini-1.5-flash-8b",
      "High volume and lower intelligence tasks",
      ["text", "images", "audio", "video"], false),
    ModelInfo("gemini-1.5-pro",
      "Complex reasoning tasks requiring more intelligence",
      ["text", "images", "audio", "video"], false),
    ModelInfo("gemini-2.0-flash-thinking-exp",
      "Reasoning for complex problems with Thinking mode",
      ["text"], true),
    ModelInfo("gemini-exp-1206",
      "Quality improvements, celebrate 1 year of Gemini",
      ["text"], true)
  ]

  /** The model `DocumentationGenerator` uses unless told otherwise, and its
      default temperature (generator.py:85-86). */
  const DefaultModel: string := "gemini-1.5-pro"
  const DefaultTemperature: real := 0.3

  /** One entry of `safety_settings`. */
  datatype SafetySetting = SafetySetting(category: string, threshold: string)

  /** `generation_config`; the source's floats are reals here. */
  datatype GenerationConfig = GenerationConfig(
    temperature: real,
    topK: nat,
    topP: real,
    maxOutputTokens: nat,
    stopSequences: seq<string>,
    candidateCount: nat,
    presencePenalty: real,
    frequencyPenalty: real)

  /** The dictionary `get_model_config` returns. */
  datatype ModelSettings = ModelSettings(
    modelName: string,
    experimental: bool,
    generation: GenerationConfig,
    safety: seq<SafetySetting>)

  /** The keys of a model table, in order. */
  function Names(models: seq<ModelInfo>): (r: seq<string>)
    ensures |r| == |models|
    ensures forall i :: 0 <= i < |models| ==> r[i] == models[i].name
  {
    seq(|models|, i requires 0 <= i < |models| => models[i].name)
  }

  /** `models[name]`: the first entry with that key. */
  function Find(models: seq<ModelInfo>, name: string): (r: Option<ModelInfo>)
    ensures r.Some? ==> r.value in models && r.value.name == name
    ensures r.None? <==> forall i :: 0 <= i < |models| ==> models[i].name != name
  {
    if models == [] then None
    else if models[0].name == name then Some(models[0])
    else Find(models[1..], name)
  }

  /** The generation settings every model gets (generator.py:53-62). */
  function Generation(temperature: real): GenerationConfig {
    GenerationConfig(
      temperature := temperature,
      topK := 20,
      topP := 0.8,
      maxOutputTokens := 2048,
      stopSequences := ["\n---\n"],
      candidateCount := 1,
      presencePenalty := 0.2,
      frequencyPenalty := 0.2)
  }

  /** The four harm categories, each blocked from medium probability up
      (generator.py:63-80). */
  const HarmCategories: seq<string> := [
    "HARM_CATEGORY_HARASSMENT",
    "HARM_CATEGORY_HATE_SPEECH",
    "HARM_CATEGORY_SEXUALLY_EXPLICIT",
    "HARM_CATEGORY_DANGEROUS_CONTENT"
  ]
  const BlockThreshold: string := "BLOCK_MEDIUM_AND_ABOVE"

  function Safety(): (r: seq<SafetySetting>)
    ensures |r| == |HarmCategories|
    ensures forall i :: 0 <= i < |r| ==> r[i] == SafetySetting(HarmCategories[i], BlockThreshold)
  {
    seq(|HarmCategories|, i requires 0 <= i < |HarmCategories| => SafetySetting(HarmCategories[i], BlockThreshold))
  }

  /** `ModelConfig.get_model_config(model_name, temperature)` on a model
      table (generator.py:45-82): the configuration of a listed model, or
      the `ValueError` message naming the unknown model and listing the
      known ones. */
  function ConfigFrom(models: seq<ModelInfo>, name: string, temperature: real): (r: Result<ModelSettings, string>)
    ensures r.Ok? <==> name in Names(models)
    ensures r.Err? ==> r.error == "Unknown model: " + name + ". Available models: " + Join(Names(models), ", ")
    ensures r.Ok? ==> Find(models, name).Some? && r.value.experimental == Find(models, name).value.experimental
    ensures r.Ok? ==> r.value.modelName == name && r.value.generation.temperature == temperature
  {
    match Find(models, name)
    case None =>
      Err("Unknown model: " + name + ". Available models: " + Join(Names(models), ", "))
    case Some(info) =>
      Ok(ModelSettings(name, info.experimental, Generation(temperature), Safety()))
  }

  /** `ModelConfig.get_model_config` on `MODELS`. */
  function GetModelConfig(name: string, temperature: real): (r: Result<ModelSettings, string>)
    ensures r.Ok? <==> name in Names(Catalog)
    ensures r.Err? ==> r.error == "Unknown model: " + name + ". Available models: " + Join(Names(Catalog), ", ")
    ensures r.Ok? ==> r.value.modelName == name && r.value.generation.temperature == temperature
    ensures r.Ok? ==> exists i :: 0 <= i < |Catalog| && Catalog[i].name == name && r.value.experimental == Catalog[i].experimental
    ensures r.Ok? ==> r.value.generation.maxOutputTokens == 2048 && |r.value.safety| == 4
  {
    ConfigFrom(Catalog, name, temperature)
  }

  /** Two models' configurations differ only in name and experimental
      flag: both get the same generation and safety settings, and the
      temperature is passed through unchanged. */
  lemma ConfigsDifferOnlyByModel(models: seq<ModelInfo>, m: string, n: string, temperature: real)
    requires ConfigFrom(models, m, temperature).Ok? && ConfigFrom(models, n, temperature).Ok?
    ensures ConfigFrom(models, m, temperature).value.generation == ConfigFrom(models, n, temperature).value.generation
    ensures ConfigFrom(models, m, temperature).value.safety == ConfigFrom(models, n, temperature).value.safety
  {
  }

  /** The names of the table are distinct, so a lookup finds the one
      entry of its key. */
  lemma CatalogNamesDistinct()
    ensures |Names(Catalog)| == 6
    ensures forall i, j :: 0 <= i < j < |Names(Catalog)| ==> Names(Catalog)[i] != Names(Catalog)[j]
  {
  }

  /** A model is accepted exactly when it is in the table. */
  lemma KnownModelsAreAccepted(name: string, temperature: real)
    ensures GetModelConfig(name, temperature).Ok? <==> exists i :: 0 <= i < |Catalog| && Catalog[i].name == name
  {
    var r := GetModelConfig(name, temperature);
    if r.Ok? {
      var i :| 0 <= i < |Names(Catalog)| && Names(Catalog)[i] == name;
      assert Catalog[i].name == name;
    }
  }

  /** The default model is in the table, and is one of the stable ones. */
  lemma DefaultModelIsStable()
    ensures GetModelConfig(DefaultModel, DefaultTemperature).Ok?
    ensures !GetModelConfig(DefaultModel, DefaultTemperature).value.experimental
  {
    assert Catalog[3].name == DefaultModel && !Catalog[3].experimental;
    CatalogEntryConfig(3, DefaultTemperature);
  }

  /** Exactly the three 2.0 and experimental models carry the
      experimental flag, and the flag reaches the configuration. */
  lemma ExperimentalModels(temperature: real)
    ensures forall i :: 0 <= i < |Catalog| ==>
              (Catalog[i].experimental <==> Catalog[i].name in {"gemini-2.0-flash", "gemini-2.0-flash-thinking-exp", "gemini-exp-1206"})
    ensures forall i :: 0 <= i < |Catalog| ==>
              GetModelConfig(Catalog[i].name, temperature) ==
              Ok(ModelSettings(Catalog[i].name, Catalog[i].experimental, Generation(temperature), Safety()))
  {
    ExperimentalFlags();
    forall i | 0 <= i < |Catalog|
      ensures GetModelConfig(Catalog[i].name, temperature) ==
              Ok(ModelSettings(Catalog[i].name, Catalog[i].experimental, Generation(temperature), Safety()))
    {
      CatalogEntryConfig(i, temperature);
    }
  }

  /** The experimental flags of the table, entry by entry. */
  lemma ExperimentalFlags()
    ensures forall i :: 0 <= i < |Catalog| ==>
              (Catalog[i].experimental <==> Catalog[i].name in {"gemini-2.0-flash", "gemini-2.0-flash-thinking-exp", "gemini-exp-1206"})
  {
  }

  /** The configuration of entry `i` of the table. */
  lemma CatalogEntryConfig(i: nat, temperature: real)
    requires i < |Catalog|
    ensures GetModelConfig(Catalog[i].name, temperature) ==
            Ok(ModelSettings(Catalog[i].name, Catalog[i].experimental, Generation(temperature), Safety()))
  {
    CatalogNamesDistinct();
    FindDistinct(Catalog, i);
  }

  /** In a table with distinct names, looking up entry `i`'s name finds
      entry `i`. */
  lemma {:induction false} FindDistinct(models: seq<ModelInfo>, i: nat)
    requires i < |models|
    requires forall a, b :: 0 <= a < b < |models| ==> models[a].name != models[b].name
    ensures Find(models, models[i].name) == Some(models[i])
  {
    if i > 0 {
      assert models[0].name != models[i].name;
      FindDistinct(models[1..], i - 1);
    }
  }

  /** The safety settings block all four harm categories, each once. */
  lemma SafetyCoversEachCategoryOnce()
    ensures forall i, j :: 0 <= i < j < |Safety()| ==> Safety()[i].category != Safety()[j].category
    ensures forall i :: 0 <= i < |Safety()| ==> Safety()[i].threshold == BlockThreshold
    ensures |Safety()| == 4
  {
  }
}
