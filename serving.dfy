/**
 * The serving side of app.py around the classifiers: the registry of optional models probed at
 * start-up, the per-model prediction record, and the A/B endpoint's dispatch on the requested
 * secondary model. Loading an artifact and running the vectorizer or classifier are foreign
 * calls; their outcomes (file existence, the vectorised text, the raw label, the classifier's
 * outputs and numpy's argsort) are inputs.
 */
module Serving {
  import opened Wrappers
  import opened Text
  import opened Labels
  import opened WordSentiment
  import opened Attribution

  // ---------------------------------------------------------------- model registry

  /** One entry of `model_configs`: the artifact pair on disk and its display metadata. */
  datatype ModelConfig = ModelConfig(key: string, vecPath: string, modelPath: string, name: string, version: string)

  /** The optional secondary models, in the order the source declares them. */
  const ModelConfigs: seq<ModelConfig> := [
    ModelConfig("linear", "models_linear/vectorizer_20260210_173236_e42de6e6.joblib",
                "models_linear/sentiment_model_20260210_173236_e42de6e6.joblib",
                "Linear SVM", "TF-IDF + Linear SVM (Max-Margin)"),
    ModelConfig("rf", "models_tree/vectorizer_20260210_173545_2c0769a7.joblib",
                "models_tree/sentiment_model_20260210_173545_2c0769a7.joblib",
                "Random Forest", "TF-IDF + Random Forest"),
    ModelConfig("nb", "models_nb/vectorizer_20260210_173444_1c96eeb5.joblib",
                "models_nb/sentiment_model_20260210_173444_1c96eeb5.joblib",
                "Naive Bayes", "TF-IDF + Multinomial Naive Bayes"),
    ModelConfig("lgbm", "models_lgbm/vectorizer_20260210_173417_6ae59428.joblib",
                "models_lgbm/sentiment_model_20260210_173417_6ae59428.joblib",
                "LightGBM", "TF-IDF + LightGBM"),
    ModelConfig("et", "models_et/vectorizer_20260210_173329_02c8dcc4.joblib",
                "models_et/sentiment_model_20260210_173329_02c8dcc4.joblib",
                "Extra Trees", "TF-IDF + Extra Trees Classifier")
  ]

  predicate DistinctKeys(cs: seq<ModelConfig>)
  {
    forall p, q :: 0 <= p < q < |cs| ==> cs[p].key != cs[q].key
  }

  /** The keys of a registry, in insertion order (`list(loaded_models.keys())`). */
  function Keys(cs: seq<ModelConfig>): (ks: seq<string>)
    ensures |ks| == |cs| && forall p :: 0 <= p < |cs| ==> ks[p] == cs[p].key
  {
    seq(|cs|, p requires 0 <= p < |cs| => cs[p].key)
  }

  /** The declared configurations are a dictionary: no key twice. */
  lemma ModelConfigsDistinct()
    ensures DistinctKeys(ModelConfigs)
    ensures Keys(ModelConfigs) == ["linear", "rf", "nb", "lgbm", "et"]
  {
  }

  /** load_model_pair: the pair loads exactly when both of its files exist. */
  function LoadModelPair(cfg: ModelConfig, fileExists: string -> bool): (loaded: Option<ModelConfig>)
    ensures loaded.Some? <==> fileExists(cfg.vecPath) && fileExists(cfg.modelPath)
    ensures loaded.Some? ==> loaded.value == cfg
  {
    if fileExists(cfg.vecPath) && fileExists(cfg.modelPath) then Some(cfg) else None
  }

  /** The registry the start-up loop builds from the first `|configs|` configurations. */
  function Registered(configs: seq<ModelConfig>, fileExists: string -> bool): (r: seq<ModelConfig>)
    ensures |r| <= |configs|
    ensures forall c :: c in r <==> c in configs && LoadModelPair(c, fileExists).Some?
  {
    if configs == [] then []
    else
      var last := configs[|configs| - 1];
      Registered(configs[..|configs| - 1], fileExists) + (if LoadModelPair(last, fileExists).Some? then [last] else [])
  }

  /** The registry keeps the declaration order and so never holds a key twice. */
  lemma {:induction false} RegisteredDistinct(configs: seq<ModelConfig>, fileExists: string -> bool)
    requires DistinctKeys(configs)
    ensures DistinctKeys(Registered(configs, fileExists))
  {
    if configs != [] {
      var init := configs[..|configs| - 1];
      RegisteredDistinct(init, fileExists);
      var r := Registered(init, fileExists);
      forall p | 0 <= p < |r|
        ensures r[p].key != configs[|configs| - 1].key
      {
        assert r[p] in r;
        var q :| 0 <= q < |init| && init[q] == r[p];
      }
    }
  }

  /** A key is registered exactly when some configuration with that key has both files on disk. */
  lemma RegisteredKeys(configs: seq<ModelConfig>, fileExists: string -> bool, key: string)
    ensures key in Keys(Registered(configs, fileExists)) <==>
      exists c :: c in configs && c.key == key && fileExists(c.vecPath) && fileExists(c.modelPath)
  {
    var r := Registered(configs, fileExists);
    if key in Keys(r) {
      var p :| 0 <= p < |r| && Keys(r)[p] == key;
      assert r[p] in r;
    }
    if exists c :: c in configs && c.key == key && fileExists(c.vecPath) && fileExists(c.modelPath) {
      var c :| c in configs && c.key == key && fileExists(c.vecPath) && fileExists(c.modelPath);
      assert c in r;
      var p :| 0 <= p < |r| && r[p] == c;
      assert Keys(r)[p] == key;
    }
  }

  /** The start-up loop over `model_configs` that fills `loaded_models`. */
  method LoadRegistry(configs: seq<ModelConfig>, fileExists: string -> bool) returns (loaded: seq<ModelConfig>)
    requires DistinctKeys(configs)
    ensures loaded == Registered(configs, fileExists)
    ensures DistinctKeys(loaded)
  {
    loaded := [];
    for i := 0 to |configs|
      invariant loaded == Registered(configs[..i], fileExists)
    {
      assert configs[..i + 1][..i] == configs[..i];
      var pair := LoadModelPair(configs[i], fileExists);
      if pair.Some? {
        loaded := loaded + [pair.value];
      }
    }
    assert configs[..|configs|] == configs;
    RegisteredDistinct(configs, fileExists);
  }

  /** `loaded_models[key]`. */
  function Entry(loaded: seq<ModelConfig>, key: string): (c: ModelConfig)
    requires key in Keys(loaded)
    ensures c in loaded && c.key == key
  {
    if loaded[0].key == key then loaded[0] else Entry(loaded[1..], key)
  }

  // ---------------------------------------------------------------- prediction records

  /** The prediction record returned for one model (confidence and latency are not modelled). */
  datatype Prediction = Prediction(predictedLabel: string, modelName: string, version: string,
                                   importantWords: seq<string>, wordSentiments: seq<string>)

  /**
   * What the foreign calls produce for one text and one model: the raw predicted label, the
   * vectorised text, the classifier's exposed weights and outputs, the vocabulary, and numpy's
   * argsort of the ranking key.
   */
  datatype Inference = Inference(raw: Label, x: seq<real>, clf: Classifier, names: seq<string>, order: seq<nat>)

  predicate InferenceOk(inf: Inference)
  {
    && |inf.x| == |inf.names| && WellFormed(inf.clf, |inf.x|)
    && (inf.clf.NoWeights? || IsDescendingArgsort(inf.order, RankKey(inf.x, inf.clf)))
  }

  /** get_important_words' default `top_k`. */
  const TopK: nat := 5

  /** The words the attribution engine reports for an inference. */
  function ExplainedWords(inf: Inference): (words: seq<string>)
    requires InferenceOk(inf)
    ensures |words| <= TopK
  {
    if inf.clf.NoWeights? then []
    else
      assert |Selected(inf.x, inf.clf, TopK, inf.order)| <= TopK by {
        if inf.clf.Importances? { ImportanceSelection(inf.x, inf.clf, TopK, inf.order); }
        else { CoefficientSelection(inf.x, inf.clf, TopK, inf.order); }
      }
      WordsAt(inf.names, Selected(inf.x, inf.clf, TopK, inf.order))
  }

  /** The record a model produces for an inference, under the given display name and version. */
  function PredictionOf(inf: Inference, name: string, version: string, table: map<string, string>): Prediction
    requires InferenceOk(inf)
  {
    var words := ExplainedWords(inf);
    Prediction(NormalizeLabel(inf.raw), name, version, words, SentimentsOf(table, words))
  }

  /** One model's prediction: normalised label, and the explanation with parallel sentiments. */
  method Predict(inf: Inference, name: string, version: string, table: map<string, string>)
    returns (p: Prediction)
    requires InferenceOk(inf)
    ensures p == PredictionOf(inf, name, version, table)
    ensures IsCanonical(p.predictedLabel) || p.predictedLabel == Upper(LabelText(inf.raw))
    ensures |p.importantWords| <= TopK && |p.wordSentiments| == |p.importantWords|
  {
    var a := GetImportantWords(inf.x, inf.clf, inf.names, table, TopK, inf.order);
    p := Prediction(NormalizeLabel(inf.raw), name, version, a.words, a.sentiments);
  }

  // ---------------------------------------------------------------- A/B dispatch

  /** `repr(s)` of a string free of quotes and backslashes. */
  function Quote(s: string): string
  {
    "'" + s + "'"
  }

  /** The items of `repr(ks)` for a list of strings, without the brackets. */
  function Items(ks: seq<string>): (r: string)
    ensures r == [] <==> ks == []
    ensures ks != [] ==> StartsWith(r, Quote(ks[0]))
  {
    if ks == [] then ""
    else if |ks| == 1 then Quote(ks[0])
    else Quote(ks[0]) + ", " + Items(ks[1..])
  }

  /** Each key of the list appears, quoted, among the items. */
  lemma {:induction false} ItemsListEveryKey(ks: seq<string>, j: nat)
    requires j < |ks|
    ensures Contains(Items(ks), Quote(ks[j]))
  {
    if j == 0 {
      if |ks| == 1 {
        assert OccursAt(Items(ks), Quote(ks[0]), 0);
      } else {
        OccursInConcat(Quote(ks[0]), ", " + Items(ks[1..]), Quote(ks[0]), 0);
        assert Quote(ks[0]) + (", " + Items(ks[1..])) == Items(ks);
      }
    } else {
      ItemsListEveryKey(ks[1..], j - 1);
      ContainsAt(Items(ks[1..]), Quote(ks[j]));
      var i: nat :| OccursAt(Items(ks[1..]), Quote(ks[j]), i);
      OccursInConcat(Quote(ks[0]) + ", ", Items(ks[1..]), Quote(ks[j]), i);
      assert (Quote(ks[0]) + ", ") + Items(ks[1..]) == Items(ks);
    }
    ContainsAt(Items(ks), Quote(ks[j]));
  }

  /** The 400 error of predict_ab for an unregistered secondary model. */
  datatype Unavailable = Unavailable(requested: string, available: seq<string>)
  {
    function Status(): int
    {
      400
    }

    /** The message: the requested id and `repr` of the list of registered ids. */
    function Detail(): string
    {
      "Model B type '" + requested + "' not available. Available: [" + Items(available) + "]"
    }
  }

  /** The error message names every registered model. */
  lemma DetailListsAvailable(e: Unavailable, j: nat)
    requires j < |e.available|
    ensures Contains(e.Detail(), Quote(e.available[j]))
  {
    var head := "Model B type '" + e.requested + "' not available. Available: [";
    var items := Items(e.available);
    var q := Quote(e.available[j]);
    assert exists i: nat :: OccursAt(items, q, i) by {
      ItemsListEveryKey(e.available, j);
      ContainsAt(items, q);
    }
    var i: nat :| OccursAt(items, q, i);
    assert OccursAt(e.Detail(), q, |head| + i) by {
      OccursInConcat(head, items, q, i);
      OccursInConcat(head + items, "]", q, |head| + i);
      assert head + items + "]" == e.Detail();
    }
    ContainsAt(e.Detail(), q);
  }

  /** The body of a successful predict_ab call. */
  datatype ABResult = ABResult(modelA: Prediction, modelB: Prediction)

  const PrimaryName: string := "sentiment_lr"
  const PrimaryABVersion: string := "TF-IDF + Logistic Regression"

  /**
   * predict_ab: the primary model is always run; the requested secondary model runs when it is
   * registered, and otherwise the call fails with status 400 naming the registered keys.
   * `infB` stands for what `loaded_models[model_b_type]` computes on the text.
   */
  method PredictAB(modelBType: string, loaded: seq<ModelConfig>, table: map<string, string>,
                   infA: Inference, infB: Inference)
    returns (r: Result<ABResult, Unavailable>)
    requires DistinctKeys(loaded)
    requires InferenceOk(infA) && InferenceOk(infB)
    ensures r.Failure? <==> modelBType !in Keys(loaded)
    ensures r.Failure? ==> r.error == Unavailable(modelBType, Keys(loaded)) && r.error.Status() == 400
    ensures r.Success? ==>
      && r.value.modelA == PredictionOf(infA, PrimaryName, PrimaryABVersion, table)
      && r.value.modelB == PredictionOf(infB, Entry(loaded, modelBType).name, Entry(loaded, modelBType).version, table)
  {
    var a := Predict(infA, PrimaryName, PrimaryABVersion, table);
    if modelBType in Keys(loaded) {
      var mdl := Entry(loaded, modelBType);
      var b := Predict(infB, mdl.name, mdl.version, table);
      r := Success(ABResult(a, b));
    } else {
      r := Failure(Unavailable(modelBType, Keys(loaded)));
    }
  }

  /** The secondary model a request asks for when its body has no `model_b_type`. */
  const DefaultModelB: string := "linear"

  /** The default secondary model is available exactly when the linear SVM's two files exist. */
  lemma DefaultModelBRegistered(fileExists: string -> bool)
    ensures DefaultModelB in Keys(Registered(ModelConfigs, fileExists)) <==>
      fileExists(ModelConfigs[0].vecPath) && fileExists(ModelConfigs[0].modelPath)
  {
    RegisteredKeys(ModelConfigs, fileExists, DefaultModelB);
    ModelConfigsDistinct();
    if exists c :: c in ModelConfigs && c.key == DefaultModelB && fileExists(c.vecPath) && fileExists(c.modelPath) {
      var c :| c in ModelConfigs && c.key == DefaultModelB && fileExists(c.vecPath) && fileExists(c.modelPath);
      var p :| 0 <= p < |ModelConfigs| && ModelConfigs[p] == c;
      assert Keys(ModelConfigs)[p] == DefaultModelB;
    }
    assert ModelConfigs[0] in ModelConfigs;
  }

  /**
   * The predict_ab request as received: `model_b_type` may be absent from the body, in which
   * case the default "linear" is requested.
   */
  method PredictABRequest(modelBType: Option<string>, loaded: seq<ModelConfig>, table: map<string, string>,
                          infA: Inference, infB: Inference)
    returns (r: Result<ABResult, Unavailable>)
    requires DistinctKeys(loaded)
    requires InferenceOk(infA) && InferenceOk(infB)
    ensures var requested := if modelBType.Some? then modelBType.value else DefaultModelB;
      && (r.Failure? <==> requested !in Keys(loaded))
      && (r.Failure? ==> r.error == Unavailable(requested, Keys(loaded)) && r.error.Status() == 400)
      && (r.Success? ==>
            && r.value.modelA == PredictionOf(infA, PrimaryName, PrimaryABVersion, table)
            && r.value.modelB == PredictionOf(infB, Entry(loaded, requested).name, Entry(loaded, requested).version, table))
    ensures modelBType.None? && r.Success? ==> Entry(loaded, "linear").name == r.value.modelB.modelName
  {
    var requested := if modelBType.Some? then modelBType.value else DefaultModelB;
    r := PredictAB(requested, loaded, table, infA, infB);
  }
}
