/**
 * The embedding-model configuration: the vector size of a model looked up in
 * a registry that starts with two known models, else in the model's
 * HuggingFace `config.json`, else by loading the model, else 384, then
 * cached; and the process-wide embedding model, created and loaded once.
 */
module Config {
  import opened Wrappers
  import opened Text
  import Similarity

  // ---------------------------------------------------------------------
  // The vector size from HuggingFace

  /** The keys of `config.json` that may hold the vector size, in the order they are tried. */
  const DimsKeys: seq<string> := ["hidden_size", "embedding_size", "d_model", "dim", "n_embd"]

  /** `keys[i]` is in `config`, and no earlier key is. */
  predicate FirstPresent(config: map<string, int>, keys: seq<string>, i: nat) {
    i < |keys| && keys[i] in config && forall j :: 0 <= j < i ==> keys[j] !in config
  }

  /** The value under the first of `keys` that `config` has. */
  function FirstKey(config: map<string, int>, keys: seq<string>): (r: Option<int>)
    ensures r.None? <==> forall i :: 0 <= i < |keys| ==> keys[i] !in config
    ensures r.Some? ==> exists i: nat :: FirstPresent(config, keys, i) && r.value == config[keys[i]]
  {
    if keys == [] then None
    else if keys[0] in config then
      assert FirstPresent(config, keys, 0);
      Some(config[keys[0]])
    else
      var r := FirstKey(config, keys[1..]);
      if r.Some? then
        var i: nat :| FirstPresent(config, keys[1..], i) && r.value == config[keys[1..][i]];
        assert FirstPresent(config, keys, i + 1);
        r
      else r
  }

  /**
   * The answer to `GET https://huggingface.co/{model}/resolve/main/config.json`:
   * its status and the body's keys with their values (Failure: no JSON object).
   */
  datatype HfReply = HfReply(status: int, config: Result<map<string, int>, string>)

  /** What `get_model_dims_from_hf` returns for a reply (Failure: the request raised). */
  function HfDims(reply: Result<HfReply, string>): Option<int> {
    if reply.Success? && reply.value.status == 200 && reply.value.config.Success? then
      FirstKey(reply.value.config.value, DimsKeys)
    else None
  }

  /** `get_model_dims_from_hf(model_name)`: the first of the known keys present. */
  method DimsFromHf(reply: Result<HfReply, string>) returns (dims: Option<int>)
    ensures dims == HfDims(reply)
  {
    if reply.Failure? || reply.value.status != 200 {
      return None;
    }
    if reply.value.config.Failure? {
      return None;
    }
    var config := reply.value.config.value;
    var possibleKeys := DimsKeys;
    for k := 0 to |possibleKeys|
      invariant FirstKey(config, possibleKeys[k..]) == FirstKey(config, possibleKeys)
    {
      var key := possibleKeys[k];
      if key in config {
        return Some(config[key]);
      }
      assert possibleKeys[k..][1..] == possibleKeys[k + 1..];
    }
    return None;
  }

  /**
   * A found size is `hidden_size` when the config has it, and otherwise
   * the value of the first later key it has; no size without any of them.
   */
  lemma HfDimsOrder(status: int, config: map<string, int>)
    ensures "hidden_size" in config ==> HfDims(Success(HfReply(200, Success(config)))) == Some(config["hidden_size"])
    ensures HfDims(Success(HfReply(200, Success(config)))).None? <==>
      forall i :: 0 <= i < |DimsKeys| ==> DimsKeys[i] !in config
    ensures status != 200 ==> HfDims(Success(HfReply(status, Success(config)))) == None
  {
  }

  // ---------------------------------------------------------------------
  // The registry

  /** An entry of `EMBEDDING_MODELS`. */
  datatype ModelInfo = ModelInfo(dims: int, size: string, quality: string, description: string)

  /** `EMBEDDING_MODELS` as the module defines it. */
  const KnownModels: map<string, ModelInfo> := map[
    "paraphrase-multilingual-MiniLM-L12-v2" :=
      ModelInfo(384, "420MB", "good", "Стандартная, быстрая, поддержка русского"),
    "intfloat/multilingual-e5-large-instruct" :=
      ModelInfo(1024, "2.2GB", "excellent", "Очень высокое качество для русского")
  ]

  /** The size used when neither lookup finds one. */
  const DefaultDims: int := 384

  /** The entry made for a model found by neither name nor cache. */
  function AutoInfo(dims: int): ModelInfo {
    ModelInfo(dims, "unknown", "unknown", "Автоматически определено (dims=" + IntToString(dims) + ")")
  }

  /** The HuggingFace size, else the size of the loaded model, else the default. */
  function ResolveDims(fromHf: Option<int>, fromModel: Option<int>): (dims: int)
    ensures fromHf.Some? ==> dims == fromHf.value
    ensures fromHf.None? && fromModel.Some? ==> dims == fromModel.value
    ensures fromHf.None? && fromModel.None? ==> dims == DefaultDims
  {
    if fromHf.Some? then fromHf.value
    else if fromModel.Some? then fromModel.value
    else DefaultDims
  }

  /** A size lookup `get_model_info` tries. */
  datatype Probe = HuggingFace | LoadModel

  /** The entry `get_model_info` returns, the registry after it, and the lookups it tried. */
  datatype Lookup = Lookup(info: ModelInfo, models: map<string, ModelInfo>, probes: seq<Probe>)

  /**
   * `get_model_info(name)` against the registry `models`, where `fromHf` and
   * `fromModel` are what the two lookups would return for the name.
   */
  function InfoLookup(models: map<string, ModelInfo>, name: string,
                      fromHf: Option<int>, fromModel: Option<int>): Lookup {
    if name in models then Lookup(models[name], models, [])
    else
      var info := AutoInfo(ResolveDims(fromHf, fromModel));
      Lookup(info, models[name := info], if fromHf.Some? then [HuggingFace] else [HuggingFace, LoadModel])
  }

  /**
   * A registered model is answered from the registry without any lookup;
   * otherwise HuggingFace is asked first, the model loaded only when that
   * gave nothing, and the new entry, sized `unknown`, is registered.
   */
  lemma InfoLookupOrder(models: map<string, ModelInfo>, name: string, fromHf: Option<int>, fromModel: Option<int>)
    ensures var l := InfoLookup(models, name, fromHf, fromModel);
      && (name in models ==> l.info == models[name] && l.models == models && l.probes == [])
      && (name !in models ==>
            && l.probes[0] == HuggingFace
            && (LoadModel in l.probes <==> fromHf.None?)
            && l.info.size == "unknown" && l.info.quality == "unknown"
            && l.info.dims == ResolveDims(fromHf, fromModel)
            && l.models == models[name := l.info])
  {
  }

  /**
   * A second lookup of the same name is a cache hit: the same entry, the same
   * registry, and no lookup at all, whatever the lookups would now return.
   */
  lemma InfoLookupCached(models: map<string, ModelInfo>, name: string, fromHf: Option<int>, fromModel: Option<int>,
                         fromHf2: Option<int>, fromModel2: Option<int>)
    ensures var first := InfoLookup(models, name, fromHf, fromModel);
      var second := InfoLookup(first.models, name, fromHf2, fromModel2);
      second.info == first.info && second.models == first.models && second.probes == []
  {
  }

  /** A lookup only ever adds the looked-up name: every other entry stays. */
  lemma InfoLookupKeeps(models: map<string, ModelInfo>, name: string, fromHf: Option<int>, fromModel: Option<int>,
                        other: string)
    requires other != name
    ensures var l := InfoLookup(models, name, fromHf, fromModel);
      (other in l.models <==> other in models) && (other in models ==> l.models[other] == models[other])
  {
  }

  /** The two known models keep their published sizes, and are never taken for detected ones. */
  lemma KnownModelSizes()
    ensures KnownModels["paraphrase-multilingual-MiniLM-L12-v2"].dims == 384
    ensures KnownModels["intfloat/multilingual-e5-large-instruct"].dims == 1024
    ensures forall name :: name in KnownModels ==> KnownModels[name].size != "unknown"
  {
  }

  /** `EMBEDDING_MODELS`, which `get_model_info` extends. */
  class ModelRegistry {
    var models: map<string, ModelInfo>

    constructor()
      ensures models == KnownModels
    {
      models := KnownModels;
    }

    /**
     * `get_model_info(name)`. `hf(name)` is the HuggingFace reply and
     * `fromModel(name)` the size of the loaded model (None: loading raised);
     * `probes` lists the lookups made, in order.
     */
    method GetModelInfo(name: string, hf: string -> Result<HfReply, string>, fromModel: string -> Option<int>)
      returns (info: ModelInfo, probes: seq<Probe>)
      modifies this
      ensures var l := InfoLookup(old(models), name, HfDims(hf(name)), fromModel(name));
        info == l.info && models == l.models && probes == l.probes
    {
      if name in models {
        return models[name], [];
      }
      var dims := DimsFromHf(hf(name));
      probes := [HuggingFace];
      if dims.None? {
        dims := fromModel(name);
        probes := probes + [LoadModel];
      }
      var size := if dims.None? then DefaultDims else dims.value;
      info := ModelInfo(size, "unknown", "unknown", "Автоматически определено (dims=" + IntToString(size) + ")");
      models := models[name := info];
    }
  }

  // ---------------------------------------------------------------------
  // The embedding model

  /** An `EmbeddingModel` object. `loads` counts the models it has loaded. */
  class EmbeddingModel {
    var model: Option<Similarity.Model>
    ghost var loads: nat

    constructor()
      ensures model == None && loads == 0
    {
      model := None;
      loads := 0;
    }

    /** `get_model()`: the loaded model, or the error raised when there is none. */
    method GetModel() returns (m: Result<Similarity.Model, string>)
      ensures m.Success? <==> model.Some?
      ensures model.Some? ==> m.value == model.value
    {
      if model.None? {
        return Failure("Модель не инициализирована");
      }
      return Success(model.value);
    }
  }

  /** The class attribute `EmbeddingModel._instance`. */
  class EmbeddingSingleton {
    var instance: Option<EmbeddingModel>

    /** A model is loaded at most once, and is kept once loaded. */
    ghost predicate Valid()
      reads this, if instance.Some? then {instance.value} else {}
    {
      instance.Some? ==> instance.value.loads <= 1 && (instance.value.model.Some? <==> instance.value.loads == 1)
    }

    constructor()
      ensures instance == None && Valid()
    {
      instance := None;
    }

    /**
     * `EmbeddingModel()` (and `get_embedding_model()`): the one instance,
     * created on the first call; its model is loaded while it has none.
     * `load(name)` is the SentenceTransformer constructor (None: it raised,
     * so the call raises and returns no instance).
     */
    method Get(modelName: string, load: string -> Option<Similarity.Model>) returns (r: Option<EmbeddingModel>)
      requires Valid()
      modifies this, if instance.Some? then {instance.value} else {}
      ensures Valid() && instance.Some?
      ensures old(instance).Some? ==> instance == old(instance)
      ensures old(instance).None? ==> fresh(instance.value)
      ensures r.Some? <==> instance.value.model.Some?
      ensures r.Some? ==> r.value == instance.value
      ensures old(instance).Some? && old(instance.value.model).Some? ==>
        instance.value.model == old(instance.value.model) && instance.value.loads == old(instance.value.loads)
      ensures old(instance).Some? && old(instance.value.model).None? ==> instance.value.model == load(modelName)
      ensures old(instance).None? ==> instance.value.model == load(modelName)
    {
      if instance.None? {
        var created := new EmbeddingModel();
        instance := Some(created);
      }
      var inst := instance.value;
      if inst.model.None? {
        var loaded := load(modelName);
        if loaded.Some? {
          inst.model := loaded;
          inst.loads := inst.loads + 1;
        }
      }
      if inst.model.None? {
        return None;
      }
      return Some(inst);
    }
  }
}
