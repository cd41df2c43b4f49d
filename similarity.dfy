/**
 * The answer-similarity gate: cosine similarity of two texts under a lazily
 * loaded sentence-embedding model, guarded against empty input and errors and
 * clamped to [0, 1].
 */
module Similarity {
  import opened Wrappers

  /** The sentence-embedding model, identified by its name. */
  datatype Model = Model(name: string)

  /** The one model the similarity gate ever loads. */
  const ModelName: string := "paraphrase-multilingual-MiniLM-L12-v2"

  /** `max(0.0, min(1.0, x))` */
  function Clamp(x: real): (r: real)
    ensures 0.0 <= r <= 1.0
    ensures 0.0 <= x <= 1.0 ==> r == x
    ensures x < 0.0 ==> r == 0.0
    ensures x > 1.0 ==> r == 1.0
  {
    var upper := if x < 1.0 then x else 1.0;
    if upper > 0.0 then upper else 0.0
  }

  /** The model `get_embedding_model` hands out: the cached one, else a fresh load. */
  function ModelFor(cached: Option<Model>, load: string -> Option<Model>): (m: Option<Model>)
    ensures cached.Some? ==> m == cached
    ensures cached.None? ==> m == load(ModelName)
  {
    if cached.Some? then cached else load(ModelName)
  }

  /**
   * What `calculate_similarity(text1, text2)` returns when the cache holds
   * `cached`. `load` is the model constructor (None: it raised); `cosine` is
   * encoding both texts and taking their cosine (None: it raised).
   */
  function SimilarityOf(cached: Option<Model>, text1: string, text2: string,
                        load: string -> Option<Model>,
                        cosine: (Model, string, string) -> Option<real>): (r: real)
    ensures 0.0 <= r <= 1.0
    ensures text1 == [] || text2 == [] ==> r == 0.0
    ensures ModelFor(cached, load).None? ==> r == 0.0
    ensures text1 != [] && text2 != [] && ModelFor(cached, load).Some? ==>
              var v := cosine(ModelFor(cached, load).value, text1, text2);
              r == if v.Some? then Clamp(v.value) else 0.0
  {
    if text1 == [] || text2 == [] then 0.0
    else
      match ModelFor(cached, load)
      case None => 0.0
      case Some(m) =>
        match cosine(m, text1, text2)
        case None => 0.0
        case Some(v) => Clamp(v)
  }

  /** The module-level `_embedding_model` global. `loads` counts successful constructions. */
  class ModelCache {
    var model: Option<Model>
    ghost var loads: nat

    /** The model is constructed at most once, and is cached once constructed. */
    ghost predicate Valid()
      reads this
    {
      loads <= 1 && (model.Some? <==> loads == 1)
    }

    constructor()
      ensures Valid()
      ensures model == None && loads == 0
    {
      model := None;
      loads := 0;
    }

    /** `get_embedding_model()`: reuse the cached model, or construct and cache it. */
    method GetEmbeddingModel(load: string -> Option<Model>) returns (m: Option<Model>)
      requires Valid()
      modifies this
      ensures Valid()
      ensures m == ModelFor(old(model), load)
      ensures old(model).Some? ==> model == old(model) && loads == old(loads)
      ensures old(model).None? ==> model == m
      ensures loads == old(loads) + (if old(model).None? && m.Some? then 1 else 0)
    {
      if model.None? {
        var loaded := load(ModelName);
        if loaded.Some? {
          model := loaded;
          loads := loads + 1;
        }
      }
      m := model;
    }
  }

  /**
   * `calculate_similarity(text1, text2)`: 0.0 for an empty text (without
   * touching the model), 0.0 on any error, otherwise the clamped cosine.
   */
  method CalculateSimilarity(cache: ModelCache, text1: string, text2: string,
                             load: string -> Option<Model>,
                             cosine: (Model, string, string) -> Option<real>) returns (s: real)
    requires cache.Valid()
    modifies cache
    ensures cache.Valid()
    ensures s == SimilarityOf(old(cache.model), text1, text2, load, cosine)
    ensures text1 == [] || text2 == [] ==> cache.model == old(cache.model) && cache.loads == old(cache.loads)
    ensures old(cache.model).Some? ==> cache.model == old(cache.model) && cache.loads == old(cache.loads)
    ensures ModelFor(cache.model, load) == ModelFor(old(cache.model), load)
  {
    if text1 == [] || text2 == [] {
      return 0.0;
    }
    var model := cache.GetEmbeddingModel(load);
    if model.None? {
      return 0.0;
    }
    var v := cosine(model.value, text1, text2);
    if v.None? {
      return 0.0;
    }
    s := Clamp(v.value);
  }
}
