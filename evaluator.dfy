/**
 * The `RAGEvaluator` class: question loading and random selection, the
 * per-question test loop with failure isolation, and the final statistics.
 * Retrieval, generation, similarity scoring, question loading/extraction and
 * the random sampler are parameters.
 */
module Evaluator {
  import opened Wrappers
  import opened Docs
  import opened Records
  import opened Trials
  import Retriever
  import PySeq
  import Questions
  import Metrics

  // ---------------------------------------------------------------------
  // Question selection

  /** `idx` is a choice of `k` distinct positions below `n`. */
  predicate DistinctBelow(idx: seq<nat>, k: nat, n: nat) {
    |idx| == k
    && (forall j :: 0 <= j < k ==> idx[j] < n)
    && (forall j, j' :: 0 <= j < j' < k ==> idx[j] != idx[j'])
  }

  /** `random.sample(range(n), k)`: any choice of `k` distinct positions, for every `k <= n`. */
  ghost predicate Sampler(sample: (nat, nat) -> seq<nat>) {
    forall n: nat, k: nat :: k <= n ==> DistinctBelow(sample(n, k), k, n)
  }

  /** The entries of `qs` at the positions `idx`, in that order. */
  function Pick(qs: seq<QA>, idx: seq<nat>): (r: seq<QA>)
    requires forall j :: 0 <= j < |idx| ==> idx[j] < |qs|
    ensures |r| == |idx|
    ensures forall j :: 0 <= j < |idx| ==> r[j] == qs[idx[j]]
  {
    seq(|idx|, j requires 0 <= j < |idx| => qs[idx[j]])
  }

  /** Removing position `k` removes one occurrence of its entry. */
  lemma RemoveAtMultiset(qs: seq<QA>, k: nat)
    requires k < |qs|
    ensures multiset(qs) == multiset(qs[..k] + qs[k + 1..]) + multiset{qs[k]}
  {
    assert qs == qs[..k] + [qs[k]] + qs[k + 1..];
  }

  /**
   * The positions `idx[..n]`, none of which is `k`, renumbered for the list
   * with position `k` removed: they pick the same entries.
   */
  lemma Renumbered(qs: seq<QA>, idx: seq<nat>, n: nat, k: nat) returns (shifted: seq<nat>)
    requires n <= |idx| && DistinctBelow(idx, |idx|, |qs|) && k < |qs|
    requires forall j :: 0 <= j < n ==> idx[j] != k
    ensures DistinctBelow(shifted, n, |qs| - 1)
    ensures Pick(qs[..k] + qs[k + 1..], shifted) == Pick(qs, idx[..n])
  {
    var rest := qs[..k] + qs[k + 1..];
    shifted := seq(n, j requires 0 <= j < n => if idx[j] < k then idx[j] else idx[j] - 1);
    forall j, j' | 0 <= j < j' < n
      ensures shifted[j] != shifted[j']
    {
      assert idx[j] != idx[j'];
    }
    assert forall j :: 0 <= j < n ==> rest[shifted[j]] == qs[idx[j]];
  }

  /** Entries taken from distinct positions form a sub-multiset: nothing is taken twice. */
  lemma {:induction false} PickSubMultiset(qs: seq<QA>, idx: seq<nat>)
    requires DistinctBelow(idx, |idx|, |qs|)
    ensures multiset(Pick(qs, idx)) <= multiset(qs)
    decreases |idx|
  {
    if idx != [] {
      var n := |idx| - 1;
      var k := idx[n];
      RemoveAtMultiset(qs, k);
      var shifted := Renumbered(qs, idx, n, k);
      PickSubMultiset(qs[..k] + qs[k + 1..], shifted);
      assert Pick(qs, idx) == Pick(qs, idx[..n]) + [qs[k]];
    }
  }

  /**
   * The selection step of `_load_questions`: a list longer than
   * `max_questions` is replaced by a random sample of exactly that many.
   */
  function Select(qs: seq<QA>, maxQuestions: nat, sample: (nat, nat) -> seq<nat>): (r: seq<QA>)
    requires Sampler(sample)
    ensures |qs| <= maxQuestions ==> r == qs
    ensures |qs| > maxQuestions ==> |r| == maxQuestions && r == Pick(qs, sample(|qs|, maxQuestions))
  {
    if |qs| > maxQuestions then Pick(qs, sample(|qs|, maxQuestions)) else qs
  }

  /** A selection holds each question at most as often as the list it was taken from. */
  lemma SelectSubMultiset(qs: seq<QA>, maxQuestions: nat, sample: (nat, nat) -> seq<nat>)
    requires Sampler(sample)
    ensures multiset(Select(qs, maxQuestions, sample)) <= multiset(qs)
  {
    if |qs| > maxQuestions {
      PickSubMultiset(qs, sample(|qs|, maxQuestions));
    }
  }

  /**
   * Where questions come from: `load_questions(path)`, `extract_questions(documents)`
   * and the seeded random sampler.
   */
  datatype QuestionSources = QuestionSources(
    load: string -> seq<QA>,
    extract: seq<Document> -> seq<QA>,
    sample: (nat, nat) -> seq<nat>)

  /** The sampler chooses distinct positions and every source yields records with a question. */
  ghost predicate ValidSources(src: QuestionSources) {
    Sampler(src.sample)
    && (forall p :: HasQuestions(src.load(p)))
    && (forall ds :: HasQuestions(src.extract(ds)))
  }

  /** A question file is used when a non-empty path is given. */
  predicate PathGiven(questionsPath: Option<string>) {
    questionsPath.Some? && questionsPath.value != []
  }

  /** What `_load_questions` returns. */
  function LoadedSelection(documents: seq<Document>, questionsPath: Option<string>, maxQuestions: nat,
                           extractQa: bool, src: QuestionSources): (r: Option<seq<QA>>)
    requires Sampler(src.sample)
    ensures r.Some? ==> |r.value| <= maxQuestions
  {
    if PathGiven(questionsPath) then Some(Select(src.load(questionsPath.value), maxQuestions, src.sample))
    else if extractQa then
      var qs := Select(src.extract(documents), maxQuestions, src.sample);
      if qs != [] then Some(qs) else None
    else None
  }

  /** A given file takes priority: extraction is neither consulted nor able to change the result. */
  lemma PathTakesPriority(documents: seq<Document>, questionsPath: Option<string>, maxQuestions: nat,
                          extractQa: bool, extractQa': bool, src: QuestionSources,
                          extract': seq<Document> -> seq<QA>)
    requires Sampler(src.sample) && PathGiven(questionsPath)
    ensures LoadedSelection(documents, questionsPath, maxQuestions, extractQa, src)
         == LoadedSelection(documents, questionsPath, maxQuestions, extractQa', src.(extract := extract'))
         == Some(Select(src.load(questionsPath.value), maxQuestions, src.sample))
  {
  }

  /**
   * No questions for the run exactly when no file is given and either
   * extraction is off, it finds nothing, or the cap is 0.
   */
  lemma NoQuestionsIff(documents: seq<Document>, questionsPath: Option<string>, maxQuestions: nat,
                       extractQa: bool, src: QuestionSources)
    requires Sampler(src.sample)
    ensures LoadedSelection(documents, questionsPath, maxQuestions, extractQa, src).None?
        <==> !PathGiven(questionsPath) && (!extractQa || src.extract(documents) == [] || maxQuestions == 0)
  {
    if !PathGiven(questionsPath) && extractQa {
      var qs := src.extract(documents);
      if qs != [] && maxQuestions > 0 {
        assert |Select(qs, maxQuestions, src.sample)| > 0;
      }
    }
  }

  /** A selection keeps the records' `question` keys. */
  lemma SelectHasQuestions(qs: seq<QA>, maxQuestions: nat, sample: (nat, nat) -> seq<nat>)
    requires Sampler(sample) && HasQuestions(qs)
    ensures HasQuestions(Select(qs, maxQuestions, sample))
  {
    var r := Select(qs, maxQuestions, sample);
    if |qs| > maxQuestions {
      var idx := sample(|qs|, maxQuestions);
      assert DistinctBelow(idx, maxQuestions, |qs|);
      forall i | 0 <= i < |r|
        ensures "question" in r[i]
      {
        assert r[i] == qs[idx[i]];
      }
    }
  }

  // ---------------------------------------------------------------------
  // The test loop

  /** The record `_run_tests` appends for one question, with measured response time `elapsed`. */
  function Trial(q: QA, sv: Services, threshold: real, elapsed: real): EvalRecord
    requires "question" in q
  {
    RecordFor(q["question"], ExpectedAnswer(q), Attempt(q["question"], ExpectedAnswer(q), sv), threshold, Some(elapsed))
  }

  /** The records of a whole run, one per question in question order; `elapsed(i)` times question `i`. */
  function TrialRecords(questions: seq<QA>, sv: Services, threshold: real, elapsed: nat -> real): (rs: seq<EvalRecord>)
    requires HasQuestions(questions)
    ensures |rs| == |questions|
    ensures forall i :: 0 <= i < |questions| ==> rs[i] == Trial(questions[i], sv, threshold, elapsed(i))
    ensures Complete(rs)
  {
    seq(|questions|, i requires 0 <= i < |questions| => Trial(questions[i], sv, threshold, elapsed(i)))
  }

  /** A run's average similarity lies in [0, 1] when the similarity service's values do. */
  lemma RunSimilarityBounds(questions: seq<QA>, sv: Services, threshold: real, elapsed: nat -> real)
    requires HasQuestions(questions)
    requires forall a, e :: sv.similarity(a, e).Success? ==> 0.0 <= sv.similarity(a, e).value <= 1.0
    ensures 0.0 <= StatsOf(TrialRecords(questions, sv, threshold, elapsed)).avgSimilarity <= 1.0
  {
    var rs := TrialRecords(questions, sv, threshold, elapsed);
    forall i | 0 <= i < |rs|
      ensures 0.0 <= SimilarityOf(rs[i]) <= 1.0
    {
      var q := questions[i];
      var o := Attempt(q["question"], ExpectedAnswer(q), sv);
      if o.Answered? {
        assert sv.similarity(o.answer, ExpectedAnswer(q)) == Success(o.similarity);
      }
    }
    StatsSimilarityBounds(rs);
  }

  /**
   * What building the components finds: whether `EmbeddingModel()` loads its
   * model, what `check_connection()` of the Ollama client answers, and the
   * Elasticsearch client (as its probe answers) and index given to
   * `run_evaluation`, which with the documents decide whether
   * `DocumentRetriever(...)` raises.
   */
  datatype Components = Components(embeddingLoads: bool, connected: bool,
                                   esClient: Option<Retriever.EsProbe>, esIndex: Option<string>)

  /**
   * How `run_evaluation` ends: it returns (None, or the statistics), or one of
   * the exceptions it does not catch escapes: the embedding model failing to
   * load, or the retriever's construction error.
   */
  datatype EvalEnd = Returned(stats: Option<Stats>) | EmbeddingFails | RetrieverFails(error: Retriever.InitError)

  /**
   * What `run_evaluation` does: None without questions; then the embedding
   * model is loaded, the connection checked (None without one), and the
   * retriever built over the documents before the tests run.
   */
  function EvaluationOf(documents: seq<Document>, questionsPath: Option<string>, maxQuestions: nat,
                        extractQa: bool, src: QuestionSources, comp: Components,
                        sv: Services, threshold: real, elapsed: nat -> real): EvalEnd
    requires ValidSources(src)
  {
    match LoadedSelection(documents, questionsPath, maxQuestions, extractQa, src)
    case None => Returned(None)
    case Some(qs) =>
      if qs == [] then Returned(None)
      else if !comp.embeddingLoads then EmbeddingFails
      else if !comp.connected then Returned(None)
      else if Retriever.InitOutcome(comp.esClient, comp.esIndex, Some(documents)).Some? then
        RetrieverFails(Retriever.InitOutcome(comp.esClient, comp.esIndex, Some(documents)).value)
      else
        assert HasQuestions(qs) by {
          if PathGiven(questionsPath) {
            SelectHasQuestions(src.load(questionsPath.value), maxQuestions, src.sample);
          } else {
            SelectHasQuestions(src.extract(documents), maxQuestions, src.sample);
          }
        }
        Returned(Some(StatsOf(TrialRecords(qs, sv, threshold, elapsed))))
  }

  /** A completed evaluation has one record per selected question, and no more than the cap. */
  lemma EvaluationSize(documents: seq<Document>, questionsPath: Option<string>, maxQuestions: nat,
                       extractQa: bool, src: QuestionSources, comp: Components,
                       sv: Services, threshold: real, elapsed: nat -> real)
    requires ValidSources(src)
    ensures var r := EvaluationOf(documents, questionsPath, maxQuestions, extractQa, src, comp, sv, threshold, elapsed);
            r.Returned? && r.stats.Some? ==>
              && 0 < r.stats.value.totalCount <= maxQuestions
              && LoadedSelection(documents, questionsPath, maxQuestions, extractQa, src).Some?
              && r.stats.value.totalCount == |LoadedSelection(documents, questionsPath, maxQuestions, extractQa, src).value|
  {
  }

  /**
   * Once there are questions, a model that fails to load ends the run with its
   * exception; with a connection, so does every retriever construction error,
   * in particular a local-mode run over no documents; statistics come only from
   * a run whose components were all built.
   */
  lemma EvaluationErrors(documents: seq<Document>, questionsPath: Option<string>, maxQuestions: nat,
                         extractQa: bool, src: QuestionSources, comp: Components,
                         sv: Services, threshold: real, elapsed: nat -> real)
    requires ValidSources(src)
    ensures var sel := LoadedSelection(documents, questionsPath, maxQuestions, extractQa, src);
      var init := Retriever.InitOutcome(comp.esClient, comp.esIndex, Some(documents));
      var r := EvaluationOf(documents, questionsPath, maxQuestions, extractQa, src, comp, sv, threshold, elapsed);
      && (r == EmbeddingFails <==> sel.Some? && sel.value != [] && !comp.embeddingLoads)
      && (r.RetrieverFails? <==> sel.Some? && sel.value != [] && comp.embeddingLoads && comp.connected && init.Some?)
      && (r.RetrieverFails? ==> r.error == init.value)
      && (sel.Some? && sel.value != [] && comp.embeddingLoads && comp.connected
          && !Retriever.UsesElasticsearch(comp.esClient, comp.esIndex) && documents == [] ==>
          r == RetrieverFails(Retriever.NoDocuments))
      && (r.Returned? && r.stats.Some? ==> comp.embeddingLoads && comp.connected && init.None?)
  {
    Retriever.ModeChoice(comp.esClient, comp.esIndex, Some(documents), Some(documents));
  }

  /** The evaluator and its configuration. */
  class RAGEvaluator {
    var model: string
    var ollamaHost: string
    var timeout: int
    var topK: int
    var threshold: real
    var useHyde: bool
    var randomSeed: Option<int>

    /** `__init__`: store the configuration. Seeding the sampler is not modelled. */
    constructor(model: string, ollamaHost: string, timeout: int, topK: int, threshold: real,
                useHyde: bool, randomSeed: Option<int>)
      ensures this.model == model && this.ollamaHost == ollamaHost && this.timeout == timeout
      ensures this.topK == topK && this.threshold == threshold && this.useHyde == useHyde
      ensures this.randomSeed == randomSeed
    {
      this.model := model;
      this.ollamaHost := ollamaHost;
      this.timeout := timeout;
      this.topK := topK;
      this.threshold := threshold;
      this.useHyde := useHyde;
      this.randomSeed := randomSeed;
    }

    /** `_load_questions`: the file when a path is given, else extraction when enabled; capped by sampling. */
    method LoadQuestions(documents: seq<Document>, questionsPath: Option<string>, maxQuestions: nat,
                         extractQa: bool, src: QuestionSources) returns (questions: Option<seq<QA>>)
      requires Sampler(src.sample)
      ensures questions == LoadedSelection(documents, questionsPath, maxQuestions, extractQa, src)
    {
      if questionsPath.Some? && questionsPath.value != [] {
        var qs := src.load(questionsPath.value);
        if |qs| > maxQuestions {
          qs := Pick(qs, src.sample(|qs|, maxQuestions));
        }
        return Some(qs);
      } else if extractQa {
        var qs := src.extract(documents);
        if qs != [] && |qs| > maxQuestions {
          qs := Pick(qs, src.sample(|qs|, maxQuestions));
        }
        if qs != [] {
          return Some(qs);
        } else {
          return None;
        }
      }
      return None;
    }

    /** `_run_tests`: one record per question, in order; a failing step yields an error record and the loop goes on. */
    method RunTests(questions: seq<QA>, sv: Services, elapsed: nat -> real) returns (results: seq<EvalRecord>)
      requires HasQuestions(questions)
      ensures results == TrialRecords(questions, sv, threshold, elapsed)
    {
      results := [];
      for i := 0 to |questions|
        invariant |results| == i
        invariant forall j :: 0 <= j < i ==> results[j] == Trial(questions[j], sv, threshold, elapsed(j))
      {
        var question := questions[i]["question"];
        var expectedAnswer := Get(questions[i], "answer", "");
        var outcome: Outcome;
        var retrieved := sv.retrieve(question);
        if retrieved.Failure? {
          outcome := Raised(retrieved.error);
        } else {
          var retrievedChunks := retrieved.value;
          var relevantTexts := PySeq.Map(retrievedChunks, Retriever.ScoredText);
          var answer := sv.generate(question, relevantTexts);
          if answer.Failure? {
            outcome := Raised(answer.error);
          } else {
            var similarity := sv.similarity(answer.value, expectedAnswer);
            if similarity.Failure? {
              outcome := Raised(similarity.error);
            } else {
              outcome := Answered(retrievedChunks, answer.value, similarity.value);
            }
          }
        }
        results := results + [RecordFor(question, expectedAnswer, outcome, threshold, Some(elapsed(i)))];
      }
    }

    /** `_calculate_stats` */
    method CalculateStats(results: seq<EvalRecord>) returns (stats: Stats)
      requires Complete(results)
      ensures stats == StatsOf(results)
    {
      var totalCount := |results|;
      var correctCount := Metrics.CorrectCount(results);
      var accuracy := if totalCount > 0 then correctCount as real / totalCount as real * 100.0 else 0.0;
      var avgSimilarity := if totalCount > 0 then Metrics.SimilaritySum(results) / totalCount as real else 0.0;
      var allChunks: seq<ChunkInfo> := [];
      for i := 0 to |results|
        invariant allChunks == AllChunks(results[..i])
      {
        assert results[..i + 1][..i] == results[..i];
        allChunks := allChunks + ChunksOf(results[i]);
      }
      assert results[..|results|] == results;
      var avgChunkScore := if allChunks != [] then Metrics.ScoreSum(allChunks) / |allChunks| as real else 0.0;
      stats := Stats(accuracy, avgSimilarity, avgChunkScore, correctCount, totalCount, results);
    }

    /**
     * `run_evaluation`: load the questions, build the components, run the
     * tests, compute the statistics. `encodeBatch` is the embedding model's
     * batch encoder the retriever indexes the local chunks with.
     */
    method RunEvaluation(documents: seq<Document>, questionsPath: Option<string>, maxQuestions: nat,
                         extractQa: bool, src: QuestionSources, comp: Components,
                         encodeBatch: seq<string> -> seq<seq<real>>,
                         sv: Services, elapsed: nat -> real) returns (end: EvalEnd)
      requires ValidSources(src) && Retriever.OnePerText(encodeBatch)
      ensures end == EvaluationOf(documents, questionsPath, maxQuestions, extractQa, src, comp, sv, threshold, elapsed)
    {
      var questions := LoadQuestions(documents, questionsPath, maxQuestions, extractQa, src);
      if questions.None? || questions.value == [] {
        return Returned(None);
      }
      if !comp.embeddingLoads {
        return EmbeddingFails;
      }
      if !comp.connected {
        return Returned(None);
      }
      var retriever := Retriever.NewRetriever(topK, comp.esClient, comp.esIndex, Some(documents), encodeBatch);
      if retriever.Failure? {
        return RetrieverFails(retriever.error);
      }
      var qs := questions.value;
      assert HasQuestions(qs) by {
        if PathGiven(questionsPath) {
          SelectHasQuestions(src.load(questionsPath.value), maxQuestions, src.sample);
        } else {
          SelectHasQuestions(src.extract(documents), maxQuestions, src.sample);
        }
      }
      var results := RunTests(qs, sv, elapsed);
      var st := CalculateStats(results);
      return Returned(Some(st));
    }
  }
}
