/**
 * The command-line entry point `main`: documents, then questions (a file, or
 * extraction from the documents or from the Elasticsearch index), capped to a
 * prefix of `max_questions`; the Ollama connection check; the per-question
 * loop; the final statistics. Document loading, question loading/extraction,
 * retrieval, generation and similarity are parameters.
 */
module Testmain {
  import opened Wrappers
  import opened Docs
  import opened Records
  import opened Trials
  import opened PySeq
  import Retriever
  import Metrics

  // ---------------------------------------------------------------------
  // Question selection

  /** The command-line options that decide where questions come from. */
  datatype QuestionArgs = QuestionArgs(questions: Option<string>, extractQa: bool, elasticsearch: bool,
                                       maxQuestions: int)

  /** `load_questions(path)` and `extract_questions(documents)`. */
  datatype MainSources = MainSources(load: string -> seq<QA>, extract: seq<Document> -> seq<QA>)

  /**
   * The outcome of step 2: no source configured, the Elasticsearch extraction
   * call raising, or the selected questions.
   */
  datatype Selection = NoSource | ExtractCallFails | Selected(questions: seq<QA>)

  /** `if len(questions) > max_questions: questions = questions[:max_questions]` */
  function Cap(qs: seq<QA>, maxQuestions: int): seq<QA>
  {
    if |qs| > maxQuestions then Prefix(qs, maxQuestions) else qs
  }

  /**
   * The cap keeps a prefix: the first `max_questions` entries of a longer list,
   * the whole of a list that is not longer. (A negative cap counts from the end,
   * as Python's slice does.)
   */
  lemma CapPrefix(qs: seq<QA>, maxQuestions: int)
    ensures var r := Cap(qs, maxQuestions);
      && r == qs[..|r|]
      && (0 <= maxQuestions ==> |r| == Min(|qs|, maxQuestions))
      && (|qs| <= maxQuestions ==> r == qs)
      && (maxQuestions < 0 ==> |r| == Max(|qs| + maxQuestions, 0))
  {
  }

  /** `args.questions` is a non-empty path. */
  predicate PathGiven(questionsPath: Option<string>) {
    questionsPath.Some? && questionsPath.value != []
  }

  /** Step 2 reads the Elasticsearch index: `--extract-qa` with `--elasticsearch` and no file. */
  predicate EsExtraction(args: QuestionArgs) {
    !PathGiven(args.questions) && args.extractQa && args.elasticsearch
  }

  /**
   * The questions of step 2. A given file wins over extraction. Extraction
   * from the index always raises: `main` passes `index_name=` to
   * `extract_questions_from_elasticsearch`, whose parameter is `index`, so
   * the call is a TypeError that nothing catches.
   */
  function SelectedQuestions(documents: seq<Document>, args: QuestionArgs, src: MainSources): (r: Selection)
    ensures r.NoSource? <==> !PathGiven(args.questions) && !args.extractQa
    ensures r.ExtractCallFails? <==> EsExtraction(args)
    ensures r.Selected? ==> r.questions == Cap(RawQuestions(documents, args, src), args.maxQuestions)
  {
    if PathGiven(args.questions) then Selected(Cap(src.load(args.questions.value), args.maxQuestions))
    else if args.extractQa then
      if args.elasticsearch then ExtractCallFails else Selected(Cap(src.extract(documents), args.maxQuestions))
    else NoSource
  }

  /** The list the file or the document extraction yields before the cap. */
  function RawQuestions(documents: seq<Document>, args: QuestionArgs, src: MainSources): seq<QA>
  {
    if PathGiven(args.questions) then src.load(args.questions.value)
    else src.extract(documents)
  }

  // ---------------------------------------------------------------------
  // The per-question loop

  /** The record the loop appends for a question with a `question` key; the loop records no response time. */
  function MainRecord(q: QA, sv: Services, threshold: real): EvalRecord
    requires "question" in q
  {
    RecordFor(q["question"], ExpectedAnswer(q), Attempt(q["question"], ExpectedAnswer(q), sv), threshold, None)
  }

  /** The records of the loop, one per question in question order. */
  function MainRecords(questions: seq<QA>, sv: Services, threshold: real): (rs: seq<EvalRecord>)
    requires HasQuestions(questions)
    ensures |rs| == |questions|
    ensures forall i :: 0 <= i < |questions| ==> rs[i] == MainRecord(questions[i], sv, threshold)
  {
    seq(|questions|, i requires 0 <= i < |questions| => MainRecord(questions[i], sv, threshold))
  }

  /**
   * The loop's records: each is correct exactly when the answer was scored at
   * least `threshold`; a question whose pipeline raised gets an error record
   * with similarity 0.0, no chunks and not correct; the generator was given
   * the texts of the retrieved chunks in rank order.
   */
  lemma MainRecordsMeaning(questions: seq<QA>, sv: Services, threshold: real, i: nat)
    requires HasQuestions(questions) && i < |questions|
    ensures var q := questions[i]["question"];
      var r := MainRecords(questions, sv, threshold)[i];
      && r.question == Some(q) && r.expected == Some(ExpectedAnswer(questions[i]))
      && r.responseTime.None?
      && (match sv.retrieve(q)
          case Failure(e) => r.generated == Some("ERROR: " + e) && SimilarityOf(r) == 0.0
                             && !IsCorrect(r) && ChunksOf(r) == []
          case Success(chunks) =>
            match sv.generate(q, Map(chunks, Retriever.ScoredText))
            case Failure(e) => r.generated == Some("ERROR: " + e) && SimilarityOf(r) == 0.0
                               && !IsCorrect(r) && ChunksOf(r) == []
            case Success(answer) =>
              match sv.similarity(answer, ExpectedAnswer(questions[i]))
              case Failure(e) => r.generated == Some("ERROR: " + e) && SimilarityOf(r) == 0.0
                                 && !IsCorrect(r) && ChunksOf(r) == []
              case Success(sim) => r.generated == Some(answer) && SimilarityOf(r) == sim
                                   && (IsCorrect(r) <==> sim >= threshold) && ChunksOf(r) == Infos(chunks))
  {
  }

  /**
   * The loop of step 4. `question_data["question"]` is read outside the `try`,
   * so a question record without that key ends `main` with a KeyError
   * (`missing`); otherwise there is one record per question, in order.
   */
  method RunQuestions(questions: seq<QA>, sv: Services, threshold: real)
    returns (results: seq<EvalRecord>, missing: bool)
    ensures missing <==> !HasQuestions(questions)
    ensures !missing ==> results == MainRecords(questions, sv, threshold)
  {
    results := [];
    for i := 0 to |questions|
      invariant HasQuestions(questions[..i])
      invariant results == MainRecords(questions[..i], sv, threshold)
    {
      if "question" !in questions[i] {
        assert !HasQuestions(questions) by {
          assert !("question" in questions[i]);
        }
        return results, true;
      }
      var question := questions[i]["question"];
      var expectedAnswer := Get(questions[i], "answer", "");
      var outcome: Outcome;
      var retrieved := sv.retrieve(question);
      if retrieved.Failure? {
        outcome := Raised(retrieved.error);
      } else {
        var retrievedChunks := retrieved.value;
        var relevantTexts := Map(retrievedChunks, Retriever.ScoredText);
        var answer := sv.generate(question, relevantTexts);
        if answer.Failure? {
          outcome := Raised(answer.error);
        } else {
          var similarity := sv.similarity(answer.value, expectedAnswer);
          if similarity.Failure? {
            outcome := Raised(similarity.error);
          } else {
            outcome := Answered(retrievedChunks, answer.value, similarity.value);
          }
        }
      }
      results := results + [RecordFor(question, expectedAnswer, outcome, threshold, None)];
      assert questions[..i + 1] == questions[..i] + [questions[i]];
    }
    assert questions[..|questions|] == questions;
    missing := false;
  }

  /** Step 6: the counts, accuracy and averages printed at the end. */
  method FinalStats(results: seq<EvalRecord>) returns (stats: Stats)
    requires Complete(results)
    ensures stats == StatsOf(results)
  {
    var correctCount := Metrics.CorrectCount(results);
    var totalCount := |results|;
    var accuracy := if totalCount > 0 then correctCount as real / totalCount as real * 100.0 else 0.0;
    var avgSimilarity := if totalCount > 0 then Metrics.SimilaritySum(results) / totalCount as real else 0.0;
    var allChunks: seq<ChunkInfo> := [];
    for i := 0 to |results|
      invariant allChunks == AllChunks(results[..i])
    {
      assert results[..i + 1][..i] == results[..i];
      allChunks := allChunks + ChunksOf(results[i]);
    }
    assert results[..|results|] == results;
    var avgChunkScore := if allChunks != [] then Metrics.ScoreSum(allChunks) / |allChunks| as real else 0.0;
    stats := Stats(accuracy, avgSimilarity, avgChunkScore, correctCount, totalCount, results);
  }

  // ---------------------------------------------------------------------
  // The whole run

  /**
   * What step 3 finds when it builds the components: whether `EmbeddingModel()`
   * loads its model, what `check_connection()` of the Ollama client answers
   * (asked only without `--mock`), whether `--hyde` is given and, if so,
   * whether `HyDEGenerator(ollama_client)` is built without raising.
   */
  datatype MainComponents = MainComponents(embeddingLoads: bool, connected: bool, hyde: bool, hydeBuilds: bool)

  /**
   * How `main` ends: an early return at steps 1-3, the TypeError of the
   * Elasticsearch extraction call, an exception from building the embedding
   * model, the HyDE generator or the retriever, a KeyError in the loop, or the
   * statistics of a completed run.
   */
  datatype RunEnd = NoDocuments | NoQuestionSource | EsExtractionFails | NoQuestions
                  | EmbeddingFails | NoConnection | HydeFails | RetrieverFails(error: Retriever.InitError)
                  | MissingQuestion | Completed(stats: Stats)

  /**
   * What the retriever construction of step 3 raises, if anything: `main`
   * gives it no Elasticsearch client, so it is built in local mode over the
   * documents.
   */
  function MainRetrieverError(documents: seq<Document>): Option<Retriever.InitError>
  {
    Retriever.InitOutcome(None, None, Some(documents))
  }

  /**
   * What `main` does for the loaded `documents`: `mock` skips the connection
   * check; `comp` says how each component of step 3 fares.
   */
  function MainOutcome(documents: seq<Document>, args: QuestionArgs, src: MainSources, mock: bool,
                       comp: MainComponents, sv: Services, threshold: real): RunEnd
  {
    if documents == [] then NoDocuments
    else match SelectedQuestions(documents, args, src)
      case NoSource => NoQuestionSource
      case ExtractCallFails => EsExtractionFails
      case Selected(qs) =>
        if qs == [] then NoQuestions
        else if !comp.embeddingLoads then EmbeddingFails
        else if !mock && !comp.connected then NoConnection
        else if comp.hyde && !comp.hydeBuilds then HydeFails
        else if MainRetrieverError(documents).Some? then RetrieverFails(MainRetrieverError(documents).value)
        else if !HasQuestions(qs) then MissingQuestion
        else
          var rs := MainRecords(qs, sv, threshold);
          assert Complete(rs);
          Completed(StatsOf(rs))
  }

  /**
   * `main` from step 1 to step 6, report writing left out. `encodeBatch` is the
   * embedding model's batch encoder the retriever indexes the chunks with.
   */
  method RunMain(documents: seq<Document>, args: QuestionArgs, src: MainSources, mock: bool,
                 comp: MainComponents, topK: int, encodeBatch: seq<string> -> seq<seq<real>>,
                 sv: Services, threshold: real) returns (end: RunEnd)
    requires Retriever.OnePerText(encodeBatch)
    ensures end == MainOutcome(documents, args, src, mock, comp, sv, threshold)
  {
    if documents == [] {
      return NoDocuments;
    }
    var questions: seq<QA>;
    if args.questions.Some? && args.questions.value != [] {
      questions := src.load(args.questions.value);
      if |questions| > args.maxQuestions {
        questions := Prefix(questions, args.maxQuestions);
      }
    } else if args.extractQa {
      if args.elasticsearch {
        // extract_questions_from_elasticsearch(es_client, index_name=...) has no such keyword
        return EsExtractionFails;
      }
      questions := src.extract(documents);
      if questions != [] && |questions| > args.maxQuestions {
        questions := Prefix(questions, args.maxQuestions);
      }
    } else {
      return NoQuestionSource;
    }
    if questions == [] {
      return NoQuestions;
    }
    if !comp.embeddingLoads {
      return EmbeddingFails;
    }
    if !mock && !comp.connected {
      return NoConnection;
    }
    if comp.hyde && !comp.hydeBuilds {
      return HydeFails;
    }
    var retriever := Retriever.NewRetriever(topK, None, None, Some(documents), encodeBatch);
    if retriever.Failure? {
      return RetrieverFails(retriever.error);
    }
    var results, missing := RunQuestions(questions, sv, threshold);
    if missing {
      return MissingQuestion;
    }
    assert Complete(results);
    var stats := FinalStats(results);
    return Completed(stats);
  }

  /**
   * Once there are questions, the components of step 3 end `main` in their
   * order: the embedding model, the connection (unless mocked), the HyDE
   * generator when asked for, then the retriever, whose only possible error
   * over the non-empty documents is the first one without `content`.
   */
  lemma ComponentFailures(documents: seq<Document>, args: QuestionArgs, src: MainSources, mock: bool,
                          comp: MainComponents, sv: Services, threshold: real)
    requires documents != []
    requires SelectedQuestions(documents, args, src).Selected?
    requires SelectedQuestions(documents, args, src).questions != []
    ensures var r := MainOutcome(documents, args, src, mock, comp, sv, threshold);
      && (r == EmbeddingFails <==> !comp.embeddingLoads)
      && (r == NoConnection <==> comp.embeddingLoads && !mock && !comp.connected)
      && (r == HydeFails <==> comp.embeddingLoads && (mock || comp.connected) && comp.hyde && !comp.hydeBuilds)
      && (r.RetrieverFails? <==>
            comp.embeddingLoads && (mock || comp.connected) && (comp.hyde ==> comp.hydeBuilds)
            && Retriever.FirstMissing(documents, 0) < |documents|)
      && (r.RetrieverFails? ==> r.error == Retriever.MissingContent(Retriever.FirstMissing(documents, 0)))
  {
    Retriever.ModeChoice(None, None, Some(documents), Some(documents));
  }

  /** Without documents `main` returns before any question source is consulted. */
  lemma NoDocumentsFirst(args: QuestionArgs, src: MainSources, src': MainSources, mock: bool,
                         comp: MainComponents, sv: Services, threshold: real)
    ensures MainOutcome([], args, src, mock, comp, sv, threshold) == NoDocuments
    ensures MainOutcome([], args, src, mock, comp, sv, threshold)
         == MainOutcome([], args, src', mock, comp, sv, threshold)
  {
  }

  /**
   * Without questions `main` returns before the components are built: neither
   * the connection nor the pipeline can change the outcome.
   */
  lemma NoQuestionsBeforeComponents(documents: seq<Document>, args: QuestionArgs, src: MainSources,
                                    mock: bool, comp: MainComponents, sv: Services, threshold: real,
                                    mock': bool, comp': MainComponents, sv': Services, threshold': real)
    requires documents != []
    requires SelectedQuestions(documents, args, src) == Selected([])
    ensures MainOutcome(documents, args, src, mock, comp, sv, threshold) == NoQuestions
    ensures MainOutcome(documents, args, src, mock', comp', sv', threshold') == NoQuestions
  {
  }

  /**
   * With documents, extraction from the index ends `main` before any question
   * is asked, whatever the connection and the pipeline.
   */
  lemma EsExtractionEndsMain(documents: seq<Document>, args: QuestionArgs, src: MainSources, mock: bool,
                             comp: MainComponents, sv: Services, threshold: real)
    requires documents != [] && EsExtraction(args)
    ensures MainOutcome(documents, args, src, mock, comp, sv, threshold) == EsExtractionFails
  {
  }

  /**
   * A completed run built every component, never extracted from the index,
   * and evaluated a prefix of the file's or the documents' questions, one
   * record per question in order, at most `max_questions` of them.
   */
  lemma CompletedRun(documents: seq<Document>, args: QuestionArgs, src: MainSources, mock: bool,
                     comp: MainComponents, sv: Services, threshold: real)
    requires MainOutcome(documents, args, src, mock, comp, sv, threshold).Completed?
    ensures var st := MainOutcome(documents, args, src, mock, comp, sv, threshold).stats;
      var raw := RawQuestions(documents, args, src);
      && documents != [] && !EsExtraction(args)
      && comp.embeddingLoads && (mock || comp.connected) && (comp.hyde ==> comp.hydeBuilds)
      && MainRetrieverError(documents).None? && Retriever.AllHaveContent(documents)
      && 0 < st.totalCount <= |raw|
      && (0 <= args.maxQuestions ==> st.totalCount <= args.maxQuestions)
      && HasQuestions(raw[..st.totalCount])
      && st.results == MainRecords(raw[..st.totalCount], sv, threshold)
  {
    var qs := SelectedQuestions(documents, args, src).questions;
    CapPrefix(RawQuestions(documents, args, src), args.maxQuestions);
    assert qs == RawQuestions(documents, args, src)[..|qs|];
  }
}
