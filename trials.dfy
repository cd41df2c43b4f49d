/**
 * One question put to the RAG pipeline, and the record it leaves: the same
 * record shape and the same statistics are produced by the evaluator class
 * and by the command-line entry point.
 */
module Trials {
  import opened Wrappers
  import opened Docs
  import opened Records
  import Retriever
  import PySeq
  import Questions
  import Metrics

  type QA = Questions.QA

  /** `question_data.get("answer", "")` */
  function ExpectedAnswer(q: QA): string { Get(q, "answer", "") }

  /**
   * How the `try` block of one question ends: it answered, having retrieved
   * `chunks`, generated `answer` and scored it, or some step raised.
   */
  datatype Outcome = Answered(chunks: seq<Retriever.Scored>, answer: string, similarity: real) | Raised(message: string)

  /** Every question record has a `question` key, which the test loop indexes directly. */
  predicate HasQuestions(qs: seq<QA>) {
    forall i :: 0 <= i < |qs| ==> "question" in qs[i]
  }

  /**
   * The pipeline a question goes through: scored retrieval, generation from
   * the retrieved texts, similarity of the answer to the expected one. Each
   * step may raise (Failure with the exception's text).
   */
  datatype Services = Services(
    retrieve: string -> Result<seq<Retriever.Scored>, string>,
    generate: (string, seq<string>) -> Result<string, string>,
    similarity: (string, string) -> Result<real, string>)

  /** How the `try` block ends for `question`: the first step that raises decides the error message. */
  function Attempt(question: string, expected: string, sv: Services): (o: Outcome)
    ensures sv.retrieve(question).Failure? ==> o == Raised(sv.retrieve(question).error)
    ensures o.Answered? ==> sv.retrieve(question) == Success(o.chunks)
                            && sv.generate(question, PySeq.Map(o.chunks, Retriever.ScoredText)) == Success(o.answer)
                            && sv.similarity(o.answer, expected) == Success(o.similarity)
  {
    match sv.retrieve(question)
    case Failure(e) => Raised(e)
    case Success(chunks) =>
      match sv.generate(question, PySeq.Map(chunks, Retriever.ScoredText))
      case Failure(e) => Raised(e)
      case Success(answer) =>
        match sv.similarity(answer, expected)
        case Failure(e) => Raised(e)
        case Success(sim) => Answered(chunks, answer, sim)
  }

  /**
   * The record appended for a question. `elapsed` is the measured response
   * time, or None where the loop does not record one.
   */
  function RecordFor(question: string, expected: string, o: Outcome, threshold: real, elapsed: Option<real>): (r: EvalRecord)
    ensures r.question == Some(question) && r.expected == Some(expected)
    ensures r.similarity.Some? && r.isCorrect.Some? && r.chunks.Some? && r.generated.Some?
    ensures IsCorrect(r) ==> SimilarityOf(r) >= threshold
    ensures o.Answered? ==> (IsCorrect(r) <==> o.similarity >= threshold)
    ensures o.Answered? ==> r.generated == Some(o.answer) && r.similarity == Some(o.similarity)
                            && ChunksOf(r) == Infos(o.chunks) && r.responseTime == elapsed
    ensures o.Raised? ==> r.generated == Some("ERROR: " + o.message) && SimilarityOf(r) == 0.0
                          && !IsCorrect(r) && ChunksOf(r) == []
                          && r.responseTime == (if elapsed.Some? then Some(0.0) else None)
  {
    match o
    case Answered(chunks, answer, sim) =>
      EvalRecord(Some(question), Some(expected), Some(answer), Some(sim), Some(sim >= threshold),
                 Some(Infos(chunks)), elapsed)
    case Raised(e) =>
      EvalRecord(Some(question), Some(expected), Some("ERROR: " + e), Some(0.0), Some(false),
                 Some([]), if elapsed.Some? then Some(0.0) else None)
  }

  /** Every record carries `is_correct` and `similarity`, which the statistics index directly. */
  predicate Complete(rs: seq<EvalRecord>) {
    forall i :: 0 <= i < |rs| ==> rs[i].isCorrect.Some? && rs[i].similarity.Some?
  }

  /** The final statistics of a run. */
  datatype Stats = Stats(accuracy: real, avgSimilarity: real, avgChunkScore: real,
                         correctCount: nat, totalCount: nat, results: seq<EvalRecord>)

  /** The statistics of `results`: the report's aggregates plus the mean chunk score over all records' chunks. */
  function StatsOf(results: seq<EvalRecord>): (st: Stats)
    requires Complete(results)
    ensures st.totalCount == |results| && st.correctCount <= st.totalCount && st.results == results
    ensures 0.0 <= st.accuracy <= 100.0
    ensures st.totalCount == 0 ==> st.accuracy == 0.0 && st.avgSimilarity == 0.0
    ensures st.totalCount > 0 ==> st.accuracy == st.correctCount as real / st.totalCount as real * 100.0
    ensures st.correctCount == Metrics.CorrectCount(results)
    ensures st.avgSimilarity == Metrics.MeanOr0(Metrics.SimilaritySum(results), |results|)
    ensures st.avgChunkScore == Metrics.AverageChunkScore(AllChunks(results))
  {
    var s := Metrics.Summarize(results);
    Stats(s.accuracy, s.avgSimilarity, Metrics.AverageChunkScore(AllChunks(results)), s.correct, s.total, results)
  }

  /** When every record's similarity lies in [0, 1], so does the average. */
  lemma StatsSimilarityBounds(results: seq<EvalRecord>)
    requires Complete(results)
    requires forall i :: 0 <= i < |results| ==> 0.0 <= SimilarityOf(results[i]) <= 1.0
    ensures 0.0 <= StatsOf(results).avgSimilarity <= 1.0
  {
    Metrics.AverageSimilarityBounds(results);
  }
}
