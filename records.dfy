/**
 * The evaluation records that the evaluation loops produce and the report and
 * statistics read. The report reads every field with a `.get` default, so
 * each field here is optional.
 */
module Records {
  import opened Wrappers
  import Retriever

  /** One entry of a record's `retrieved_chunks`. */
  datatype ChunkInfo = ChunkInfo(text: Option<string>, score: Option<real>, rank: Option<int>, source: Option<string>)

  /** `chunk.get('text', '')` */
  function TextOf(c: ChunkInfo): string { c.text.GetOr("") }

  /** `chunk.get('score', 0)` */
  function ScoreOf(c: ChunkInfo): real { c.score.GetOr(0.0) }

  /** `chunk.get('rank', 0)` */
  function RankOf(c: ChunkInfo): int { c.rank.GetOr(0) }

  /** `chunk.get('source', 'unknown')` */
  function SourceOf(c: ChunkInfo): string { c.source.GetOr("unknown") }

  /** A retrieval result as stored in a record: every key present. */
  function Info(s: Retriever.Scored): ChunkInfo {
    ChunkInfo(Some(s.text), Some(s.score), Some(s.rank), Some(s.source))
  }

  /** The stored form of a list of retrieval results, in rank order. */
  function Infos(rs: seq<Retriever.Scored>): (cs: seq<ChunkInfo>)
    ensures |cs| == |rs|
    ensures forall j :: 0 <= j < |rs| ==> cs[j] == Info(rs[j])
  {
    seq(|rs|, j requires 0 <= j < |rs| => Info(rs[j]))
  }

  /** One evaluation record: a dictionary with the keys the loops write. */
  datatype EvalRecord = EvalRecord(
    question: Option<string>,
    expected: Option<string>,
    generated: Option<string>,
    similarity: Option<real>,
    isCorrect: Option<bool>,
    chunks: Option<seq<ChunkInfo>>,
    responseTime: Option<real>)

  /** `r.get('is_correct', False)` */
  predicate IsCorrect(r: EvalRecord) { r.isCorrect.GetOr(false) }

  /** `r.get('similarity', 0)` */
  function SimilarityOf(r: EvalRecord): real { r.similarity.GetOr(0.0) }

  /** `r.get('retrieved_chunks', [])` */
  function ChunksOf(r: EvalRecord): seq<ChunkInfo> { r.chunks.GetOr([]) }

  /** `r.get('question', '')` */
  function QuestionOf(r: EvalRecord): string { r.question.GetOr("") }

  /** `r.get('generated_answer', '')` */
  function GeneratedOf(r: EvalRecord): string { r.generated.GetOr("") }

  /** `r.get('expected_answer', '')` */
  function ExpectedOf(r: EvalRecord): string { r.expected.GetOr("") }

  /** Every record's chunks, concatenated in record order. */
  function AllChunks(rs: seq<EvalRecord>): seq<ChunkInfo>
  {
    if rs == [] then [] else AllChunks(rs[..|rs|-1]) + ChunksOf(rs[|rs|-1])
  }

  /** The chunks of a sequence of records split in two are those of each half, in order. */
  lemma {:induction false} AllChunksAppend(a: seq<EvalRecord>, b: seq<EvalRecord>)
    ensures AllChunks(a + b) == AllChunks(a) + AllChunks(b)
    decreases |b|
  {
    if b == [] {
      assert a + b == a;
    } else {
      var n := |b| - 1;
      assert (a + b)[..|a + b| - 1] == a + b[..n];
      assert (a + b)[|a + b| - 1] == b[n];
      AllChunksAppend(a, b[..n]);
    }
  }

  /** Where a chunk of the concatenation comes from: some record's chunk list. */
  lemma {:induction false} AllChunksOrigin(rs: seq<EvalRecord>, p: nat) returns (i: nat, j: nat)
    requires p < |AllChunks(rs)|
    ensures i < |rs| && j < |ChunksOf(rs[i])|
    ensures AllChunks(rs)[p] == ChunksOf(rs[i])[j]
    decreases |rs|
  {
    var n := |rs| - 1;
    var pre := AllChunks(rs[..n]);
    if p < |pre| {
      i, j := AllChunksOrigin(rs[..n], p);
      assert rs[..n][i] == rs[i];
    } else {
      i, j := n, p - |pre|;
    }
  }
}
