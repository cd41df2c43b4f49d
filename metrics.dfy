/**
 * The numbers and table rows of the HTML evaluation report: the aggregate
 * block, the score buckets and bar classes, `<`/`>` escaping, the 200-character
 * preview and the numbered chunk table. The HTML template text is not modelled.
 */
module Metrics {
  import opened Wrappers
  import opened PySeq
  import opened Records

  // ---------------------------------------------------------------------
  // Aggregates

  /** `sum(1 for r in results if r.get('is_correct', False))` */
  function CorrectCount(rs: seq<EvalRecord>): (n: nat)
    ensures n <= |rs|
  {
    if rs == [] then 0 else (if IsCorrect(rs[0]) then 1 else 0) + CorrectCount(rs[1..])
  }

  /** `sum(r.get('similarity', 0) for r in results)` */
  function SimilaritySum(rs: seq<EvalRecord>): real
  {
    if rs == [] then 0.0 else SimilarityOf(rs[0]) + SimilaritySum(rs[1..])
  }

  /** `sum(c.get('score', 0) for c in all_chunks)` */
  function ScoreSum(cs: seq<ChunkInfo>): real
  {
    if cs == [] then 0.0 else ScoreOf(cs[0]) + ScoreSum(cs[1..])
  }

  /** `x / n if n > 0 else 0` */
  function MeanOr0(sum: real, n: nat): real
  {
    if n > 0 then sum / n as real else 0.0
  }

  /** The headline numbers of the report. */
  datatype Summary = Summary(total: nat, correct: nat, incorrect: int, accuracy: real, avgSimilarity: real)

  /** The aggregate block of `generate_html_report`. */
  function Summarize(rs: seq<EvalRecord>): (s: Summary)
    ensures s.total == |rs|
    ensures s.correct + s.incorrect == s.total && 0 <= s.incorrect
    ensures 0.0 <= s.accuracy <= 100.0
    ensures s.total == 0 ==> s.accuracy == 0.0 && s.avgSimilarity == 0.0
    ensures s.total > 0 ==> s.accuracy == s.correct as real / s.total as real * 100.0
    ensures s.correct == CorrectCount(rs)
    ensures s.avgSimilarity == MeanOr0(SimilaritySum(rs), |rs|)
  {
    var total := |rs|;
    var correct := CorrectCount(rs);
    Summary(total, correct, total - correct,
            if total > 0 then correct as real / total as real * 100.0 else 0.0,
            MeanOr0(SimilaritySum(rs), total))
  }

  /** A record without a `similarity` adds nothing to the similarity total, which is what counting it as 0 means. */
  lemma {:induction false} MissingSimilarityCountsZero(a: seq<EvalRecord>, r: EvalRecord, b: seq<EvalRecord>)
    requires r.similarity.None?
    ensures SimilaritySum(a + [r] + b) == SimilaritySum(a + b)
    decreases |a|
  {
    if a == [] {
      assert a + [r] + b == [r] + b && a + b == b;
      assert ([r] + b)[1..] == b;
    } else {
      assert (a + [r] + b)[1..] == a[1..] + [r] + b;
      assert (a + b)[1..] == a[1..] + b;
      MissingSimilarityCountsZero(a[1..], r, b);
    }
  }

  /** Similarities in [0, 1] give a total in [0, |results|]. */
  lemma {:induction false} SimilaritySumBounds(rs: seq<EvalRecord>)
    requires forall i :: 0 <= i < |rs| ==> 0.0 <= SimilarityOf(rs[i]) <= 1.0
    ensures 0.0 <= SimilaritySum(rs) <= |rs| as real
  {
    if rs != [] {
      assert forall i :: 0 <= i < |rs[1..]| ==> rs[1..][i] == rs[i + 1];
      SimilaritySumBounds(rs[1..]);
    }
  }

  /** Hence the average similarity lies in [0, 1] when every similarity does. */
  lemma AverageSimilarityBounds(rs: seq<EvalRecord>)
    requires forall i :: 0 <= i < |rs| ==> 0.0 <= SimilarityOf(rs[i]) <= 1.0
    ensures 0.0 <= Summarize(rs).avgSimilarity <= 1.0
  {
    SimilaritySumBounds(rs);
    if |rs| > 0 {
      var n := |rs| as real;
      assert SimilaritySum(rs) / n <= n / n;
    }
  }

  // ---------------------------------------------------------------------
  // Chunk analytics

  /** `sources_used` holds `chunk.get('source', 'unknown')` for every chunk, in order. */
  predicate SourcesOf(ss: seq<string>, cs: seq<ChunkInfo>) {
    |ss| == |cs| && forall k :: 0 <= k < |cs| ==> ss[k] == SourceOf(cs[k])
  }

  /**
   * The `all_chunks` / `sources_used` loop: every record's `retrieved_chunks`
   * extended in record order, and one source per chunk.
   */
  method CollectChunks(results: seq<EvalRecord>) returns (allChunks: seq<ChunkInfo>, sourcesUsed: seq<string>)
    ensures allChunks == AllChunks(results)
    ensures SourcesOf(sourcesUsed, allChunks)
  {
    allChunks, sourcesUsed := [], [];
    for i := 0 to |results|
      invariant allChunks == AllChunks(results[..i])
      invariant SourcesOf(sourcesUsed, allChunks)
    {
      var chunks := ChunksOf(results[i]);
      assert results[..i + 1][..i] == results[..i];
      allChunks := allChunks + chunks;
      for j := 0 to |chunks|
        invariant |sourcesUsed| == |allChunks| - |chunks| + j
        invariant forall k :: 0 <= k < |sourcesUsed| ==> sourcesUsed[k] == SourceOf(allChunks[k])
      {
        sourcesUsed := sourcesUsed + [SourceOf(chunks[j])];
      }
    }
    assert results[..|results|] == results;
  }

  /** `Counter(sources_used)`: how often each source occurs. */
  function SourceStats(sources: seq<string>): (m: multiset<string>)
    ensures |m| == |sources|
    ensures forall s :: m[s] > 0 <==> s in sources
  {
    multiset(sources)
  }

  /** The per-source counts add up to the number of chunks. */
  lemma SourceStatsTotal(results: seq<EvalRecord>, sources: seq<string>)
    requires SourcesOf(sources, AllChunks(results))
    ensures |SourceStats(sources)| == |AllChunks(results)|
  {
  }

  /** `avg_chunk_score`: mean of the chunk scores, 0 when there are none. */
  function AverageChunkScore(cs: seq<ChunkInfo>): (a: real)
    ensures cs == [] ==> a == 0.0
    ensures cs != [] ==> a == ScoreSum(cs) / |cs| as real
  {
    MeanOr0(ScoreSum(cs), |cs|)
  }

  /** The high-quality bucket: score at least 0.7. */
  predicate IsHigh(score: real) { score >= 0.7 }

  /** The medium-quality bucket: score in [0.5, 0.7). */
  predicate IsMedium(score: real) { 0.5 <= score < 0.7 }

  /** The low-quality bucket: score below 0.5. */
  predicate IsLow(score: real) { score < 0.5 }

  /** The three bucket counts `high_quality`, `medium_quality`, `low_quality`. */
  datatype Buckets = Buckets(high: nat, medium: nat, low: nat)

  function CountBuckets(cs: seq<ChunkInfo>): Buckets
  {
    if cs == [] then Buckets(0, 0, 0)
    else
      var b := CountBuckets(cs[1..]);
      var s := ScoreOf(cs[0]);
      Buckets(b.high + (if IsHigh(s) then 1 else 0),
              b.medium + (if IsMedium(s) then 1 else 0),
              b.low + (if IsLow(s) then 1 else 0))
  }

  /** Every chunk falls in exactly one bucket, so the buckets add up to the chunk count. */
  lemma {:induction false} BucketsPartition(cs: seq<ChunkInfo>)
    ensures var b := CountBuckets(cs); b.high + b.medium + b.low == |cs|
  {
    if cs != [] {
      BucketsPartition(cs[1..]);
      var s := ScoreOf(cs[0]);
      assert (if IsHigh(s) then 1 else 0) + (if IsMedium(s) then 1 else 0) + (if IsLow(s) then 1 else 0) == 1;
    }
  }

  /** The bar colour of a table row: the same thresholds as the buckets. */
  function BarClass(score: real): (c: string)
    ensures c == "bar-high" <==> IsHigh(score)
    ensures c == "bar-medium" <==> IsMedium(score)
    ensures c == "bar-low" <==> IsLow(score)
  {
    if score >= 0.7 then "bar-high"
    else if score >= 0.5 then "bar-medium"
    else "bar-low"
  }

  // ---------------------------------------------------------------------
  // Escaping and previews

  /** `s.replace(c, rep)` for a one-character pattern. */
  function ReplaceChar(s: string, c: char, rep: string): string
  {
    if s == [] then [] else (if s[0] == c then rep else [s[0]]) + ReplaceChar(s[1..], c, rep)
  }

  /** `s.replace('<', '&lt;').replace('>', '&gt;')` */
  function Escape(s: string): string {
    ReplaceChar(ReplaceChar(s, '<', "&lt;"), '>', "&gt;")
  }

  /** What escaping does to one character. */
  function EscapeChar(ch: char): string {
    if ch == '<' then "&lt;" else if ch == '>' then "&gt;" else [ch]
  }

  /** Escaping one character at a time. */
  function EscapeEach(s: string): string {
    if s == [] then [] else EscapeChar(s[0]) + EscapeEach(s[1..])
  }

  lemma {:induction false} ReplaceCharAppend(a: string, b: string, c: char, rep: string)
    ensures ReplaceChar(a + b, c, rep) == ReplaceChar(a, c, rep) + ReplaceChar(b, c, rep)
  {
    if a != [] {
      assert (a + b)[0] == a[0];
      assert (a + b)[1..] == a[1..] + b;
      ReplaceCharAppend(a[1..], b, c, rep);
    } else {
      assert a + b == b;
    }
  }

  /**
   * The two passes of `replace` act as one character-by-character mapping:
   * `<` becomes `&lt;`, `>` becomes `&gt;`, and every other character is kept.
   */
  lemma {:induction false} EscapeIsCharwise(s: string)
    ensures Escape(s) == EscapeEach(s)
  {
    if s != [] {
      var first := if s[0] == '<' then "&lt;" else [s[0]];
      assert ReplaceChar(s, '<', "&lt;") == first + ReplaceChar(s[1..], '<', "&lt;");
      ReplaceCharAppend(first, ReplaceChar(s[1..], '<', "&lt;"), '>', "&gt;");
      assert ReplaceChar("&lt;", '>', "&gt;") == "&lt;" by {
        assert "&lt;"[1..] == "lt;";
        assert "lt;"[1..] == "t;";
        assert "t;"[1..] == ";";
      }
      if s[0] != '<' {
        assert ReplaceChar([s[0]], '>', "&gt;") == EscapeChar(s[0]);
      }
      EscapeIsCharwise(s[1..]);
    }
  }

  lemma {:induction false} EscapeEachNoAngles(s: string)
    ensures '<' !in EscapeEach(s) && '>' !in EscapeEach(s)
  {
    if s != [] {
      EscapeEachNoAngles(s[1..]);
    }
  }

  lemma {:induction false} EscapeEachPlain(s: string)
    requires '<' !in s && '>' !in s
    ensures EscapeEach(s) == s
  {
    if s != [] {
      assert s == [s[0]] + s[1..];
      EscapeEachPlain(s[1..]);
    }
  }

  /** Escaped text contains no `<` and no `>`. */
  lemma EscapeNoAngles(s: string)
    ensures '<' !in Escape(s) && '>' !in Escape(s)
  {
    EscapeIsCharwise(s);
    EscapeEachNoAngles(s);
  }

  /** Text without `<` or `>` is left unchanged. */
  lemma EscapePlain(s: string)
    requires '<' !in s && '>' !in s
    ensures Escape(s) == s
  {
    EscapeIsCharwise(s);
    EscapeEachPlain(s);
  }

  /** `s[:n] + ('...' if len(s) > n else '')` */
  function Truncate(s: string, n: nat): (r: string)
    ensures |s| <= n ==> r == s
    ensures |s| > n ==> |r| == n + 3 && r[..n] == s[..n] && r[n..] == "..."
  {
    Prefix(s, n) + (if |s| > n then "..." else "")
  }

  /** The 200-character chunk preview. */
  function Preview(s: string): string { Truncate(s, 200) }

  // ---------------------------------------------------------------------
  // The chunk table

  /** One row of the chunk table, without its HTML markup. */
  datatype ChunkRow = ChunkRow(
    number: nat, question: nat, questionText: string,
    rank: int, source: string, score: real, barClass: string, text: string)

  /** `question[:50] + '...'` */
  function QuestionLabel(r: EvalRecord): string {
    Prefix(QuestionOf(r), 50) + "..."
  }

  /** The row shown for `chunk`, numbered `number`, of the record numbered `question`. */
  function RowFor(number: nat, question: nat, heading: string, c: ChunkInfo): ChunkRow {
    var score := ScoreOf(c);
    ChunkRow(number, question, heading, RankOf(c), SourceOf(c), score, BarClass(score), Escape(Preview(TextOf(c))))
  }

  /** The rows for one record's chunks, numbered from `start`. */
  function RecordRows(start: nat, question: nat, heading: string, cs: seq<ChunkInfo>): (rows: seq<ChunkRow>)
    ensures |rows| == |cs|
    ensures forall j :: 0 <= j < |cs| ==> rows[j] == RowFor(start + j, question, heading, cs[j])
  {
    seq(|cs|, j requires 0 <= j < |cs| => RowFor(start + j, question, heading, cs[j]))
  }

  /** The whole chunk table for `results`: records numbered from 1, rows numbered on across records. */
  function ChunkTable(results: seq<EvalRecord>): seq<ChunkRow>
  {
    if results == [] then []
    else
      var n := |results| - 1;
      var pre := ChunkTable(results[..n]);
      pre + RecordRows(|pre| + 1, n + 1, QuestionLabel(results[n]), ChunksOf(results[n]))
  }

  /**
   * The chunk table has one row per chunk of `all_chunks`, numbered 1, 2, …,
   * showing that chunk's rank, source, escaped preview and score, with the
   * bar class of the score's bucket.
   */
  lemma {:induction false} ChunkTableRows(results: seq<EvalRecord>)
    ensures |ChunkTable(results)| == |AllChunks(results)|
    ensures forall k :: 0 <= k < |AllChunks(results)| ==>
              var row := ChunkTable(results)[k];
              row == RowFor(k + 1, row.question, row.questionText, AllChunks(results)[k])
  {
    if results != [] {
      var n := |results| - 1;
      ChunkTableRows(results[..n]);
    }
  }

  /** The record a row names is a real one: its number is in 1..|results| and its heading is that record's. */
  lemma {:induction false} ChunkTableQuestions(results: seq<EvalRecord>)
    ensures forall k :: 0 <= k < |ChunkTable(results)| ==>
              var row := ChunkTable(results)[k];
              1 <= row.question <= |results| && row.questionText == QuestionLabel(results[row.question - 1])
  {
    if results != [] {
      var n := |results| - 1;
      var pre := ChunkTable(results[..n]);
      var rows := RecordRows(|pre| + 1, n + 1, QuestionLabel(results[n]), ChunksOf(results[n]));
      var table: seq<ChunkRow> := pre + rows;
      assert ChunkTable(results) == table;
      ChunkTableQuestions(results[..n]);
      forall k | 0 <= k < |table|
        ensures 1 <= table[k].question <= |results|
        ensures table[k].questionText == QuestionLabel(results[table[k].question - 1])
      {
        if k < |pre| {
          assert table[k] == pre[k];
          assert results[..n][pre[k].question - 1] == results[pre[k].question - 1];
        } else {
          assert table[k] == rows[k - |pre|];
        }
      }
    }
  }

  /**
   * Chunk `j` of record `i` is shown in the row right after the chunks of the
   * earlier records, and that row names record `i + 1` with its heading.
   */
  lemma {:induction false} ChunkTableOrigin(results: seq<EvalRecord>, i: nat, j: nat)
    requires i < |results| && j < |ChunksOf(results[i])|
    ensures var k := |AllChunks(results[..i])| + j;
      k < |ChunkTable(results)|
      && ChunkTable(results)[k] == RowFor(k + 1, i + 1, QuestionLabel(results[i]), ChunksOf(results[i])[j])
    decreases |results|
  {
    var n := |results| - 1;
    var pre := ChunkTable(results[..n]);
    var rows := RecordRows(|pre| + 1, n + 1, QuestionLabel(results[n]), ChunksOf(results[n]));
    assert ChunkTable(results) == pre + rows;
    var k := |AllChunks(results[..i])| + j;
    if i < n {
      ChunkTableOrigin(results[..n], i, j);
      assert results[..n][i] == results[i];
      assert results[..n][..i] == results[..i];
      assert k < |pre| && (pre + rows)[k] == pre[k];
    } else {
      ChunkTableLength(results[..n]);
      assert results[..i] == results[..n];
      assert (pre + rows)[k] == rows[j];
    }
  }

  /** The chunk table has one row per chunk. */
  lemma {:induction false} ChunkTableLength(results: seq<EvalRecord>)
    ensures |ChunkTable(results)| == |AllChunks(results)|
    decreases |results|
  {
    if results != [] {
      ChunkTableLength(results[..|results| - 1]);
    }
  }

  /** The inner loop of the chunk table: one row per chunk of one record, numbered on from `counter`. */
  method AppendRecordRows(rows: seq<ChunkRow>, counter: nat, question: nat, heading: string, chunks: seq<ChunkInfo>)
    returns (rows': seq<ChunkRow>, counter': nat)
    ensures rows' == rows + RecordRows(counter, question, heading, chunks)
    ensures counter' == counter + |chunks|
  {
    rows', counter' := rows, counter;
    for j := 0 to |chunks|
      invariant |rows'| == |rows| + j && rows'[..|rows|] == rows
      invariant forall t :: 0 <= t < j ==> rows'[|rows| + t] == RowFor(counter + t, question, heading, chunks[t])
      invariant counter' == counter + j
    {
      var c := chunks[j];
      var score := ScoreOf(c);
      var barClass := if score >= 0.7 then "bar-high" else if score >= 0.5 then "bar-medium" else "bar-low";
      var text := Escape(Truncate(TextOf(c), 200));
      var row := ChunkRow(counter', question, heading, RankOf(c), SourceOf(c), score, barClass, text);
      RowForFields(counter', question, heading, c);
      rows' := rows' + [row];
      counter' := counter' + 1;
    }
    assert rows' == rows + RecordRows(counter, question, heading, chunks);
  }

  /** The row the loop body builds field by field is `RowFor`'s. */
  lemma RowForFields(number: nat, question: nat, heading: string, c: ChunkInfo)
    ensures var score := ScoreOf(c);
      RowFor(number, question, heading, c)
      == ChunkRow(number, question, heading, RankOf(c), SourceOf(c), score,
                  if score >= 0.7 then "bar-high" else if score >= 0.5 then "bar-medium" else "bar-low",
                  Escape(Truncate(TextOf(c), 200)))
  {
  }

  /** The chunk-table loop with its `chunk_counter`. */
  method BuildChunkTable(results: seq<EvalRecord>) returns (rows: seq<ChunkRow>)
    ensures rows == ChunkTable(results)
  {
    rows := [];
    var chunkCounter := 1;
    for i := 0 to |results|
      invariant rows == ChunkTable(results[..i])
      invariant chunkCounter == |rows| + 1
    {
      var result := results[i];
      var question := Prefix(QuestionOf(result), 50) + "...";
      var chunks := ChunksOf(result);
      assert results[..i + 1][..i] == results[..i];
      rows, chunkCounter := AppendRecordRows(rows, chunkCounter, i + 1, question, chunks);
    }
    assert results[..|results|] == results;
  }

  // ---------------------------------------------------------------------
  // The detailed results table

  /** The badge of a chunk in a result's detail box: 0.8 and 0.6 are its thresholds. */
  function ScoreLabel(score: real): (l: string)
    ensures l == "Отлично" <==> score >= 0.8
    ensures l == "Средне" <==> score < 0.6
  {
    if score >= 0.8 then "Отлично" else if score >= 0.6 then "Хорошо" else "Средне"
  }

  /** A retrieved chunk as shown in a result's detail box. */
  datatype ChunkBox = ChunkBox(rank: int, source: string, score: real, heading: string, text: string)

  function BoxFor(c: ChunkInfo): ChunkBox {
    ChunkBox(RankOf(c), SourceOf(c), ScoreOf(c), ScoreLabel(ScoreOf(c)), Escape(TextOf(c)))
  }

  /** One row of the detailed results table, without its HTML markup. */
  datatype ResultRow = ResultRow(
    number: nat, question: string, correct: bool, barClass: string, similarity: real,
    expected: string, generated: string, boxes: seq<ChunkBox>)

  /**
   * The row for record number `i`: question, answers and chunk texts escaped,
   * the answers cut to 200 characters after escaping.
   */
  function ResultRowFor(i: nat, r: EvalRecord): (row: ResultRow)
    ensures row.number == i && row.correct == IsCorrect(r)
    ensures row.barClass == BarClass(SimilarityOf(r))
    ensures '<' !in row.question && '>' !in row.question
    ensures row.question == Escape(QuestionOf(r)) && row.similarity == SimilarityOf(r)
    ensures row.expected == Truncate(Escape(ExpectedOf(r)), 200)
    ensures row.generated == Truncate(Escape(GeneratedOf(r)), 200)
    ensures |row.boxes| == |ChunksOf(r)|
    ensures forall j :: 0 <= j < |row.boxes| ==> row.boxes[j] == BoxFor(ChunksOf(r)[j])
  {
    EscapeNoAngles(QuestionOf(r));
    var boxes := seq(|ChunksOf(r)|, j requires 0 <= j < |ChunksOf(r)| => BoxFor(ChunksOf(r)[j]));
    ResultRow(i, Escape(QuestionOf(r)), IsCorrect(r), BarClass(SimilarityOf(r)), SimilarityOf(r),
              Truncate(Escape(ExpectedOf(r)), 200), Truncate(Escape(GeneratedOf(r)), 200), boxes)
  }

  /** The detailed-results loop: one row per record, numbered from 1. */
  method BuildResultsTable(results: seq<EvalRecord>) returns (rows: seq<ResultRow>)
    ensures |rows| == |results|
    ensures forall i :: 0 <= i < |results| ==> rows[i] == ResultRowFor(i + 1, results[i])
  {
    rows := [];
    for i := 0 to |results|
      invariant |rows| == i
      invariant forall t :: 0 <= t < i ==> rows[t] == ResultRowFor(t + 1, results[t])
    {
      rows := rows + [ResultRowFor(i + 1, results[i])];
    }
  }
}
