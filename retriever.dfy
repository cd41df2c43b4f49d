/**
 * The document retriever of the RAG pipeline: the choice between Elasticsearch and local
 * mode when it is built, the local chunk index, and the assembly of ranked results on both
 * paths. The embedding model, the cosine formula, `np.argsort` and the Elasticsearch
 * client are parameters.
 */
module Retriever {
  import opened Wrappers
  import opened PySeq
  import opened Text
  import opened Docs
  import opened Paragraphs

  // ----- Construction -----

  /** What construction asks the Elasticsearch client: `ping()`, `index_exists()`, `get_document_count()`. */
  datatype EsProbe = EsProbe(ping: bool, indexExists: bool, documentCount: nat)

  /** The exceptions construction raises. */
  datatype InitError =
    | NotConnected
    | IndexMissing(index: string)
    | IndexEmpty(index: string)
    | NoDocuments
    | MissingContent(position: nat)

  /** The checks of `_init_elasticsearch`, in order. */
  function EsCheck(probe: EsProbe, index: string): Option<InitError> {
    if !probe.ping then Some(NotConnected)
    else if !probe.indexExists then Some(IndexMissing(index))
    else if probe.documentCount == 0 then Some(IndexEmpty(index))
    else None
  }

  /** The position of the first document from `k` on without a `content` field, or `|docs|`. */
  function FirstMissing(docs: seq<Document>, k: nat): (m: nat)
    requires k <= |docs|
    ensures k <= m <= |docs|
    ensures forall i :: k <= i < m ==> "content" in docs[i]
    ensures m < |docs| ==> "content" !in docs[m]
    decreases |docs| - k
  {
    if k == |docs| || "content" !in docs[k] then k else FirstMissing(docs, k + 1)
  }

  /** The checks of `_init_local`: some documents, and `doc['content']` for each of them. */
  function LocalCheck(documents: Option<seq<Document>>): Option<InitError> {
    if documents.None? || documents.value == [] then Some(NoDocuments)
    else if FirstMissing(documents.value, 0) < |documents.value| then
      Some(MissingContent(FirstMissing(documents.value, 0)))
    else None
  }

  /** Whether construction uses Elasticsearch: both the client and the index name are given. */
  predicate UsesElasticsearch(esClient: Option<EsProbe>, esIndex: Option<string>) {
    esClient.Some? && esIndex.Some?
  }

  /** The exception construction raises, if any. */
  function InitOutcome(esClient: Option<EsProbe>, esIndex: Option<string>,
                       documents: Option<seq<Document>>): Option<InitError>
  {
    if UsesElasticsearch(esClient, esIndex) then EsCheck(esClient.value, esIndex.value)
    else LocalCheck(documents)
  }

  /**
   * Elasticsearch mode is taken exactly when client and index are both given, and then the
   * documents play no part; in local mode, no documents is an error.
   */
  lemma ModeChoice(esClient: Option<EsProbe>, esIndex: Option<string>,
                   documents: Option<seq<Document>>, other: Option<seq<Document>>)
    ensures UsesElasticsearch(esClient, esIndex) ==>
      InitOutcome(esClient, esIndex, documents) == InitOutcome(esClient, esIndex, other)
    ensures !UsesElasticsearch(esClient, esIndex) && (documents.None? || documents.value == []) ==>
      InitOutcome(esClient, esIndex, documents) == Some(NoDocuments)
    ensures UsesElasticsearch(esClient, esIndex) ==>
      (InitOutcome(esClient, esIndex, documents) == None <==>
         esClient.value.ping && esClient.value.indexExists && esClient.value.documentCount > 0)
  {
  }

  /** An entry of `self.chunks`: the chunk text, its document's filename and the document. */
  datatype ChunkEntry = ChunkEntry(text: string, filename: string, sourceDoc: Document)

  /** The entries for the chunks `cs` of `doc`. */
  function Tag(cs: seq<string>, doc: Document): (es: seq<ChunkEntry>)
    ensures |es| == |cs|
    ensures forall j :: 0 <= j < |cs| ==> es[j] == ChunkEntry(cs[j], FileName(doc), doc)
  {
    seq(|cs|, j requires 0 <= j < |cs| => ChunkEntry(cs[j], FileName(doc), doc))
  }

  predicate AllHaveContent(docs: seq<Document>) {
    forall i :: 0 <= i < |docs| ==> "content" in docs[i]
  }

  /**
   * The entries of one document: the paragraph chunks of its `content`, tagged with its
   * filename. Only documents with a `content` field get this far.
   */
  function DocEntries(doc: Document): seq<ChunkEntry>
  {
    Tag(ParagraphChunks(Get(doc, "content", ""), DefaultChunkSize), doc)
  }

  /** `self.chunks` after `_init_local`: the entries of the documents, document by document. */
  function LocalEntries(docs: seq<Document>): seq<ChunkEntry>
  {
    FlatMap(docs, DocEntries)
  }

  /** One more chunk of the same document. */
  lemma TagStep(base: seq<ChunkEntry>, cs: seq<string>, j: nat, doc: Document)
    requires j < |cs|
    ensures base + Tag(cs[..j + 1], doc) == (base + Tag(cs[..j], doc)) + [ChunkEntry(cs[j], FileName(doc), doc)]
  {
    assert Tag(cs[..j + 1], doc) == Tag(cs[..j], doc) + [ChunkEntry(cs[j], FileName(doc), doc)];
  }

  lemma ContentPrefix(docs: seq<Document>, k: nat)
    requires AllHaveContent(docs) && k <= |docs|
    ensures AllHaveContent(docs[..k])
  {
    forall i | 0 <= i < k ensures "content" in docs[..k][i] {
      assert docs[..k][i] == docs[i];
    }
  }

  /** `c['text']` of an entry; `[c['text'] for c in chunks]` is `Map(chunks, EntryText)`. */
  function EntryText(e: ChunkEntry): string { e.text }

  /** The entries of a list of documents follow those of the documents before it. */
  lemma LocalEntriesConcat(a: seq<Document>, b: seq<Document>)
    ensures LocalEntries(a + b) == LocalEntries(a) + LocalEntries(b)
  {
    FlatMapAppend(a, b, DocEntries);
  }

  /**
   * Every entry comes from one of the documents, carries that document's filename (or
   * `'unknown'`) and is one of its non-empty, stripped paragraph chunks.
   */
  lemma {:induction false} LocalEntryOrigin(docs: seq<Document>, p: nat) returns (i: nat)
    requires AllHaveContent(docs) && p < |LocalEntries(docs)|
    ensures i < |docs|
    ensures var e := LocalEntries(docs)[p];
      && e.sourceDoc == docs[i] && e.filename == FileName(docs[i])
      && e.text in ParagraphChunks(docs[i]["content"], DefaultChunkSize)
      && e.text != [] && Stripped(e.text)
    decreases |docs|
  {
    var n := |docs| - 1;
    ContentPrefix(docs, n);
    var pre := LocalEntries(docs[..n]);
    assert LocalEntries(docs) == pre + DocEntries(docs[n]);
    if p < |pre| {
      i := LocalEntryOrigin(docs[..n], p);
      assert docs[..n][i] == docs[i];
    } else {
      i := n;
      DocEntryOrigin(docs[n], p - |pre|);
    }
  }

  /** An entry of one document is one of its non-empty, stripped chunks, tagged with its filename. */
  lemma DocEntryOrigin(doc: Document, q: nat)
    requires "content" in doc && q < |DocEntries(doc)|
    ensures var e := DocEntries(doc)[q];
      && e.sourceDoc == doc && e.filename == FileName(doc)
      && e.text in ParagraphChunks(doc["content"], DefaultChunkSize)
      && e.text != [] && Stripped(e.text)
  {
    var cs := ParagraphChunks(doc["content"], DefaultChunkSize);
    ChunksClean(doc["content"], DefaultChunkSize, q);
    assert cs[q] in cs;
  }

  lemma LocalEntriesStep(docs: seq<Document>, i: nat)
    requires i < |docs| && AllHaveContent(docs[..i]) && "content" in docs[i]
    ensures AllHaveContent(docs[..i + 1])
    ensures LocalEntries(docs[..i + 1]) == LocalEntries(docs[..i]) + DocEntries(docs[i])
  {
    var d := docs[..i + 1];
    assert d[..i] == docs[..i];
    assert AllHaveContent(d) by {
      forall k | 0 <= k < |d| ensures "content" in d[k] {
        if k < i { assert d[k] == docs[..i][k]; }
      }
    }
  }

  lemma PrefixContent(docs: seq<Document>, m: nat)
    requires m <= |docs| && AllHaveContent(docs[..m])
    ensures forall i :: 0 <= i < m ==> "content" in docs[i]
  {
    forall i | 0 <= i < m ensures "content" in docs[i] {
      assert docs[..m][i] == docs[i];
    }
  }

  lemma FirstMissingAt(docs: seq<Document>, k: nat, m: nat)
    requires k <= m <= |docs|
    requires forall i :: k <= i < m ==> "content" in docs[i]
    requires m < |docs| ==> "content" !in docs[m]
    ensures FirstMissing(docs, k) == m
    decreases m - k
  {
    if k < m {
      FirstMissingAt(docs, k + 1, m);
    }
  }

  // ----- Local ranking -----

  /** `order` is what `np.argsort(xs)` may return: a permutation of the positions that sorts `xs` ascending. */
  predicate IsArgsort(order: seq<nat>, xs: seq<real>) {
    && |order| == |xs|
    && (forall p :: 0 <= p < |order| ==> order[p] < |xs|)
    && (forall i :: 0 <= i < |xs| ==> i in order)
    && (forall p, q :: 0 <= p < q < |order| ==> xs[order[p]] <= xs[order[q]])
  }

  /** `order[-top_k:][::-1]`: the last `top_k` positions of `order`, last first. */
  function TopIndices(order: seq<nat>, topK: int): (top: seq<nat>)
    ensures |top| == |order| - SliceIndex(|order|, -topK)
    ensures forall j :: 0 <= j < |top| ==> top[j] == order[|order| - 1 - j]
  {
    Reverse(Suffix(order, -topK))
  }

  /** The similarity of the query embedding to every chunk embedding. */
  function Similarities(query: seq<real>, embeddings: seq<seq<real>>,
                        cosine: (seq<real>, seq<real>) -> real): (sims: seq<real>)
    ensures |sims| == |embeddings|
    ensures forall i :: 0 <= i < |embeddings| ==> sims[i] == cosine(query, embeddings[i])
  {
    seq(|embeddings|, i requires 0 <= i < |embeddings| => cosine(query, embeddings[i]))
  }

  /** A result of scored retrieval: `{'text', 'score', 'rank', 'source'}`. */
  datatype Scored = Scored(text: string, score: real, rank: nat, source: string)

  /** What `_retrieve_local_with_scores` returns for the similarities `sims` and their argsort `order`. */
  function LocalResults(entries: seq<ChunkEntry>, sims: seq<real>, order: seq<nat>, topK: int): seq<Scored>
    requires |sims| == |entries| && IsArgsort(order, sims)
  {
    var top := TopIndices(order, topK);
    seq(|top|, j requires 0 <= j < |top| =>
      Scored(entries[top[j]].text, sims[top[j]], j + 1, entries[top[j]].filename))
  }

  /** What `_retrieve_local` returns: the texts of the top positions. */
  function LocalTexts(entries: seq<ChunkEntry>, order: seq<nat>, topK: int): seq<string>
    requires forall p :: 0 <= p < |order| ==> order[p] < |entries|
  {
    var top := TopIndices(order, topK);
    seq(|top|, j requires 0 <= j < |top| => entries[top[j]].text)
  }

  /** `r['text']` of a result; `[r['text'] for r in results]` is `Map(results, ScoredText)`. */
  function ScoredText(r: Scored): string { r.text }

  /**
   * Local scored retrieval returns `min(top_k, n)` results for `top_k >= 1` and all `n`
   * for `top_k == 0`; the ranks count up from 1, the scores do not increase, and every
   * result is a chunk with its own similarity.
   */
  lemma LocalResultsShape(entries: seq<ChunkEntry>, sims: seq<real>, order: seq<nat>, topK: int)
    requires |sims| == |entries| && IsArgsort(order, sims)
    ensures var rs := LocalResults(entries, sims, order, topK);
      && (topK >= 1 ==> |rs| == Min(topK, |entries|))
      && (topK == 0 ==> |rs| == |entries|)
      && (forall j :: 0 <= j < |rs| ==> rs[j].rank == j + 1)
      && (forall j, j' :: 0 <= j < j' < |rs| ==> rs[j].score >= rs[j'].score)
      && (forall j :: 0 <= j < |rs| ==> RankedChunk(entries, sims, rs[j], j + 1))
  {
    var rs := LocalResults(entries, sims, order, topK);
    var top := TopIndices(order, topK);
    var n := |order|;
    forall j, j' | 0 <= j < j' < |rs| ensures rs[j].score >= rs[j'].score {
      assert sims[order[n - 1 - j']] <= sims[order[n - 1 - j]];
    }
    forall j | 0 <= j < |rs| ensures RankedChunk(entries, sims, rs[j], j + 1) {
      LocalResultFrom(entries, sims, order, topK, j);
    }
  }

  /** `r` is some chunk, with that chunk's similarity, at rank `rank`. */
  predicate RankedChunk(entries: seq<ChunkEntry>, sims: seq<real>, r: Scored, rank: nat)
    requires |sims| == |entries|
  {
    exists i :: 0 <= i < |entries| && r == Scored(entries[i].text, sims[i], rank, entries[i].filename)
  }

  /** Result `j` of local scored retrieval is chunk `top[j]` with its similarity. */
  lemma LocalResultFrom(entries: seq<ChunkEntry>, sims: seq<real>, order: seq<nat>, topK: int, j: nat)
    requires |sims| == |entries| && IsArgsort(order, sims)
    requires j < |LocalResults(entries, sims, order, topK)|
    ensures var i := TopIndices(order, topK)[j];
      && i < |entries|
      && LocalResults(entries, sims, order, topK)[j] == Scored(entries[i].text, sims[i], j + 1, entries[i].filename)
  {
  }

  /** The local results are the top ones: no chunk left out has a higher similarity than one returned. */
  lemma LocalResultsTop(entries: seq<ChunkEntry>, sims: seq<real>, order: seq<nat>, topK: int,
                        i: nat, j: nat)
    requires |sims| == |entries| && IsArgsort(order, sims)
    requires i < |sims| && i !in TopIndices(order, topK)
    requires j < |LocalResults(entries, sims, order, topK)|
    ensures sims[i] <= LocalResults(entries, sims, order, topK)[j].score
  {
    var n := |order|;
    var top := TopIndices(order, topK);
    assert i in order;
    var p :| 0 <= p < n && order[p] == i;
    TopPositions(order, topK, p);
    assert sims[order[p]] <= sims[order[n - 1 - j]];
  }

  /** The positions of `order` from `n - |top|` on are exactly the ones taken. */
  lemma TopPositions(order: seq<nat>, topK: int, p: nat)
    requires p < |order|
    ensures p >= |order| - |TopIndices(order, topK)| ==> order[p] in TopIndices(order, topK)
  {
    var top := TopIndices(order, topK);
    if p >= |order| - |top| {
      assert top[|order| - 1 - p] == order[p];
    }
  }

  /** The plain local retrieval returns the texts of the scored one. */
  lemma LocalTextsAreScored(entries: seq<ChunkEntry>, sims: seq<real>, order: seq<nat>, topK: int)
    requires |sims| == |entries| && IsArgsort(order, sims)
    ensures LocalTexts(entries, order, topK) == Map(LocalResults(entries, sims, order, topK), ScoredText)
  {
  }

  // ----- Elasticsearch result assembly -----

  /** The `chunks` field of a hit's `_source`: missing, a list, or a single value. */
  datatype ChunksField = NoChunks | ChunkList(items: seq<string>) | ChunkValue(value: string)

  /** A search hit: the fields of its `_source` and its `_score`. */
  datatype Hit = Hit(chunks: ChunksField, content: Option<string>, filename: Option<string>, score: real)

  /** `'chunks' in doc and doc['chunks']`: present and not empty. */
  predicate HasChunks(f: ChunksField) {
    match f
    case NoChunks => false
    case ChunkList(items) => items != []
    case ChunkValue(v) => v != []
  }

  /**
   * The texts one hit contributes: at most `top_k` of its listed chunks, its single chunk,
   * or the first two paragraph chunks of its `content`; `None` when it has neither chunks
   * nor `content`, the `KeyError` that the `except` turns into an empty result.
   */
  function HitTexts(h: Hit, topK: int): Option<seq<string>> {
    if HasChunks(h.chunks) then
      (if h.chunks.ChunkList? then Some(Prefix(h.chunks.items, topK)) else Some([h.chunks.value]))
    else if h.content.Some? then Some(Prefix(ParagraphChunks(h.content.value, DefaultChunkSize), 2))
    else None
  }

  /** The per-hit caps: `top_k` listed chunks, one single chunk, two paragraph chunks. */
  lemma HitTextsCaps(h: Hit, topK: int)
    requires HitTexts(h, topK).Some?
    ensures var ts := HitTexts(h, topK).value;
      && (HasChunks(h.chunks) && h.chunks.ChunkList? && topK >= 0 ==>
            |ts| <= topK && ts == h.chunks.items[..|ts|])
      && (HasChunks(h.chunks) && h.chunks.ChunkValue? ==> ts == [h.chunks.value])
      && (!HasChunks(h.chunks) ==>
            |ts| <= 2 && ts == ParagraphChunks(h.content.value, DefaultChunkSize)[..|ts|])
  {
  }

  /** `min(score / 10.0, 1.0)` */
  function Normalize(score: real): real {
    if score / 10.0 <= 1.0 then score / 10.0 else 1.0
  }

  /** Normalised scores never exceed 1, and a score up to 10 is divided by 10. */
  lemma NormalizeSpec(score: real)
    ensures Normalize(score) <= 1.0
    ensures score <= 10.0 ==> Normalize(score) == score / 10.0
    ensures score >= 10.0 ==> Normalize(score) == 1.0
  {
  }

  /** A result before it is ranked. */
  datatype Candidate = Candidate(text: string, score: real, source: string)

  /** The texts of one hit, all with the hit's score and filename. */
  function Cands(texts: seq<string>, score: real, source: string): (cs: seq<Candidate>)
    ensures |cs| == |texts|
    ensures forall j :: 0 <= j < |texts| ==> cs[j] == Candidate(texts[j], score, source)
  {
    seq(|texts|, j requires 0 <= j < |texts| => Candidate(texts[j], score, source))
  }

  function HitCands(h: Hit, texts: seq<string>): seq<Candidate> {
    Cands(texts, Normalize(h.score), h.filename.GetOr("unknown"))
  }

  /** The candidates of the hits in order, or `None` when one of them fails. */
  function Candidates(hits: seq<Hit>, topK: int): Option<seq<Candidate>>
    decreases |hits|
  {
    if hits == [] then Some([])
    else
      var last := hits[|hits| - 1];
      match Candidates(hits[..|hits| - 1], topK)
      case None => None
      case Some(cs) =>
        match HitTexts(last, topK)
        case None => None
        case Some(ts) => Some(cs + HitCands(last, ts))
  }

  /** Ranks by position: `rank = len(results) + 1` at the time of the append. */
  function Ranked(cs: seq<Candidate>): (rs: seq<Scored>)
    ensures |rs| == |cs|
    ensures forall j :: 0 <= j < |cs| ==> rs[j] == Scored(cs[j].text, cs[j].score, j + 1, cs[j].source)
  {
    seq(|cs|, j requires 0 <= j < |cs| => Scored(cs[j].text, cs[j].score, j + 1, cs[j].source))
  }

  /** What `_retrieve_elasticsearch_with_scores` returns for the search response (`None`: the search raised). */
  function EsResults(response: Option<seq<Hit>>, topK: int): seq<Scored> {
    if response.None? then []
    else
      match Candidates(response.value, topK)
      case None => []
      case Some(cs) => Prefix(Ranked(cs), topK)
  }

  /** The texts of the hits in order, or `None` when one of them fails. */
  function HitsTexts(hits: seq<Hit>, topK: int): Option<seq<string>>
    decreases |hits|
  {
    if hits == [] then Some([])
    else
      match HitsTexts(hits[..|hits| - 1], topK)
      case None => None
      case Some(ts) =>
        match HitTexts(hits[|hits| - 1], topK)
        case None => None
        case Some(more) => Some(ts + more)
  }

  /** What `_retrieve_elasticsearch` returns for the search response. */
  function EsTexts(response: Option<seq<Hit>>, topK: int): seq<string> {
    if response.None? then []
    else
      match HitsTexts(response.value, topK)
      case None => []
      case Some(ts) => Prefix(ts, topK)
  }

  /** The text of a candidate. */
  function CandText(c: Candidate): string { c.text }

  lemma {:induction false} HitsTextsAreCandidates(hits: seq<Hit>, topK: int)
    ensures HitsTexts(hits, topK).Some? <==> Candidates(hits, topK).Some?
    ensures HitsTexts(hits, topK).Some? ==>
      HitsTexts(hits, topK).value == Map(Candidates(hits, topK).value, CandText)
    decreases |hits|
  {
    if hits != [] {
      var front := hits[..|hits| - 1];
      HitsTextsAreCandidates(front, topK);
      var last := hits[|hits| - 1];
      if Candidates(front, topK).Some? && HitTexts(last, topK).Some? {
        var cs := Candidates(front, topK).value;
        var ts := HitTexts(last, topK).value;
        assert Map(cs + HitCands(last, ts), CandText) == Map(cs, CandText) + ts;
      }
    }
  }

  /** The plain Elasticsearch retrieval returns the texts of the scored one. */
  lemma EsTextsAreScored(response: Option<seq<Hit>>, topK: int)
    ensures EsTexts(response, topK) == Map(EsResults(response, topK), ScoredText)
  {
    if response.Some? {
      HitsTextsAreCandidates(response.value, topK);
    }
  }

  /**
   * Scored Elasticsearch retrieval returns at most `top_k` results, ranked 1, 2, ... in
   * append order, each with a normalised score of at most 1.
   */
  lemma EsResultsShape(response: Option<seq<Hit>>, topK: int)
    ensures var rs := EsResults(response, topK);
      && (topK >= 0 ==> |rs| <= topK)
      && (topK == 0 ==> rs == [])
      && (forall j :: 0 <= j < |rs| ==> rs[j].rank == j + 1)
      && (forall j :: 0 <= j < |rs| ==> rs[j].score <= 1.0)
  {
    if response.Some? && Candidates(response.value, topK).Some? {
      CandidateScores(response.value, topK);
    }
  }

  /** Every candidate carries the normalised score of some hit. */
  lemma {:induction false} CandidateScores(hits: seq<Hit>, topK: int)
    requires Candidates(hits, topK).Some?
    ensures forall j :: 0 <= j < |Candidates(hits, topK).value| ==>
      exists i :: 0 <= i < |hits| && Candidates(hits, topK).value[j].score == Normalize(hits[i].score)
    ensures forall j :: 0 <= j < |Candidates(hits, topK).value| ==>
      Candidates(hits, topK).value[j].score <= 1.0
    decreases |hits|
  {
    if hits != [] {
      var front := hits[..|hits| - 1];
      var last := hits[|hits| - 1];
      CandidateScores(front, topK);
      var cs := Candidates(front, topK).value;
      var all := Candidates(hits, topK).value;
      var ts := HitTexts(last, topK).value;
      assert all == cs + HitCands(last, ts);
      NormalizeSpec(last.score);
      forall j | 0 <= j < |all| ensures
        exists i :: 0 <= i < |hits| && all[j].score == Normalize(hits[i].score)
      {
        if j < |cs| {
          var i :| 0 <= i < |front| && cs[j].score == Normalize(front[i].score);
          assert front[i] == hits[i];
        } else {
          assert all[j].score == Normalize(hits[|hits| - 1].score);
        }
      }
      forall j | 0 <= j < |all| ensures all[j].score <= 1.0 {
        if j < |cs| {
          var i :| 0 <= i < |front| && cs[j].score == Normalize(front[i].score);
          NormalizeSpec(front[i].score);
        }
      }
    }
  }

  /** A later failure makes the whole hit list fail. */
  lemma {:induction false} CandidatesFailLater(hits: seq<Hit>, i: nat, k: nat, topK: int)
    requires i <= k <= |hits| && Candidates(hits[..i], topK).None?
    ensures Candidates(hits[..k], topK).None?
    decreases k - i
  {
    if i < k {
      CandidatesFailLater(hits, i, k - 1, topK);
      assert hits[..k][..k - 1] == hits[..k - 1];
    }
  }

  /** A hit with neither chunks nor `content` makes the whole search return `[]`. */
  lemma EsHitWithoutContent(hits: seq<Hit>, i: nat, topK: int)
    requires i < |hits| && HitTexts(hits[i], topK).None?
    ensures EsResults(Some(hits), topK) == []
  {
    assert hits[..i + 1][..i] == hits[..i];
    assert hits[..i + 1][i] == hits[i];
    CandidatesFailLater(hits, i + 1, |hits|, topK);
    assert hits[..|hits|] == hits;
  }

  lemma CandidatesStep(hits: seq<Hit>, i: nat, topK: int, cs: seq<Candidate>, ts: seq<string>)
    requires i < |hits| && Candidates(hits[..i], topK) == Some(cs)
    requires HitTexts(hits[i], topK) == Some(ts)
    ensures Candidates(hits[..i + 1], topK) == Some(cs + HitCands(hits[i], ts))
  {
    assert hits[..i + 1][..i] == hits[..i];
  }

  lemma HitsTextsStep(hits: seq<Hit>, i: nat, topK: int, acc: seq<string>, ts: seq<string>)
    requires i < |hits| && HitsTexts(hits[..i], topK) == Some(acc)
    requires HitTexts(hits[i], topK) == Some(ts)
    ensures HitsTexts(hits[..i + 1], topK) == Some(acc + ts)
  {
    assert hits[..i + 1][..i] == hits[..i];
  }

  lemma {:induction false} HitsTextsFailLater(hits: seq<Hit>, i: nat, k: nat, topK: int)
    requires i <= k <= |hits| && HitsTexts(hits[..i], topK).None?
    ensures HitsTexts(hits[..k], topK).None?
    decreases k - i
  {
    if i < k {
      HitsTextsFailLater(hits, i, k - 1, topK);
      assert hits[..k][..k - 1] == hits[..k - 1];
    }
  }

  /** Appending the ranked results of one hit. */
  method AppendRanked(results: seq<Scored>, ghost cs: seq<Candidate>, texts: seq<string>,
                      score: real, source: string) returns (r: seq<Scored>)
    requires results == Ranked(cs)
    ensures r == Ranked(cs + Cands(texts, score, source))
  {
    r := results;
    for j := 0 to |texts|
      invariant r == Ranked(cs + Cands(texts[..j], score, source))
    {
      assert Cands(texts[..j + 1], score, source) == Cands(texts[..j], score, source) + [Candidate(texts[j], score, source)];
      assert cs + Cands(texts[..j + 1], score, source) == (cs + Cands(texts[..j], score, source)) + [Candidate(texts[j], score, source)];
      r := r + [Scored(texts[j], score, |r| + 1, source)];
    }
    assert texts[..|texts|] == texts;
  }

  // ----- The retriever -----

  /**
   * The batch encoder the retriever is given returns one vector per text. The
   * source calls `encode_batch` without any class defining it, so this is an
   * assumption about the encoder, not something the source promises.
   */
  ghost predicate OnePerText(encodeBatch: seq<string> -> seq<seq<real>>) {
    forall ts :: |encodeBatch(ts)| == |ts|
  }

  class DocumentRetriever {
    var topK: int
    var useElasticsearch: bool
    var esIndex: Option<string>
    var documents: Option<seq<Document>>
    var chunks: seq<ChunkEntry>
    var chunkEmbeddings: seq<seq<real>>

    /** The field assignments and the mode choice at the head of `__init__`. */
    constructor (topK: int, esClient: Option<EsProbe>, esIndex: Option<string>,
                 documents: Option<seq<Document>>)
      ensures this.topK == topK && this.esIndex == esIndex && this.documents == documents
      ensures useElasticsearch == UsesElasticsearch(esClient, esIndex)
      ensures chunks == [] && chunkEmbeddings == []
    {
      this.topK := topK;
      this.esIndex := esIndex;
      this.documents := documents;
      useElasticsearch := esClient.Some? && esIndex.Some?;
      chunks := [];
      chunkEmbeddings := [];
    }

    /** `_init_local`: split every document into chunks and embed all chunk texts in one batch. */
    method InitLocal(encodeBatch: seq<string> -> seq<seq<real>>) returns (err: Option<InitError>)
      requires OnePerText(encodeBatch)
      modifies this
      ensures topK == old(topK) && useElasticsearch == old(useElasticsearch)
      ensures esIndex == old(esIndex) && documents == old(documents)
      ensures err == LocalCheck(documents)
      ensures err == None ==> AllHaveContent(documents.value)
      ensures err == None ==> chunks == LocalEntries(documents.value)
      ensures err == None ==> chunkEmbeddings == encodeBatch(Map(chunks, EntryText))
      ensures err == None ==> |chunkEmbeddings| == |chunks|
    {
      if documents.None? || documents.value == [] {
        return Some(NoDocuments);
      }
      err := IndexDocuments(documents.value);
      if err.None? {
        var chunkTexts := Map(chunks, EntryText);
        chunkEmbeddings := encodeBatch(chunkTexts);
      }
    }

    /** The document loop of `_init_local`: chunk every document, failing at the first without `content`. */
    method IndexDocuments(docs: seq<Document>) returns (err: Option<InitError>)
      modifies this
      ensures topK == old(topK) && useElasticsearch == old(useElasticsearch)
      ensures esIndex == old(esIndex) && documents == old(documents)
      ensures err == (if FirstMissing(docs, 0) < |docs| then Some(MissingContent(FirstMissing(docs, 0))) else None)
      ensures err == None ==> AllHaveContent(docs) && chunks == LocalEntries(docs)
    {
      chunks := [];
      for i := 0 to |docs|
        invariant documents == old(documents) && topK == old(topK)
        invariant useElasticsearch == old(useElasticsearch) && esIndex == old(esIndex)
        invariant AllHaveContent(docs[..i])
        invariant chunks == LocalEntries(docs[..i])
      {
        if "content" !in docs[i] {
          PrefixContent(docs, i);
          FirstMissingAt(docs, 0, i);
          return Some(MissingContent(i));
        }
        AddDocument(docs, i);
      }
      assert docs[..|docs|] == docs;
      PrefixContent(docs, |docs|);
      FirstMissingAt(docs, 0, |docs|);
      err := None;
    }

    /** One pass of the document loop of `_init_local`: split the document and append its entries. */
    method AddDocument(docs: seq<Document>, i: nat)
      requires i < |docs| && AllHaveContent(docs[..i]) && "content" in docs[i]
      requires chunks == LocalEntries(docs[..i])
      modifies this
      ensures AllHaveContent(docs[..i + 1])
      ensures chunks == LocalEntries(docs[..i + 1])
      ensures topK == old(topK) && useElasticsearch == old(useElasticsearch)
      ensures esIndex == old(esIndex) && documents == old(documents)
    {
      var doc := docs[i];
      var docChunks := SplitParagraphChunks(doc["content"], DefaultChunkSize, 50);
      AddChunks(docChunks, doc);
      LocalEntriesStep(docs, i);
    }

    /** The inner loop of `_init_local`: one entry per chunk of `doc`, appended to `self.chunks`. */
    method AddChunks(docChunks: seq<string>, doc: Document)
      modifies this
      ensures chunks == old(chunks) + Tag(docChunks, doc)
      ensures topK == old(topK) && useElasticsearch == old(useElasticsearch)
      ensures esIndex == old(esIndex) && documents == old(documents)
      ensures chunkEmbeddings == old(chunkEmbeddings)
    {
      for j := 0 to |docChunks|
        invariant chunks == old(chunks) + Tag(docChunks[..j], doc)
        invariant topK == old(topK) && useElasticsearch == old(useElasticsearch)
        invariant esIndex == old(esIndex) && documents == old(documents)
        invariant chunkEmbeddings == old(chunkEmbeddings)
      {
        TagStep(old(chunks), docChunks, j, doc);
        chunks := chunks + [ChunkEntry(docChunks[j], FileName(doc), doc)];
      }
      assert docChunks[..|docChunks|] == docChunks;
    }

    /** The similarity loop of both local retrieval methods. */
    method ComputeSimilarities(queryEmbedding: seq<real>, cosine: (seq<real>, seq<real>) -> real)
      returns (similarities: seq<real>)
      ensures similarities == Similarities(queryEmbedding, chunkEmbeddings, cosine)
    {
      similarities := [];
      for i := 0 to |chunkEmbeddings|
        invariant similarities == Similarities(queryEmbedding, chunkEmbeddings[..i], cosine)
      {
        assert chunkEmbeddings[..i + 1] == chunkEmbeddings[..i] + [chunkEmbeddings[i]];
        similarities := similarities + [cosine(queryEmbedding, chunkEmbeddings[i])];
      }
      assert chunkEmbeddings[..|chunkEmbeddings|] == chunkEmbeddings;
    }

    /** `_retrieve_local_with_scores` */
    method RetrieveLocalWithScores(query: string, encode: string -> seq<real>,
                                   cosine: (seq<real>, seq<real>) -> real,
                                   argsort: seq<real> -> seq<nat>) returns (results: seq<Scored>)
      requires |chunkEmbeddings| == |chunks|
      requires var s := Similarities(encode(query), chunkEmbeddings, cosine); IsArgsort(argsort(s), s)
      ensures var s := Similarities(encode(query), chunkEmbeddings, cosine);
        results == LocalResults(chunks, s, argsort(s), topK)
    {
      var queryEmbedding := encode(query);
      var similarities := ComputeSimilarities(queryEmbedding, cosine);
      var topIndices := TopIndices(argsort(similarities), topK);
      ghost var all := LocalResults(chunks, similarities, argsort(similarities), topK);
      results := [];
      for j := 0 to |topIndices|
        invariant results == all[..j]
      {
        var rank := j + 1;
        var idx := topIndices[j];
        var chunkText := chunks[idx].text;
        var score := similarities[idx];
        var source := chunks[idx].filename;
        results := results + [Scored(chunkText, score, rank, source)];
      }
    }

    /** `_retrieve_local` */
    method RetrieveLocal(query: string, encode: string -> seq<real>,
                         cosine: (seq<real>, seq<real>) -> real,
                         argsort: seq<real> -> seq<nat>) returns (texts: seq<string>)
      requires |chunkEmbeddings| == |chunks|
      requires var s := Similarities(encode(query), chunkEmbeddings, cosine); IsArgsort(argsort(s), s)
      ensures var s := Similarities(encode(query), chunkEmbeddings, cosine);
        texts == LocalTexts(chunks, argsort(s), topK)
    {
      var queryEmbedding := encode(query);
      var similarities := ComputeSimilarities(queryEmbedding, cosine);
      var topIndices := TopIndices(argsort(similarities), topK);
      var entries := chunks;
      texts := seq(|topIndices|, j requires 0 <= j < |topIndices| => entries[topIndices[j]].text);
    }

    /** `_retrieve_elasticsearch_with_scores`, with the search asked for `top_k * 2` hits. */
    method RetrieveElasticsearchWithScores(query: string, search: (string, int) -> Option<seq<Hit>>)
      returns (results: seq<Scored>)
      ensures results == EsResults(search(query, topK * 2), topK)
    {
      var response := search(query, topK * 2);
      if response.None? {
        return [];
      }
      var hits := response.value;
      results := [];
      ghost var cs: seq<Candidate> := [];
      for i := 0 to |hits|
        invariant Candidates(hits[..i], topK) == Some(cs)
        invariant results == Ranked(cs)
      {
        var hit := hits[i];
        var normalizedScore := Normalize(hit.score);
        var source := hit.filename.GetOr("unknown");
        var texts: seq<string>;
        if HasChunks(hit.chunks) {
          if hit.chunks.ChunkList? {
            texts := Prefix(hit.chunks.items, topK);
            results := AppendRanked(results, cs, texts, normalizedScore, source);
          } else {
            texts := [hit.chunks.value];
            assert Ranked(cs + Cands(texts, normalizedScore, source))
                == Ranked(cs) + [Scored(hit.chunks.value, normalizedScore, |results| + 1, source)];
            results := results + [Scored(hit.chunks.value, normalizedScore, |results| + 1, source)];
          }
        } else {
          if hit.content.None? {
            EsHitWithoutContent(hits, i, topK);
            return [];
          }
          var docChunks := SplitParagraphChunks(hit.content.value, DefaultChunkSize, 50);
          texts := Prefix(docChunks, 2);
          results := AppendRanked(results, cs, texts, normalizedScore, source);
        }
        CandidatesStep(hits, i, topK, cs, texts);
        cs := cs + HitCands(hit, texts);
      }
      assert hits[..|hits|] == hits;
      results := Prefix(results, topK);
    }

    /** `_retrieve_elasticsearch`, with the search asked for `top_k * 2` hits. */
    method RetrieveElasticsearch(query: string, search: (string, int) -> Option<seq<Hit>>)
      returns (texts: seq<string>)
      ensures texts == EsTexts(search(query, topK * 2), topK)
    {
      var response := search(query, topK * 2);
      if response.None? {
        return [];
      }
      var hits := response.value;
      texts := [];
      for i := 0 to |hits|
        invariant HitsTexts(hits[..i], topK) == Some(texts)
      {
        var doc := hits[i];
        if HasChunks(doc.chunks) {
          if doc.chunks.ChunkList? {
            HitsTextsStep(hits, i, topK, texts, Prefix(doc.chunks.items, topK));
            texts := texts + Prefix(doc.chunks.items, topK);
          } else {
            HitsTextsStep(hits, i, topK, texts, [doc.chunks.value]);
            texts := texts + [doc.chunks.value];
          }
        } else {
          if doc.content.None? {
            assert hits[..i + 1][..i] == hits[..i];
            HitsTextsFailLater(hits, i + 1, |hits|, topK);
            assert hits[..|hits|] == hits;
            return [];
          }
          var docChunks := SplitParagraphChunks(doc.content.value, DefaultChunkSize, 50);
          HitsTextsStep(hits, i, topK, texts, Prefix(docChunks, 2));
          texts := texts + Prefix(docChunks, 2);
        }
      }
      assert hits[..|hits|] == hits;
      texts := Prefix(texts, topK);
    }

    /** `retrieve`: the mode taken at construction picks the path. */
    method Retrieve(query: string, encode: string -> seq<real>,
                    cosine: (seq<real>, seq<real>) -> real, argsort: seq<real> -> seq<nat>,
                    search: (string, int) -> Option<seq<Hit>>) returns (texts: seq<string>)
      requires !useElasticsearch ==> |chunkEmbeddings| == |chunks|
      requires !useElasticsearch ==>
        var s := Similarities(encode(query), chunkEmbeddings, cosine); IsArgsort(argsort(s), s)
      ensures useElasticsearch ==> texts == EsTexts(search(query, topK * 2), topK)
      ensures !useElasticsearch ==>
        var s := Similarities(encode(query), chunkEmbeddings, cosine);
        texts == LocalTexts(chunks, argsort(s), topK)
    {
      if useElasticsearch {
        texts := RetrieveElasticsearch(query, search);
      } else {
        texts := RetrieveLocal(query, encode, cosine, argsort);
      }
    }

    /** `retrieve_with_scores`: the mode taken at construction picks the path. */
    method RetrieveWithScores(query: string, encode: string -> seq<real>,
                              cosine: (seq<real>, seq<real>) -> real, argsort: seq<real> -> seq<nat>,
                              search: (string, int) -> Option<seq<Hit>>) returns (results: seq<Scored>)
      requires !useElasticsearch ==> |chunkEmbeddings| == |chunks|
      requires !useElasticsearch ==>
        var s := Similarities(encode(query), chunkEmbeddings, cosine); IsArgsort(argsort(s), s)
      ensures useElasticsearch ==> results == EsResults(search(query, topK * 2), topK)
      ensures !useElasticsearch ==>
        var s := Similarities(encode(query), chunkEmbeddings, cosine);
        results == LocalResults(chunks, s, argsort(s), topK)
    {
      if useElasticsearch {
        results := RetrieveElasticsearchWithScores(query, search);
      } else {
        results := RetrieveLocalWithScores(query, encode, cosine, argsort);
      }
    }
  }

  /**
   * `DocumentRetriever(...)`: construction either raises the error `InitOutcome` names or
   * yields a retriever in the chosen mode, whose local index is built from the documents.
   */
  method NewRetriever(topK: int, esClient: Option<EsProbe>, esIndex: Option<string>,
                      documents: Option<seq<Document>>, encodeBatch: seq<string> -> seq<seq<real>>)
    returns (r: Result<DocumentRetriever, InitError>)
    requires OnePerText(encodeBatch)
    ensures r.Failure? <==> InitOutcome(esClient, esIndex, documents).Some?
    ensures r.Failure? ==> r.error == InitOutcome(esClient, esIndex, documents).value
    ensures r.Success? ==> fresh(r.value) && r.value.topK == topK
    ensures r.Success? ==> r.value.useElasticsearch == UsesElasticsearch(esClient, esIndex)
    ensures r.Success? && !r.value.useElasticsearch ==>
      && documents.Some? && AllHaveContent(documents.value)
      && r.value.chunks == LocalEntries(documents.value)
      && r.value.chunkEmbeddings == encodeBatch(Map(r.value.chunks, EntryText))
      && |r.value.chunkEmbeddings| == |r.value.chunks|
  {
    var retriever := new DocumentRetriever(topK, esClient, esIndex, documents);
    var err: Option<InitError>;
    if retriever.useElasticsearch {
      err := EsCheck(esClient.value, esIndex.value);
    } else {
      err := retriever.InitLocal(encodeBatch);
    }
    if err.Some? {
      r := Failure(err.value);
    } else {
      r := Success(retriever);
    }
  }
}
