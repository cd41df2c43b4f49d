# A verified model of the TEST_LLM RAG evaluator

TEST_LLM checks how well a retrieval-augmented question-answering pipeline answers questions about a bank's product documents. It works in three stages:

- It loads documents, from a directory or an Elasticsearch index.
- It obtains question/answer pairs, from a JSON-lines file or by extracting them from the documents.
- For every question, it retrieves chunks of the documents, asks a local Ollama language model for an answer built from those chunks, and scores the answer against the expected one by embedding similarity.

It then writes an HTML report and prints summary statistics.

This project models the logic of that pipeline in Dafny and proves what the code promises about it. Network services, models and numeric libraries are left to parameters:

- chunking, both the loader's sliding windows and the retriever's paragraph packing;
- the retriever's choice of mode and its result ranking;
- the similarity gate;
- the report's aggregates, buckets, escaping and numbering;
- question extraction, selection and capping;
- the per-question evaluation loops and statistics;
- the RAG prompt;
- document loading and validation;
- Ollama host detection and client behaviour;
- the embedding-model registry and singleton.

## Layout

One module per source file. A few shared modules hold what several files use.

| module | models |
|---|---|
| `Wrappers` | `Option` and `Result`, the error paths |
| `Text` | Python `str` operations: whitespace, `strip`, `join`, `in`, `rstrip`, ASCII `lower` |
| `PySeq` | Python slicing with negative and oversized bounds, `[::-1]`, and collecting over a list |
| `Docs` | document dictionaries and `dict.get` |
| `Records` | evaluation records and their `retrieved_chunks` |
| `Chunker` | `load_to_elasticsearch.py` |
| `Paragraphs` | `DocumentRetriever._split_into_chunks` in `rag/retriever.py` |
| `Retriever` | the rest of `rag/retriever.py` |
| `Similarity` | `evaluate/similarity.py` |
| `Metrics` | `evaluate/metrics.py` |
| `Markdown` | `clean_markdown_text` in `evaluate/questions.py` |
| `Questions` | the rest of `evaluate/questions.py` |
| `Trials` | the per-question step and the statistics shared by the evaluator and `testmain.py` |
| `Evaluator` | `test_llm/package/evaluator.py` |
| `Testmain` | `testmain.py` |
| `Prompts` | `rag/prompts.py` |
| `Loader` | `test_llm/package/loader.py` |
| `OllamaDetector` | `package/ollama_detector.py` |
| `Ollama` | `test_llm/rag/ollama_client.py` |
| `Config` | `package/config.py` |

Imperative code is modelled as methods with loops, proved against specification functions. Objects whose fields change are classes:

- `DocumentRetriever`
- `RAGEvaluator`
- `OllamaClient`
- `ModelRegistry`
- `EmbeddingModel` and its singleton
- the similarity module's model cache

The code's substitutions with regular expressions are written as the specific scanners they amount to: leftmost, non-overlapping matches, with replaced text not scanned again.

Each request to a service is modelled as the result it produces, passed in as a function; Failure stands for a request that raised. The services are:

- HTTP requests;
- the Elasticsearch client;
- SentenceTransformer;
- `np.argsort`;
- the cosine formula;
- `random.sample`;
- file reads;
- `time.time()`.

The model constrains some of these functions with a precondition:

- `np.argsort` must return an ascending argsort of the similarities. Ties are left unspecified, as numpy leaves them.
- `random.sample(seq, k)` must return `k` distinct positions.
- The batch encoder `encode_batch` must return one vector per text (`Retriever.OnePerText`). No class in the source defines it.

Where the code and its documentation disagree, the model follows the code. Three cases:

- In local retrieval, `top_k = 0` returns every chunk, because `[-0:]` is the whole list. `Retriever.LocalResultsShape` states this.
- The `overlap` argument of `_split_into_chunks` is never read.
- `testmain.py` cuts the question list to a prefix, while the evaluator class samples it at random.

## Model

| member | source | states |
|---|---|---|
| Chunker.WindowsFrom | load_to_elasticsearch.py:70-80 | the loop visits windows exactly while `start < len(text)`; the first starts at `start`; every window is non-empty and ends within the text |
| Chunker.WindowSteps | load_to_elasticsearch.py:71-80 | every window but the last is a full `chunk_size` long and ends before the text does, and the next starts `overlap` before its end; no window is longer than `chunk_size` |
| Chunker.WindowStarts | load_to_elasticsearch.py:77 | window `i` starts `i * (chunk_size - overlap)` past the first: the loop advances by `chunk_size - overlap` |
| Chunker.LastWindowEnd | load_to_elasticsearch.py:71-80 | with `0 <= overlap` the last window ends exactly at the end of the text |
| Chunker.WindowsCover | load_to_elasticsearch.py:70-80 | with `0 <= overlap` every position of the text lies in some window: no gaps |
| Chunker.SplitIntoChunks | load_to_elasticsearch.py:64-82 | the while loop returns exactly the stripped, non-empty window texts, in window order |
| Chunker.SplitWith | load_to_elasticsearch.py:66-82 | the same loop for any per-window function, proved against the window sequence |
| Chunker.AddWindow | load_to_elasticsearch.py:71-80 | one pass: `end = min(start + chunk_size, len(text))`, the chunk added only when non-empty, and the loop stops exactly when `end == len(text)` or `end - overlap >= len(text)` |
| Chunker.LoopStep | load_to_elasticsearch.py:71-80 | the loop invariant (chunks so far followed by the chunks still to come is the result) survives one pass |
| Chunker.ChunksStep | load_to_elasticsearch.py:71-80 | the chunks from a window are its stripped text, if non-empty, followed by the chunks from `end - overlap` |
| Chunker.NoChunksPast | load_to_elasticsearch.py:70 | from a start at or past the end of the text no chunk is added |
| Chunker.ChunksStripped | load_to_elasticsearch.py:72-75 | every chunk is non-empty, has no surrounding whitespace, and is at most `chunk_size` long |
| Chunker.ShortText | load_to_elasticsearch.py:70-80 | a text no longer than `chunk_size` gives `[text.strip()]`, or nothing when that is empty |
| Chunker.BlankTextNoChunks | load_to_elasticsearch.py:72-75 | empty or all-whitespace text gives no chunk |
| Chunker.DropReadmes | load_to_elasticsearch.py:93 | keeps every file, with its multiplicity, except those whose lower-cased name is `readme.md`, and nothing else |
| Chunker.FindDocuments | load_to_elasticsearch.py:85-102 | a missing directory raises; otherwise the `*.txt` then `*.md` files without README.md, and an error exactly when none remain |
| Chunker.FileRecords | load_to_elasticsearch.py:152-159 | one record per (chunk, vector) pair: chunk `i` gets `chunk_id` `i + 1`, the file name, and `total_chunks` = the number of chunks |
| Chunker.IndexChunks | load_to_elasticsearch.py:152-161 | the inner loop indexes exactly those records, in order |
| Chunker.FirstUnreadable | load_to_elasticsearch.py:125-130 | the first file whose reading raises something other than UnicodeDecodeError, every earlier one readable |
| Chunker.FirstUnreadableAt | load_to_elasticsearch.py:125-130 | a readable prefix stopped by an unreadable file fixes where the loop raises |
| Chunker.LoadedStep | load_to_elasticsearch.py:122-164 | one more file adds its records after the others' and adds 1, its chunk count and its length to the totals when it decodes, nothing when it does not |
| Chunker.LoadDocumentsWithVectors | load_to_elasticsearch.py:105-174 | the indexed records are those of all files before the first unreadable one; the totals are reached exactly when every file is readable, and then count decoded files, their chunks and their characters |
| Chunker.LoadWith | load_to_elasticsearch.py:118-164 | the loading loop, for any per-window function, proved against the record and totals functions |
| Chunker.AddFile | load_to_elasticsearch.py:125-164 | the loop body keeps the invariant: records and totals of the files read so far |
| Chunker.LoadFile | load_to_elasticsearch.py:125-164 | a decoded file contributes its records, one document, its chunks and its characters; an undecodable one is skipped and adds nothing |
| Chunker.AllChunksIndexed | load_to_elasticsearch.py:144-164 | with one vector per chunk, the number of indexed records equals the total chunk count |
| Paragraphs.SplitFrom | rag/retriever.py:109 | `str.split("\n\n")` scanning from a position: never an empty list of parts |
| Paragraphs.SplitFromNoBreak | rag/retriever.py:109 | when no separator starts in the scanned region before the scan position, no part holds the separator |
| Paragraphs.SplitFromJoin | rag/retriever.py:109 | the parts `str.split("\n\n")` gives from any scan position join back, with the separator, to the rest of the text |
| Paragraphs.SplitPartsSpec | rag/retriever.py:109 | `text.split("\n\n")` is Python's split: its parts joined by `"\n\n"` are the text, no part contains the separator, and every part but the last ends at the leftmost separator (the part followed by `"\n"` holds no separator yet) |
| Paragraphs.StripAll | rag/retriever.py:109 | `[p.strip() for p in parts]`: one stripped entry per part, in order |
| Paragraphs.ParagraphsSpec | rag/retriever.py:109 | the paragraphs are exactly the stripped parts that are non-empty, in text order, none left out; each is non-empty and stripped |
| Paragraphs.JoinClean | rag/retriever.py:117-128 | a run of stripped non-empty paragraphs joined by blank lines is non-empty, stripped, and at least as long as its first paragraph |
| Paragraphs.StripCurrent | rag/retriever.py:117-128 | stripping the accumulated chunk (which ends in `"\n\n"`) gives the run's paragraphs joined by blank lines |
| Paragraphs.SplitParagraphChunks | rag/retriever.py:96-130 | the packing loop returns the greedy grouping of the paragraphs, each group joined by blank lines; the `overlap` argument has no effect |
| Paragraphs.PackParagraph | rag/retriever.py:114-124 | one pass of the loop keeps the packing invariant: the chunks emitted so far plus the current one are a prefix of the greedy grouping |
| Paragraphs.PackStep | rag/retriever.py:116-124 | either branch of the `len(current_chunk) + len(paragraph) <= chunk_size` test preserves the packing invariant |
| Paragraphs.PackDone | rag/retriever.py:126-130 | emitting the last non-empty current chunk completes the greedy grouping |
| Paragraphs.GroupsFlatten | rag/retriever.py:114-128 | the groups, concatenated, are exactly the paragraphs: nothing is lost, duplicated or reordered |
| Paragraphs.RunEndSpec | rag/retriever.py:116 | a run of several paragraphs fits within `chunk_size`, and the next paragraph would not have fitted (counting the two separator characters) |
| Paragraphs.GroupShape | rag/retriever.py:116-124 | every chunk holds at least one paragraph; a chunk of two or more paragraphs is at most `chunk_size` long; a chunk is cut only where the next paragraph does not fit |
| Paragraphs.ChunksClean | rag/retriever.py:121-128 | every returned chunk is non-empty and stripped |
| Paragraphs.GroupClean | rag/retriever.py:114-128 | every group is made of stripped non-empty paragraphs |
| Paragraphs.OversizedAlone | rag/retriever.py:118-124 | a paragraph longer than `chunk_size` forms a chunk on its own |
| Paragraphs.JoinPartLength | rag/retriever.py:117 | a paragraph is never longer than the chunk it is joined into |
| Retriever.FirstMissing | rag/retriever.py:79-80 | the position of the first document without `content` (where `doc['content']` raises a KeyError), or the length when every document has one |
| Retriever.FirstMissingAt | rag/retriever.py:79-80 | a position preceded only by documents with `content` and holding one without is the first missing one |
| Retriever.ModeChoice | rag/retriever.py:37-72 | Elasticsearch mode is taken exactly when client and index are both given and then ignores the documents; it succeeds exactly when the ping, the index check and a non-zero count all pass; local mode without documents raises |
| Retriever.Tag | rag/retriever.py:81-86 | one entry per chunk, in order, each carrying the document's `filename` (default `unknown`) and the document |
| Retriever.TagStep | rag/retriever.py:81-86 | appending chunk `j` appends exactly its entry |
| Retriever.ContentPrefix | rag/retriever.py:79-80 | documents that all have `content` keep that in any prefix |
| PySeq.Map | rag/retriever.py:92 | a list comprehension `[f(x) for x in xs]` such as `[c['text'] for c in self.chunks]`: one result per element, each `f` of the element at the same position |
| Retriever.LocalEntriesConcat | rag/retriever.py:79-86 | the entries of two document lists in sequence are the entries of each, in sequence |
| Retriever.LocalEntryOrigin | rag/retriever.py:78-86 | every local chunk entry comes from some document: its source, its filename, and a non-empty stripped paragraph chunk of its content |
| Retriever.DocEntryOrigin | rag/retriever.py:80-86 | every entry of one document is a non-empty stripped paragraph chunk of its content, tagged with that document |
| Retriever.LocalEntriesStep | rag/retriever.py:79-86 | one more document appends exactly its own entries |
| Retriever.PrefixContent | rag/retriever.py:79-80 | a prefix whose documents all have `content` has it at every position |
| Retriever.TopIndices | rag/retriever.py:204 | `np.argsort(s)[-top_k:][::-1]`: the last `top_k` positions of the ascending order, highest first (Python's slice rules for `-0` and oversized `top_k`) |
| Retriever.Similarities | rag/retriever.py:195-201 | one similarity per chunk embedding, the cosine of the query with it |
| Retriever.LocalResultsShape | rag/retriever.py:290-321 | local scored retrieval gives `min(top_k, n)` results for `top_k >= 1` and all `n` for `top_k == 0`, ranks counting from 1, scores never increasing, each result a chunk with its own similarity |
| Retriever.LocalResultFrom | rag/retriever.py:309-319 | result `j` is the chunk at top index `j`, with its similarity, rank `j + 1` and filename |
| Retriever.LocalResultsTop | rag/retriever.py:305 | a chunk left out of the results has a similarity no greater than any returned score |
| Retriever.TopPositions | rag/retriever.py:204 | every position in the tail of the ascending order that the slice keeps is among the top indices |
| Retriever.LocalTextsAreScored | rag/retriever.py:189-209 | `retrieve` returns exactly the texts of `retrieve_with_scores`, in the same order (local mode) |
| Retriever.HitTextsCaps | rag/retriever.py:170-178 | per hit: a non-empty `chunks` list gives at most its first `top_k`, a single `chunks` value gives itself, otherwise at most the first two paragraph chunks of `content` |
| Retriever.NormalizeSpec | rag/retriever.py:251 | `min(score / 10.0, 1.0)` never exceeds 1, divides scores up to 10 by 10 and caps the rest at 1 |
| Retriever.Cands | rag/retriever.py:256-279 | every text of a hit becomes a candidate with the hit's normalised score and `filename` |
| Retriever.Ranked | rag/retriever.py:260-277 | the candidates are numbered `len(results) + 1`: rank `j + 1` at position `j` |
| Retriever.HitsTextsAreCandidates | rag/retriever.py:165-178 | both Elasticsearch loops fail on the same responses and otherwise collect the same texts in the same order |
| Retriever.EsTextsAreScored | rag/retriever.py:147-187 | `retrieve` returns exactly the texts of `retrieve_with_scores` (Elasticsearch mode) |
| Retriever.EsResultsShape | rag/retriever.py:281-288 | at most `top_k` results, none for `top_k == 0`, ranks counting from 1, scores at most 1 |
| Retriever.CandidateScores | rag/retriever.py:248-251 | every candidate's score is the normalised score of some hit, and at most 1 |
| Retriever.CandidatesFailLater | rag/retriever.py:246-288 | once a hit raises (no `chunks`, no `content`), the loop fails whatever follows |
| Retriever.EsHitWithoutContent | rag/retriever.py:272-288 | a hit with neither chunks nor `content` makes the whole call return `[]` |
| Retriever.CandidatesStep | rag/retriever.py:246-279 | one more hit appends exactly its own candidates |
| Retriever.HitsTextsStep | rag/retriever.py:166-178 | one more hit appends exactly its own texts |
| Retriever.HitsTextsFailLater | rag/retriever.py:166-187 | once a hit raises, the text loop fails whatever follows |
| Retriever.AppendRanked | rag/retriever.py:256-279 | appending a hit's texts one by one, each ranked `len(results) + 1`, extends the ranked candidates |
| Retriever.DocumentRetriever.constructor | rag/retriever.py:30-37 | the fields are the arguments, and Elasticsearch mode is on exactly when client and index are given |
| Retriever.DocumentRetriever.InitLocal | rag/retriever.py:69-94 | no documents raises; a document without `content` raises; otherwise the chunk entries are those of every document in order and the embeddings are `encode_batch` of their texts, one per chunk when the encoder returns one vector per text |
| Retriever.DocumentRetriever.IndexDocuments | rag/retriever.py:78-86 | the indexing loop fails at the first document without `content`, and otherwise yields every document's entries in order |
| Retriever.DocumentRetriever.AddDocument | rag/retriever.py:79-86 | one pass of the outer loop appends one document's entries |
| Retriever.DocumentRetriever.AddChunks | rag/retriever.py:81-86 | the inner loop appends the tagged entries of one document's chunks and changes nothing else |
| Retriever.DocumentRetriever.ComputeSimilarities | rag/retriever.py:296-302 | the similarity list is the cosine of the query with every chunk embedding |
| Retriever.DocumentRetriever.RetrieveLocalWithScores | rag/retriever.py:290-321 | the local scored results for the argsort of the similarities |
| Retriever.DocumentRetriever.RetrieveLocal | rag/retriever.py:189-209 | the local texts for the argsort of the similarities |
| Retriever.DocumentRetriever.RetrieveElasticsearchWithScores | rag/retriever.py:227-288 | the Elasticsearch results for the response to a search of size `top_k * 2`, `[]` when the search or a hit raises |
| Retriever.DocumentRetriever.RetrieveElasticsearch | rag/retriever.py:147-187 | the Elasticsearch texts for the response to a search of size `top_k * 2` |
| Retriever.DocumentRetriever.Retrieve | rag/retriever.py:132-145 | dispatches on the mode chosen at construction |
| Retriever.DocumentRetriever.RetrieveWithScores | rag/retriever.py:211-225 | dispatches on the mode; `return_hyde_info` is unused |
| Retriever.NewRetriever | rag/retriever.py:14-94 | construction raises exactly the first error the checks name and otherwise yields a retriever in the chosen mode whose local index is built from the documents, with one embedding per chunk |
| Similarity.Clamp | evaluate/similarity.py:61 | `max(0.0, min(1.0, x))` lies in [0, 1], is `x` inside that range and the nearer bound outside it |
| Similarity.ModelFor | evaluate/similarity.py:15-24 | the cached model when there is one, and otherwise the model loaded under `paraphrase-multilingual-MiniLM-L12-v2` |
| Similarity.SimilarityOf | evaluate/similarity.py:27-67 | the score lies in [0, 1]; an empty text gives 0 without loading; a failed load or encode gives 0; otherwise it is the clamped cosine of the two embeddings |
| Similarity.ModelCache.constructor | evaluate/similarity.py:12 | the global starts as `None`, nothing loaded |
| Similarity.ModelCache.GetEmbeddingModel | evaluate/similarity.py:15-24 | the model is loaded only while the global is `None`, kept once loaded, and at most once |
| Similarity.CalculateSimilarity | evaluate/similarity.py:27-67 | returns `SimilarityOf` of the texts; empty texts leave the global untouched; a loaded model is never replaced |
| Metrics.CorrectCount | evaluate/metrics.py:20 | the number of correct records never exceeds the number of records |
| Metrics.Summarize | evaluate/metrics.py:19-23 | `total` is the record count, `correct + incorrect == total` with neither negative, accuracy is the percentage correct in [0, 100], accuracy and the average similarity are 0 without records, `correct` is the number of correct records and the average similarity is the similarity total over the record count |
| Metrics.MissingSimilarityCountsZero | evaluate/metrics.py:23 | a record without `similarity` adds nothing to the total, as `r.get('similarity', 0)` says |
| Metrics.SimilaritySumBounds | evaluate/metrics.py:23 | with every similarity in [0, 1] the sum lies in [0, n] |
| Metrics.AverageSimilarityBounds | evaluate/metrics.py:23 | with every similarity in [0, 1] the average similarity lies in [0, 1] |
| Metrics.CollectChunks | evaluate/metrics.py:26-33 | `all_chunks` is every record's `retrieved_chunks` in record order, and `sources_used` holds one source per chunk (default `unknown`) |
| Metrics.SourceStats | evaluate/metrics.py:38 | `Counter(sources_used)` counts every source once per occurrence and holds exactly the sources used |
| Metrics.SourceStatsTotal | evaluate/metrics.py:32-38 | the per-source counts add up to the number of chunks |
| Metrics.AverageChunkScore | evaluate/metrics.py:35 | the mean chunk score, 0 without chunks |
| Metrics.BucketsPartition | evaluate/metrics.py:41-43 | every chunk lies in exactly one of the high (>= 0.7), medium (0.5 to 0.7) and low (< 0.5) buckets, so they add up to the chunk count |
| Metrics.BarClass | evaluate/metrics.py:472-477 | `bar-high`, `bar-medium` and `bar-low` correspond exactly to the three buckets |
| Metrics.ReplaceCharAppend | evaluate/metrics.py:467 | replacing one character distributes over concatenation |
| Metrics.EscapeIsCharwise | evaluate/metrics.py:467 | the two chained `replace` calls amount to escaping each character on its own (`&lt;` holds no `>`) |
| Metrics.EscapeEachNoAngles | evaluate/metrics.py:467 | escaped text contains no `<` and no `>` |
| Metrics.EscapeEachPlain | evaluate/metrics.py:467 | text without angle brackets is left as it is |
| Metrics.EscapeNoAngles | evaluate/metrics.py:467 | the report's escaping leaves no `<` or `>` |
| Metrics.EscapePlain | evaluate/metrics.py:467 | the report's escaping changes nothing in text without angle brackets |
| Metrics.Truncate | evaluate/metrics.py:466 | text up to `n` characters is kept; longer text becomes its first `n` characters and `...` |
| Metrics.RecordRows | evaluate/metrics.py:465-495 | one row per chunk of a record, numbered on from the running counter |
| Metrics.ChunkTableRows | evaluate/metrics.py:460-495 | the chunk table has one row per retrieved chunk of the whole report, numbered 1, 2, … in the order of `all_chunks` |
| Metrics.ChunkTableQuestions | evaluate/metrics.py:461-482 | every row names a record number in `1..len(results)`, with that record's question cut to 50 characters plus `...` |
| Metrics.ChunkTableOrigin | evaluate/metrics.py:461-482 | chunk `j` of record `i` is the row right after the chunks of the earlier records, numbered accordingly, naming record `i + 1` and its heading, and showing that chunk |
| Metrics.AppendRecordRows | evaluate/metrics.py:465-495 | the inner loop appends one record's rows and advances the counter by its chunk count |
| Metrics.BuildChunkTable | evaluate/metrics.py:460-495 | the loop builds exactly the chunk table |
| Metrics.ScoreLabel | evaluate/metrics.py:550-558 | `Отлично` exactly from 0.8 up, `Средне` exactly below 0.6, `Хорошо` between |
| Metrics.ResultRowFor | evaluate/metrics.py:517-600 | row `i` reports the record's correctness and bar class, shows its question escaped (so with no angle brackets) and its similarity, shows the expected and generated answers escaped and then cut to 200 characters, and has one detail box per retrieved chunk, box `j` showing chunk `j` |
| Metrics.BuildResultsTable | evaluate/metrics.py:517-600 | one row per record, numbered from 1, in record order |
| Markdown.Find | evaluate/questions.py:17-23 | the scanner for a negated class such as `[^>]+`: the first position from `i` holding `c`, or the end |
| Markdown.Skip | evaluate/questions.py:20 | the scanner for a repeated character such as `#{1,6}`: the first position from `i` not holding `c`, or the end |
| Markdown.CollapseHead | evaluate/questions.py:36 | collapsing whitespace keeps a leading non-space character in front |
| Markdown.CollapseSingle | evaluate/questions.py:36 | after `re.sub(r'\s+', ' ', text)` no whitespace other than a single space remains, and no two spaces are adjacent |
| Markdown.SingleSpacedSlice | evaluate/questions.py:36-39 | a slice of single-spaced text is single-spaced, so stripping keeps the property |
| Markdown.CleanShape | evaluate/questions.py:12-41 | `clean_markdown_text` output has no leading or trailing whitespace and every whitespace run in it is one space |
| Markdown.TagRemoved | evaluate/questions.py:17 | a span `<…>` without `>` inside is deleted |
| Markdown.HeadingRemoved | evaluate/questions.py:20 | one to six `#` followed by whitespace are deleted together with all of that whitespace |
| Markdown.LabelRemoved | evaluate/questions.py:32-33 | a `Q:`/`A:` (or `В:`/`О:`) label at a line start is deleted together with the whitespace after it |
| Markdown.LinkReplaced | evaluate/questions.py:23 | `[text](url)` becomes `text` |
| Markdown.BoldReplaced | evaluate/questions.py:26 | `**x**` becomes `x` |
| Markdown.ItalicReplaced | evaluate/questions.py:29 | `*x*` becomes `x` |
| Markdown.NoTagsUnchanged | evaluate/questions.py:17 | text without `<` is unchanged by tag removal |
| Markdown.NoLinksUnchanged | evaluate/questions.py:23 | text without `[` is unchanged by link replacement |
| Markdown.NoStarsUnchanged | evaluate/questions.py:26-29 | text without `*` is unchanged by the bold and italic passes |
| Questions.FromTextOrder | evaluate/questions.py:57-88 | the extracted pairs are the accepted matches of the three Q/A patterns, in pattern order, then those of the header pattern; nothing is removed as a duplicate |
| Questions.AcceptedAppend | evaluate/questions.py:61-70 | filtering matches distributes over concatenation: the order of matches is kept |
| Questions.AcceptedRecords | evaluate/questions.py:63-85 | every kept pair comes from a match whose cleaned question is non-empty and whose cleaned answer is longer than 10 characters, and holds those cleaned texts, stripped and single-spaced |
| Questions.AcceptedLength | evaluate/questions.py:66-82 | the filter keeps at most as many pairs as there are matches |
| Questions.AppendAccepted | evaluate/questions.py:61-70 | the match loop appends exactly the accepted pairs of its matches |
| Questions.ExtractFromText | evaluate/questions.py:57-88 | `extract_from_text` with `clean_markdown_text` as the cleaner returns the pairs in that order |
| Questions.ExtractWith | evaluate/questions.py:57-88 | the extraction loops return the accepted matches of all four patterns, in order, for any cleaner |
| Questions.ContentlessSkipped | evaluate/questions.py:104-106 | a document whose `content` is missing or empty contributes nothing |
| Questions.ContentExtracted | evaluate/questions.py:104-108 | a document with content contributes its pairs between those of the documents before and after it |
| Questions.ExtractQuestions | evaluate/questions.py:91-110 | `extract_questions` concatenates the per-document results in document order |
| Questions.BlankLineSkipped | evaluate/questions.py:119-121 | a line that strips to nothing is skipped |
| Questions.ParsedLast | evaluate/questions.py:118-121 | the loop handles one line after another |
| Questions.BlankKeeps | evaluate/questions.py:120-121 | a blank line leaves the list as it was |
| Questions.BadLineFails | evaluate/questions.py:121-125 | one non-blank line that is not valid JSON makes the whole load fail |
| Questions.ParsedLinesCount | evaluate/questions.py:118-122 | a successful load has one question per non-blank line |
| Questions.LoadQuestions | evaluate/questions.py:113-125 | the questions of the file's non-blank lines, or `[]` when the file cannot be read or a line does not parse |
| Trials.Attempt | test_llm/package/evaluator.py:203-230 | a question whose retrieval raises ends with that error; one that is answered has retrieved its chunks, generated its answer from exactly their texts, and been scored against the expected answer |
| Trials.RecordFor | test_llm/package/evaluator.py:235-255 | the record holds the question and the expected answer; an answered question stores answer, similarity, chunks and time, with `is_correct` exactly when `similarity >= threshold` (inclusive); a raised one stores `ERROR: ` and the message, similarity 0, not correct, no chunks, time 0 |
| Trials.StatsOf | test_llm/package/evaluator.py:282-302 | `total_count` is the number of records, `correct_count` at most that, accuracy the percentage correct in [0, 100] (0 for no records), the averages those of the report, and the records themselves returned |
| Trials.StatsSimilarityBounds | test_llm/package/evaluator.py:287 | with every similarity in [0, 1] the average similarity lies in [0, 1] |
| Evaluator.Pick | test_llm/package/evaluator.py:139-151 | the questions at the sampled positions, in sample order |
| Evaluator.RemoveAtMultiset | test_llm/package/evaluator.py:139-151 | removing one position takes exactly that element out of the multiset |
| Evaluator.Renumbered | test_llm/package/evaluator.py:139-151 | distinct positions other than `k` stay distinct and pick the same questions once position `k` is removed |
| Evaluator.PickSubMultiset | test_llm/package/evaluator.py:139-151 | distinct positions pick a sub-multiset of the questions: `random.sample` never repeats a question |
| Evaluator.Select | test_llm/package/evaluator.py:136-151 | a list no longer than `max_questions` is kept as it is; a longer one becomes exactly `max_questions` questions from distinct positions |
| Evaluator.SelectSubMultiset | test_llm/package/evaluator.py:136-151 | the selection takes nothing that is not in the list and nothing twice |
| Evaluator.LoadedSelection | test_llm/package/evaluator.py:123-161 | never more than `max_questions` questions |
| Evaluator.PathTakesPriority | test_llm/package/evaluator.py:132-142 | a questions file decides alone: `extract_qa` and extraction make no difference |
| Evaluator.NoQuestionsIff | test_llm/package/evaluator.py:144-161 | None exactly when there is no file and extraction is off or finds nothing (or the cap is 0) |
| Evaluator.SelectHasQuestions | test_llm/package/evaluator.py:136-151 | selection keeps every record's `question` key |
| Evaluator.TrialRecords | test_llm/package/evaluator.py:195-257 | one record per question, in question order, each the record of its own attempt |
| Evaluator.RunSimilarityBounds | test_llm/package/evaluator.py:284-287 | with similarity values in [0, 1] the run's average similarity lies in [0, 1] |
| Evaluator.EvaluationErrors | test_llm/package/evaluator.py:77-104 | with questions selected, a model that fails to load ends the run with its exception; with a connection, the retriever's construction error ends it, and a local-mode run over no documents raises `NoDocuments`; statistics only come when the model loaded, the connection answered and the retriever was built |
| Evaluator.EvaluationSize | test_llm/package/evaluator.py:52-121 | a completed evaluation has between 1 and `max_questions` records, one per selected question |
| Evaluator.RAGEvaluator.constructor | test_llm/package/evaluator.py:29-45 | the configuration fields are the arguments |
| Evaluator.RAGEvaluator.LoadQuestions | test_llm/package/evaluator.py:123-161 | `_load_questions` returns the selection `LoadedSelection` describes |
| Evaluator.RAGEvaluator.RunTests | test_llm/package/evaluator.py:180-257 | the loop returns one record per question in input order, each isolated from the failures of the others |
| Evaluator.RAGEvaluator.CalculateStats | test_llm/package/evaluator.py:282-302 | the statistics of the records |
| Evaluator.RAGEvaluator.RunEvaluation | test_llm/package/evaluator.py:52-121 | ends as `EvaluationOf` says: None without questions, the embedding model's load failure, None without an Ollama connection, the `DocumentRetriever` construction error for its mode and documents, otherwise the statistics of the test run over the selected questions |
| Testmain.CapPrefix | testmain.py:257-276 | the cut list is a prefix of the questions, `min(n, max_questions)` long for a non-negative cap, the whole list when it is short enough, and `questions[:negative]` drops from the end |
| Testmain.SelectedQuestions | testmain.py:249-297 | no source exactly when neither a questions file nor `--extract-qa` is given; the extraction call fails exactly when `--extract-qa` with `--elasticsearch` and no file; otherwise the loaded or extracted questions cut to the cap |
| Testmain.EsExtractionEndsMain | testmain.py:264-268 | with documents, extraction from Elasticsearch ends `main` with the call's TypeError, whatever the connection and the pipeline |
| Testmain.MainRecords | testmain.py:362-417 | one record per question, in question order |
| Testmain.MainRecordsMeaning | testmain.py:364-417 | each record holds its question and expected answer, no response time, and either the answer of its attempt with `is_correct` exactly when `similarity >= threshold`, or the `ERROR: ` record |
| Testmain.RunQuestions | testmain.py:362-417 | the loop raises (KeyError) exactly when a question lacks `question`, and otherwise returns the records |
| Testmain.FinalStats | testmain.py:446-458 | the final statistics are those of the records |
| Testmain.RunMain | testmain.py:207-475 | `main` ends as `MainOutcome` says: no documents, no question source, the TypeError of the Elasticsearch extraction call, no questions, the embedding model failing to load, no connection, the HyDE generator raising, the retriever's construction error, a missing `question` key, or completed with statistics |
| Testmain.ComponentFailures | testmain.py:306-346 | once there are questions, step 3 ends `main` at its first failing component, in order: the embedding model, the connection unless mocked, the HyDE generator when `--hyde` is given, then the local-mode retriever, which over non-empty documents fails exactly at the first document without `content` |
| Testmain.NoDocumentsFirst | testmain.py:242-244 | without documents `main` returns before any question is loaded |
| Testmain.NoQuestionsBeforeComponents | testmain.py:299-301 | without questions `main` returns before the Ollama client is built or asked |
| Testmain.CompletedRun | testmain.py:242-458 | a completed run had documents, a loaded embedding model, a mock or connected client, a built HyDE generator when asked for, and documents that all have `content`; it did not extract from Elasticsearch, and its records are those of a prefix of the raw questions, at least one and at most the cap |
| Prompts.ContextParts | rag/prompts.py:20-33 | one part per chunk, in chunk order, part `k` numbered `k + 1` |
| Prompts.FramedLayout | rag/prompts.py:38-52 | each piece of the template (head, context, middle, question, tail) can be read back at its offset |
| Prompts.CreateRagPrompt | rag/prompts.py:9-54 | the prompt is the fixed template around the blank-line join of the numbered context parts and the question |
| Prompts.ContextSmall | rag/prompts.py:35 | no chunks give an empty context; one chunk gives its own part alone |
| Prompts.ContextAppend | rag/prompts.py:21-35 | one more chunk appends a blank line and its part, numbered after the others |
| Prompts.PlainPart | rag/prompts.py:22-33 | without scores a part is exactly `[Chunk i]`, a newline and the chunk's `text` (`chunk.get('text', '')`: the line alone when it has none) |
| Prompts.PromptLayout | rag/prompts.py:38-43 | the prompt holds `КОНТЕКСТ:\n`, then the context, then `\n\nВОПРОС: `, then the question, each readable back at its offset |
| Loader.LastDot | test_llm/package/loader.py:45 | the position of the last `.` of a name, or none when it has no dot |
| Loader.SupportedIff | test_llm/package/loader.py:41-45 | `file_path.suffix.lower() in ['.txt', '.md']` holds exactly when the name ends in `.txt` or `.md`, in any case, after at least one other character |
| Loader.SuffixIs | test_llm/package/loader.py:45 | the lowered suffix is a given dotted extension exactly when the name ends in it after at least one other character |
| Loader.SuffixEnds | test_llm/package/loader.py:45 | a suffix of two or more characters is the end of the name, after at least one other character |
| Loader.EndsSuffix | test_llm/package/loader.py:45 | an end of the name that lowers to a dotted extension starts at the last dot and so is the suffix |
| Loader.LastDotAt | test_llm/package/loader.py:45 | a dot followed by no other dot is the last dot |
| Loader.LoadDocumentsLocal | test_llm/package/loader.py:23-64 | no directory gives `[]`; otherwise one record per supported, readable file, in walk order, unreadable files skipped |
| Loader.FlatMapStep | test_llm/package/loader.py:44-54 | one more walk entry appends its own record, if any |
| Loader.LocalDocumentsShape | test_llm/package/loader.py:44-54 | every record comes from a supported, readable file with its name, text and path, and every such file gives one record |
| Loader.LocalDocumentsSupported | test_llm/package/loader.py:45-54 | every loaded record has `filename`, `content` and `path`, and its filename is a supported one |
| Loader.RecordFields | test_llm/package/loader.py:50-54 | a file's record holds its name under `filename` and has `content` and `path` |
| Loader.EsDocumentsIff | test_llm/package/loader.py:83-125 | documents are returned exactly when the client is built, the ping and the index check pass, the count is non-zero and the fetched list is non-empty; they are the fetched documents |
| Loader.EsCheckOrder | test_llm/package/loader.py:88-108 | the checks run in order: after one fails, later calls make no difference |
| Loader.ValidateDocuments | test_llm/package/loader.py:128-158 | valid exactly when the list is non-empty and every document has non-blank `content`; the reported failure is the first document without it |
| Loader.EmptyContentBlank | test_llm/package/loader.py:153 | an empty `content` is already blank, so `not doc['content']` adds nothing to the strip test |
| OllamaDetector.CheckOllama | package/ollama_detector.py:31-45 | a host is up exactly when `GET {host}/api/tags` answers with status 200; a request that raises means down |
| OllamaDetector.PortSource | package/ollama_detector.py:89-94 | `local` exactly when the host contains `:11434`, else `docker` exactly when it contains `:11435`, else `custom` |
| OllamaDetector.DetectOrder | package/ollama_detector.py:9-28 | the default host is tried first and reported as local, then `http://localhost:11435` as docker; nothing is found exactly when neither answers |
| OllamaDetector.FallbackIff | package/ollama_detector.py:74-103 | a given preferred host that answers is returned with its port's source; an absent, empty or unreachable one falls through to detection |
| OllamaDetector.FallbackAnswers | package/ollama_detector.py:74-103 | whatever host the fallback returns has answered the tags request, and only the preferred host can be `custom` |
| Ollama.DetectSource | test_llm/rag/ollama_client.py:42-49 | local exactly when the host contains `:11434` or ends in `11434`; otherwise Docker exactly when it contains `:11435` or ends in `11435`; otherwise a custom server named by the host |
| Ollama.VersionAfter | test_llm/rag/ollama_client.py:57-62 | the stored version changes only on a 200 reply with a JSON body, and then becomes its `version` (default `unknown`); any failure keeps the old value |
| Ollama.AnyNamed | test_llm/rag/ollama_client.py:80-81 | true exactly when some listed model's `name` (default empty) starts with the model name |
| Ollama.ContextTemplateLayout | test_llm/rag/ollama_client.py:182-212 | the context prompt holds `КОНТЕКСТ:\n`, the joined context, `\n\nВОПРОС: ` and the question, each readable back at its offset |
| Ollama.ContextPromptChoice | test_llm/rag/ollama_client.py:180-212 | with context the expert template is used around `"\n\n".join(context)`; one more text appends a blank line and itself to the context |
| Ollama.PlainPromptLayout | test_llm/rag/ollama_client.py:213-218 | without context the prompt is the plain head, the question and the plain tail |
| Ollama.DigitsEnd | test_llm/rag/ollama_client.py:284 | the end of the run of digits from `i` |
| Ollama.MarkEnd | test_llm/rag/ollama_client.py:283-285 | a line marker found at the start ends within the text, is at least two characters long and ends in whitespace |
| Ollama.RemoveMarks | test_llm/rag/ollama_client.py:283-285 | removing line markers never lengthens the text |
| Ollama.UnmarkedUnchanged | test_llm/rag/ollama_client.py:283-285 | text with no marker at any line start is left as it is |
| Ollama.SpaceAfter | test_llm/rag/ollama_client.py:283-285 | `\s+` consumes exactly a whole run of whitespace |
| Ollama.BulletMarkEnd | test_llm/rag/ollama_client.py:285 | `^[-•]\s+` spans the bullet and all the whitespace after it |
| Ollama.HeadingMarkEnd | test_llm/rag/ollama_client.py:283 | `^#{1,6}\s+` spans one to six `#` and all the whitespace after them |
| Ollama.NumberMarkEnd | test_llm/rag/ollama_client.py:284 | `^\d+\.\s+` spans the digits, the dot and all the whitespace after them |
| Ollama.MarkRemoved | test_llm/rag/ollama_client.py:283-285 | a marker at a line start is deleted, and the scan goes on behind it (at a line start again when the whitespace ended in a newline) |
| Ollama.DigitsEndAt | test_llm/rag/ollama_client.py:284 | the digit run ends at the first non-digit |
| Ollama.MidLineKept | test_llm/rag/ollama_client.py:283-285 | a character that is not at a line start is kept (`re.MULTILINE` anchors only at line starts) |
| Ollama.DropPrefix | test_llm/rag/ollama_client.py:288-289 | the result is a suffix of the text, and the text itself when it does not start with the label in any case |
| Ollama.PrefixSpellings | test_llm/rag/ollama_client.py:288-289 | both spellings in each alternation (`Ответ:`/`ОТВЕТ:`, `Краткий ответ:`/`КРАТКИЙ ОТВЕТ:`) match the one case-insensitive label |
| Ollama.PrefixDropped | test_llm/rag/ollama_client.py:288-289 | a label at the start, in any case, is deleted together with all the whitespace after it |
| Ollama.CleanResponse | test_llm/rag/ollama_client.py:278-291 | the cleaned answer is stripped and never longer than the text |
| Ollama.RemoveEmphasisShorter | test_llm/rag/ollama_client.py:281-282 | the bold and italic passes never lengthen the text |
| Ollama.BoldShorter | test_llm/rag/ollama_client.py:281 | `**x**` → `x` never lengthens the text |
| Ollama.ItalicShorter | test_llm/rag/ollama_client.py:282 | `*x*` → `x` never lengthens the text |
| Ollama.CleanUnchanged | test_llm/rag/ollama_client.py:278-291 | stripped text without stars, line markers or answer labels is returned as it is |
| Ollama.CleanAnswerLabel | test_llm/rag/ollama_client.py:288-291 | an answer that repeats `Ответ:` in any case comes back as what follows the label, stripped |
| Ollama.AnswerCases | test_llm/rag/ollama_client.py:239-276 | a 200 reply gives its cleaned, stripped `response`; 404 gives the missing-model message; any other status, a body that is no JSON, or an unexpected exception gives the generation-error message; a timeout and a lost connection give their own messages |
| Ollama.AbsentResponseEmpty | test_llm/rag/ollama_client.py:241 | a 200 reply without `response` gives the empty answer |
| Ollama.OllamaClient.constructor | test_llm/rag/ollama_client.py:14-40 | the host loses its trailing slashes, the source is detected from it, and the version is fetched exactly when the tags endpoint answers |
| Ollama.OllamaClient.CheckConnection | test_llm/rag/ollama_client.py:51-72 | connected exactly when `GET /api/tags` answers 200; only then is the version refreshed, and a failing version request keeps the old one |
| Ollama.OllamaClient.ModelAvailable | test_llm/rag/ollama_client.py:74-84 | true exactly when the tags endpoint answers 200 with a model list and some model's name starts with the configured model |
| Ollama.OllamaClient.Generate | test_llm/rag/ollama_client.py:167-276 | the answer is the mapping of the reply to a request carrying the host, the model, the prompt for the question and its context, and the timeout |
| Config.FirstKey | package/config.py:45-57 | no result exactly when none of the keys is in the config; otherwise the value under the first key that is |
| Config.DimsFromHf | package/config.py:35-66 | the size from a 200 reply with a JSON body, taken under the first of `hidden_size`, `embedding_size`, `d_model`, `dim`, `n_embd` present; None for any other status, a failed request or no known key |
| Config.HfDimsOrder | package/config.py:42-63 | `hidden_size` wins whenever present; no size exactly when no known key is present; a status other than 200 gives none |
| Config.ResolveDims | package/config.py:96-108 | the HuggingFace size, else the size of the loaded model, else 384 |
| Config.InfoLookupOrder | package/config.py:83-124 | a registered name is answered from the registry with no lookup; otherwise HuggingFace is asked first, the model loaded only when that gave nothing, and a new `unknown` entry with the resolved size is registered |
| Config.InfoLookupCached | package/config.py:87-117 | a second lookup of the same name is a cache hit: the same entry, the same registry, no lookup |
| Config.InfoLookupKeeps | package/config.py:117 | a lookup adds or changes no entry other than the looked-up name |
| Config.KnownModelSizes | package/config.py:14-27 | the two known models have 384 and 1024 dimensions and sizes other than `unknown` |
| Config.ModelRegistry.constructor | package/config.py:14-27 | the registry starts as `EMBEDDING_MODELS` |
| Config.ModelRegistry.GetModelInfo | package/config.py:83-124 | the entry, the new registry and the lookups made are those `InfoLookup` describes for the HuggingFace reply and the loaded model |
| Config.EmbeddingModel.constructor | package/config.py:179-180 | a new instance has no model and has loaded none |
| Config.EmbeddingModel.GetModel | package/config.py:218-222 | the model when there is one, otherwise the `Модель не инициализирована` error |
| Config.EmbeddingSingleton.constructor | package/config.py:179 | no instance exists before the first call |
| Config.EmbeddingSingleton.Get | package/config.py:182-193 | every call returns the one instance, created on the first call; its model is loaded while it has none and kept once loaded, so it is loaded at most once |
| Records.Infos | test_llm/package/evaluator.py:241 | the stored `retrieved_chunks` hold one entry per retrieval result, in rank order, with every key present |
| Records.AllChunksAppend | test_llm/package/evaluator.py:289-291 | the chunks of two record lists in sequence are those of each, in sequence |
| Records.AllChunksOrigin | test_llm/package/evaluator.py:289-291 | every collected chunk is chunk `j` of some record `i` |
| Text.Strip | rag/retriever.py:109 | `str.strip()`: the result has no leading or trailing whitespace and is no longer than the text |
| Text.StripEmptyIff | rag/retriever.py:109 | a text strips to nothing exactly when it is all whitespace (`if p.strip()`) |
| Text.StripSlice | rag/retriever.py:109 | the stripped text is a slice of the text with only whitespace around it |
| Text.StripTrailingSpace | rag/retriever.py:117-121 | stripping a stripped text followed by whitespace (the `"\n\n"` the loop appends) gives the text back |
| Text.StripStripped | rag/retriever.py:121 | stripping a stripped text changes nothing |
| Text.Join | rag/retriever.py:117 | joining no parts gives the empty text, and one part gives itself |
| Text.JoinAppend | rag/prompts.py:35 | joining one more part appends the separator and the part |
| Text.ContainsIff | package/ollama_detector.py:89 | Python's `in` on strings: the pattern occurs at some position |
| Text.LowerAscii | test_llm/package/loader.py:45 | the lowering `suffix.lower()` needs for `.txt` and `.md`: same length, A–Z lowered, everything else kept |
| Text.RStripChar | test_llm/rag/ollama_client.py:21 | `rstrip('/')`: the longest prefix not ending in `/`, with only `/` removed |
| Text.NatToString | rag/prompts.py:29-33 | a non-empty string of decimal digits whose value is the number, with no leading zero except for 0 itself |
| Text.NonEmptyIsKept | rag/retriever.py:109 | filtering out empty parts keeps exactly the non-empty ones, in order |
| Text.KeptIncreasing | rag/retriever.py:109 | the kept positions are strictly increasing: order is preserved |
| Text.KeptComplete | rag/retriever.py:109 | every non-empty part is kept |
| PySeq.SliceIndex | rag/retriever.py:204 | Python's normalisation of a slice bound: a negative bound counts from the end, and bounds are clamped to `[0, n]` |
| PySeq.Prefix | rag/retriever.py:172 | `s[:k]` is the prefix Python's slice rules give, `min(k, n)` long for `k >= 0` |
| PySeq.Suffix | rag/retriever.py:204 | `s[k:]` is the suffix Python's slice rules give |
| PySeq.Reverse | rag/retriever.py:204 | `s[::-1]`: the same length and the elements in reverse order |
| PySeq.FlatMapAppend | test_llm/package/loader.py:44-54 | collecting over two lists in sequence gives the results of each, in sequence |
| Docs.Get | evaluate/questions.py:104 | `dict.get(key, default)`: the value when the key is present, the default otherwise |

## Left out

### Services, numerics and I/O

- Every network call and external library is modelled only through its results: `requests`, the Elasticsearch client, SentenceTransformer `encode`, numpy and sklearn. `test_llm/package/elastic.py` is not part of this model: it is a network client.
- Floating point is modelled as `real`: the cosine formula, `min(score / 10.0, 1.0)` and all averages. The 32-bit and 64-bit rounding is not modelled.
- Output formatting is not modelled:
  - `:.0%` in the prompt is a function parameter `percent`;
  - the `:.1%` and `:.1f` formats of the report are not modelled;
  - the HTML/CSS template text is not modelled.
- The report is modelled as its numbers and row contents only: `Metrics.ChunkTable` and `Metrics.ResultRowFor`.
- Every `print` is left out, together with the helpers that only print: `_print_available_models`, `_print_connection_help`, `_print_install_model_help`, `_print_selected_questions`, `_print_final_stats` and `print_ollama_status`.
- File writes are left out: the HTML report, the saved question sets (`save_questions`, `_save_questions` and the block at `testmain.py:278-290`) and `setup_directories`.
- Timestamps and `time.time()` are left out. The evaluator's response times are a parameter `elapsed(i)`.
- `random.seed` is left out. The sampler is any function returning distinct positions.

### Parsing and matching

- `re.finditer` over the Q/A patterns of `QuestionExtractor` is a parameter that yields the match list for each pattern. The patterns themselves are not compiled. The acceptance filter, cleaning and ordering are modelled.
- `json.loads` in `load_questions` is a parameter that parses one line or fails.
- A HuggingFace `config.json` is modelled as a map from keys to integers. Non-integer values, and bodies that are not objects, are not distinguished beyond "no size".
- `OllamaClient.__init__` checks whether the model is available only in order to print a warning. The model does not make the constructor call `ModelAvailable`; that function is stated separately.
- Ollama.MarkEnd: Python's `\d` also matches non-ASCII decimal digits, but the model recognises ASCII digits only.
- Ollama.FoldEq: the case-insensitive label match covers the Cyrillic letters of the two labels, including Unicode's extra case forms of в, о and т. Other scripts are not folded.
- Text.LowerAscii: only ASCII letters are lowered. That is all the `.txt`/`.md` suffix test needs: the lowered suffix must equal one of them, and only ASCII letters can lower to ASCII letters in these positions.

### Operations not modelled

- `EmbeddingModel.encode` is not modelled: it is a call into SentenceTransformer. Its no-model error is the same one `GetModel` reports.
- `get_model_dims_from_model` is a parameter: it loads a model and measures a vector.
- `OllamaClient.get_info` and `__repr__` are not modelled: they only re-issue the modelled requests.
- `DocumentRetriever.__repr__` is not modelled.
- `testmain.py`'s own `load_documents_local` and `load_documents_elasticsearch` (144-205) are a parameter `documents`: they are file and network reads.
- `extract_questions_from_elasticsearch` is not modelled: `main`'s one call of it raises before it runs (see below), and the function itself is a network search.
- `load_to_elasticsearch.py`'s `check_elasticsearch_connection`, `create_index_with_vectors`, `verify_index` and `main` are network and printing code. Only the chunking, the file finder and the record numbering are modelled.
- `Counter.most_common()` ordering is not modelled. `Metrics.SourceStats` models the counts only, as a multiset.
- `package/config.py`'s module-level code is left out:
  - environment reads: the `DEFAULT_*` values are parameters;
  - the `HF_TOKEN` export;
  - the dataclasses.
- Left out as command-line and configuration code: `package/CLI.py`, `test_llm/package/CLI.py`, `test_llm/package/config.py` and `main.py`.
- `test_llm/rag/embeddings.py` is left out: it is a thin wrapper around SentenceTransformer. `rag/embeddings.py` is left out because every line of it is commented out, so it defines nothing (see the call mismatches below).
- `test_llm/package/evaluator.py:14-17` imports `..rag.retriever` and `..evaluate.similarity`, which are not part of this model. The model stands in the root modules `rag/retriever.py` (`Retriever`) and `evaluate/similarity.py` for them.
- HyDE query rewriting is not modelled: `rag/hyde.py` is not part of this model. `RAGEvaluator.run_evaluation` builds a `HyDEGenerator` when `use_hyde` is set but never uses it, and `return_hyde_info` is never read. In `testmain.py:330-334` only whether that construction raises is modelled, as a boolean of `Testmain.MainComponents`.

### Call mismatches the model does not reconcile

- `testmain.py:340-346` passes `use_hyde` and `hyde_generator` to a `DocumentRetriever` whose constructor does not take them.
  - In Python this call raises a TypeError.
  - The model builds the retriever as the evidently intended call without those keywords (`Retriever.NewRetriever` in local mode, for its construction errors), and takes retrieval as a service parameter of the loop.
- `testmain.py:268` calls `extract_questions_from_elasticsearch(es_client, index_name=...)`, but `evaluate/questions.py:148` names that parameter `index`.
  - In Python this call raises a TypeError that nothing catches, so `main` ends there.
  - The model ends `main` with `EsExtractionFails` on that branch (`Testmain.SelectedQuestions`, `Testmain.EsExtractionEndsMain`); the questions the call was evidently meant to return are not modelled.
- `test_llm/package/evaluator.py:229` calls `calculate_similarity` with three arguments. The root `evaluate/similarity.py:27` takes two; the `..evaluate.similarity` the evaluator imports is not part of this model. The model takes similarity as a service parameter.
- `rag/retriever.py:6`, `rag/__init__.py:4` and `testmain.py:19` import `EmbeddingModel` from `rag.embeddings`, but `rag/embeddings.py` is entirely commented out.
  - In Python these imports raise an ImportError, so neither the root retriever nor `testmain.py` loads.
  - The model treats `EmbeddingModel` as a class with the evidently intended `encode_batch`, given as a parameter.
- `rag/retriever.py:93` calls `self.embedding_model.encode_batch(...)`, but no class in the source defines `encode_batch`: `test_llm/rag/embeddings.py:18` and `package/config.py:195` define only `encode`.
  - In Python this call raises an AttributeError.
  - The model takes the encoder as a parameter `encodeBatch` and assumes that it returns one vector per text (`Retriever.OnePerText`).

### Preconditions and weaker contracts

- Evaluator.RAGEvaluator.RunTests: requires every question record to have a `question` key. This is where `question_data["question"]` would raise a KeyError outside the `try`.
- Evaluator.RAGEvaluator.RunEvaluation: requires the question file and the extractor to yield records that all have `question`, and the sampler to choose distinct positions. Without `question`, `_run_tests` raises a KeyError that `run_evaluation` does not catch; the model does not cover that path of the evaluator class. `Testmain.RunQuestions` does model it.
- Evaluator.RAGEvaluator.RunEvaluation: with `use_hyde` set, `test_llm/package/evaluator.py:93-96` constructs `HyDEGenerator(ollama_client)` after the connection check and before the retriever; that construction, and any exception it raises, is not modelled, because `rag/hyde.py` is not part of this model.
- Evaluator.RAGEvaluator.RunEvaluation: builds the `DocumentRetriever` (`Retriever.NewRetriever`) only for its construction errors; the test loop retrieves through the service parameter, not through the retriever built. The embedding model's load is a boolean of `Components`, and its batch encoder a parameter.
- Chunker.SplitIntoChunks: requires `0 < chunk_size` and `overlap < chunk_size`, which every call meets (500 and 50). For `overlap >= chunk_size` on a text longer than `chunk_size` the loop at `load_to_elasticsearch.py:70-80` never ends: `start` goes from 0 to `chunk_size - overlap <= 0` and never reaches the break (for example `chunk_size = overlap = 50` on a text of 100 characters). With `chunk_size <= 0` the loop also never ends when `overlap >= chunk_size`. When `overlap < chunk_size <= 0` it does end, every window is empty and the result is `[]`; the model does not cover that case. Its requirement also leaves out the terminating case of `overlap >= chunk_size` on a text no longer than `chunk_size`, which gives the one stripped window. The same requirement is on `Chunker.SplitWith`, `Chunker.WindowsFrom`, `Chunker.LoadWith` and `Chunker.LoadDocumentsWithVectors`.
- Testmain.RunQuestions: reports a missing `question` key as `missing` instead of assuming it away.
- Evaluator.LoadedSelection: `max_questions` is a `nat`. A negative cap, which `random.sample` rejects, is not modelled on this path. `Testmain.Cap` follows Python's slice rules for negative caps.
- Retriever.DocumentRetriever.RetrieveLocalWithScores: requires one embedding per chunk. `Retriever.DocumentRetriever.InitLocal` ensures this only under the assumption `Retriever.OnePerText`, that the batch encoder returns one vector per text; no source class defines `encode_batch`, so nothing in the source promises it. It also requires the `argsort` parameter to return an ascending argsort of the similarities.
- Retriever.DocumentRetriever.InitLocal: requires `Retriever.OnePerText` of the batch encoder, an assumption about the missing `encode_batch`. The same requirement is on `Retriever.NewRetriever`, `Evaluator.RAGEvaluator.RunEvaluation` and `Testmain.RunMain`.
- Testmain.RunMain: its `Completed` outcome, and so `Testmain.CompletedRun`, is not reached by the source as written. The `DocumentRetriever` call at `testmain.py:340-346` raises a TypeError, and the `rag.embeddings` import at `testmain.py:19` already fails. The model describes the run that these lines were evidently meant to perform, including its set-up failures: the embedding model's load and the HyDE generator's construction are booleans of `Testmain.MainComponents`, and the retriever's errors are those of `Retriever.NewRetriever` in local mode.
- Retriever.DocumentRetriever.RetrieveElasticsearchWithScores: the Elasticsearch `search` call and a failing hit are both modelled as None or a hit without content. OS-level exceptions beyond these are not distinguished.
- Config.EmbeddingSingleton.Get: models `EmbeddingModel()` and `get_embedding_model()` as one call. When SentenceTransformer raises, the call returns no instance, where Python propagates the exception.
