/**
 * The sliding-window splitter of the Elasticsearch loader, the document finder and the
 * per-chunk record numbering of the loading loop.
 */
module Chunker {
  import opened Wrappers
  import opened Text
  import opened PySeq

  /** The half-open character range `[start, end)` of one pass of the splitting loop. */
  datatype Window = Window(start: nat, end: nat)

  /**
   * The windows the splitting loop visits when it is at `start`: the window is
   * `[start, min(start + size, n))`; the loop stops after the window that reaches `n`,
   * and otherwise moves on to `end - overlap`.
   */
  function WindowsFrom(n: nat, size: nat, overlap: int, start: nat): (ws: seq<Window>)
    requires 0 < size && overlap < size
    ensures start < n <==> ws != []
    ensures ws != [] ==> ws[0].start == start
    ensures forall i :: 0 <= i < |ws| ==> ws[i].start < ws[i].end <= n
    decreases n - start
  {
    if start >= n then []
    else
      var end := if start + size <= n then start + size else n;
      if end == n then [Window(start, end)]
      else [Window(start, end)] + WindowsFrom(n, size, overlap, end - overlap)
  }

  /** Window `i` is full, ends before the text does, and window `i + 1` starts `overlap` before its end. */
  predicate FullStep(ws: seq<Window>, i: nat, n: nat, size: nat, overlap: int)
    requires i + 1 < |ws|
  {
    ws[i].end == ws[i].start + size && ws[i].end < n && ws[i + 1].start == ws[i].end - overlap
  }

  predicate StepsOk(ws: seq<Window>, n: nat, size: nat, overlap: int) {
    && (forall i :: 0 <= i < |ws| ==> ws[i].end - ws[i].start <= size)
    && (forall i: nat :: i + 1 < |ws| ==> FullStep(ws, i, n, size, overlap))
  }

  /**
   * Every window but the last is a full `size` characters ending before the text does, and
   * the next one starts `overlap` characters before it ends; no window is longer than `size`.
   */
  lemma {:induction false} WindowSteps(n: nat, size: nat, overlap: int, start: nat)
    requires 0 < size && overlap < size
    ensures StepsOk(WindowsFrom(n, size, overlap, start), n, size, overlap)
    decreases n - start
  {
    var ws := WindowsFrom(n, size, overlap, start);
    if start < n {
      var end := if start + size <= n then start + size else n;
      if end < n {
        var rest := WindowsFrom(n, size, overlap, end - overlap);
        WindowSteps(n, size, overlap, end - overlap);
        assert ws == [Window(start, end)] + rest;
        assert ws[0] == Window(start, end);
        forall i | 1 <= i < |ws| ensures ws[i] == rest[i - 1] && ws[i].end - ws[i].start <= size {
          assert rest[i - 1].end - rest[i - 1].start <= size;
        }
        forall i: nat | i + 1 < |ws| ensures FullStep(ws, i, n, size, overlap) {
          if i > 0 {
            assert FullStep(rest, i - 1, n, size, overlap);
          }
        }
      } else {
        assert ws == [Window(start, end)];
      }
    }
  }

  /** Window `i` starts at `i * (size - overlap)` past the first. */
  lemma {:induction false} WindowStarts(n: nat, size: nat, overlap: int, start: nat, i: nat)
    requires 0 < size && overlap < size
    requires i < |WindowsFrom(n, size, overlap, start)|
    ensures WindowsFrom(n, size, overlap, start)[i].start == start + i * (size - overlap)
    decreases i
  {
    if i > 0 {
      var end := if start + size <= n then start + size else n;
      var ws := WindowsFrom(n, size, overlap, start);
      assert end < n;
      var rest := WindowsFrom(n, size, overlap, end - overlap);
      assert ws == [Window(start, end)] + rest;
      assert ws[i] == rest[i - 1];
      WindowStarts(n, size, overlap, end - overlap, i - 1);
      assert (i - 1) * (size - overlap) + (size - overlap) == i * (size - overlap);
    }
  }

  /** With `0 <= overlap` the last window ends where the text ends. */
  lemma {:induction false} LastWindowEnd(n: nat, size: nat, overlap: int, start: nat)
    requires 0 < size && 0 <= overlap < size && start < n
    ensures var ws := WindowsFrom(n, size, overlap, start); ws[|ws| - 1].end == n
    decreases n - start
  {
    var end := if start + size <= n then start + size else n;
    if end < n {
      var rest := WindowsFrom(n, size, overlap, end - overlap);
      assert WindowsFrom(n, size, overlap, start) == [Window(start, end)] + rest;
      LastWindowEnd(n, size, overlap, end - overlap);
    }
  }

  function Windows(n: nat, size: nat, overlap: int): seq<Window>
    requires 0 < size && overlap < size
  {
    WindowsFrom(n, size, overlap, 0)
  }

  predicate InText(text: string, ws: seq<Window>) {
    forall i :: 0 <= i < |ws| ==> ws[i].start <= ws[i].end <= |text|
  }

  /** The text of every window after `strip`: `text[start:end].strip()` when `strip` is `Strip`. */
  function Pieces(text: string, ws: seq<Window>, strip: string -> string): (ps: seq<string>)
    requires InText(text, ws)
  {
    seq(|ws|, k requires 0 <= k < |ws| => strip(text[ws[k].start..ws[k].end]))
  }

  /** The chunks the splitting loop still adds when it is at `start`. */
  function ChunksFromStart(text: string, size: nat, overlap: int, start: nat, strip: string -> string): seq<string>
    requires 0 < size && overlap < size
  {
    NonEmptyFrom(Pieces(text, WindowsFrom(|text|, size, overlap, start), strip), 0)
  }

  /** What `split_into_chunks(text, size, overlap)` returns. */
  function SplitChunks(text: string, size: nat, overlap: int): seq<string>
    requires 0 < size && overlap < size
  {
    ChunksFromStart(text, size, overlap, 0, Strip)
  }

  /** `split_into_chunks(text, chunk_size, overlap)`. */
  method SplitIntoChunks(text: string, chunkSize: int, overlap: int) returns (chunks: seq<string>)
    requires 0 < chunkSize && overlap < chunkSize
    ensures chunks == SplitChunks(text, chunkSize, overlap)
  {
    chunks := SplitWith(text, chunkSize, overlap, Strip);
  }

  /** The splitting loop, for any function applied to each window's text. */
  method SplitWith(text: string, chunkSize: int, overlap: int, strip: string -> string) returns (chunks: seq<string>)
    requires 0 < chunkSize && overlap < chunkSize
    ensures chunks == ChunksFromStart(text, chunkSize, overlap, 0, strip)
  {
    ghost var whole := ChunksFromStart(text, chunkSize, overlap, 0, strip);
    chunks := [];
    var start: int := 0;
    var n := |text|;
    while start < n
      invariant 0 <= start
      invariant start < n ==> SplitSoFar(text, chunkSize, overlap, start, strip, chunks, whole)
      invariant start >= n ==> chunks == whole
      decreases n - start
    {
      var end;
      chunks, end := AddWindow(text, chunkSize, overlap, start, strip, chunks, whole);
      start := end - overlap;
      if start >= n - overlap {
        break;
      }
    }
  }

  /** The splitting loop's invariant: what it has added, followed by what it will add, is the whole result. */
  predicate SplitSoFar(text: string, size: nat, overlap: int, start: nat, strip: string -> string,
                       chunks: seq<string>, whole: seq<string>)
    requires 0 < size && overlap < size
  {
    chunks + ChunksFromStart(text, size, overlap, start, strip) == whole
  }

  /** One pass of the splitting loop: the window at `start`, its stripped text added if not empty. */
  method AddWindow(text: string, size: int, overlap: int, start: nat, strip: string -> string,
                   chunks: seq<string>, ghost whole: seq<string>)
    returns (chunks': seq<string>, end: nat)
    requires 0 < size && overlap < size && start < |text|
    requires SplitSoFar(text, size, overlap, start, strip, chunks, whole)
    ensures end == Min(start + size, |text|) && start < end
    ensures end == |text| || end - overlap >= |text| ==> chunks' == whole
    ensures end < |text| && end - overlap < |text| ==>
      SplitSoFar(text, size, overlap, end - overlap, strip, chunks', whole)
  {
    end := Min(start + size, |text|);
    var chunk := strip(text[start..end]);
    chunks' := if chunk != [] then chunks + [chunk] else chunks;
    LoopStep(text, size, overlap, start, end, strip, chunks, chunks', whole);
    if end < |text| && end - overlap >= |text| {
      NoChunksPast(text, size, overlap, end - overlap, strip);
    }
  }

  /** From past the end of the text the loop adds nothing. */
  lemma NoChunksPast(text: string, size: nat, overlap: int, start: nat, strip: string -> string)
    requires 0 < size && overlap < size && start >= |text|
    ensures ChunksFromStart(text, size, overlap, start, strip) == []
  {
    assert Pieces(text, WindowsFrom(|text|, size, overlap, start), strip) == [];
  }

  /** The loop invariant survives one pass. */
  lemma LoopStep(text: string, size: nat, overlap: int, start: nat, end: nat, strip: string -> string,
                 before: seq<string>, after: seq<string>, whole: seq<string>)
    requires 0 < size && overlap < size && start < |text| && end == Min(start + size, |text|)
    requires before + ChunksFromStart(text, size, overlap, start, strip) == whole
    requires var c := strip(text[start..end]); after == if c != [] then before + [c] else before
    ensures end == |text| ==> after == whole
    ensures end < |text| ==> after + ChunksFromStart(text, size, overlap, end - overlap, strip) == whole
  {
    ChunksStep(text, size, overlap, start, end, strip);
    var c := strip(text[start..end]);
    var pre := if c != [] then [c] else [];
    assert after == before + pre;
    if end < |text| {
      ConcatAssoc(before, pre, ChunksFromStart(text, size, overlap, end - overlap, strip));
    }
  }

  lemma ConcatAssoc<T>(a: seq<T>, b: seq<T>, c: seq<T>)
    ensures (a + b) + c == a + (b + c)
  {
  }

  /** One pass of the loop: the chunk of the current window, then those from the next start. */
  lemma ChunksStep(text: string, size: nat, overlap: int, start: nat, end: nat, strip: string -> string)
    requires 0 < size && overlap < size && start < |text| && end == Min(start + size, |text|)
    ensures var p := strip(text[start..end]); var pre := if p != [] then [p] else [];
      && (end == |text| ==> ChunksFromStart(text, size, overlap, start, strip) == pre)
      && (end < |text| ==> ChunksFromStart(text, size, overlap, start, strip)
                           == pre + ChunksFromStart(text, size, overlap, end - overlap, strip))
  {
    var p := strip(text[start..end]);
    var rest := NextWindows(|text|, size, overlap, end);
    WindowPieces(text, size, overlap, start, end, strip);
    NonEmptyCons(p, Pieces(text, rest, strip));
    assert ChunksFromStart(text, size, overlap, start, strip)
        == (if p != [] then [p] else []) + NonEmptyFrom(Pieces(text, rest, strip), 0);
    if end < |text| {
      assert rest == WindowsFrom(|text|, size, overlap, end - overlap);
    } else {
      assert Pieces(text, rest, strip) == [];
    }
  }

  /** The windows after the one ending at `end`. */
  function NextWindows(n: nat, size: nat, overlap: int, end: nat): seq<Window>
    requires 0 < size && overlap < size
  {
    if end >= n || end < overlap then [] else WindowsFrom(n, size, overlap, end - overlap)
  }

  lemma WindowPieces(text: string, size: nat, overlap: int, start: nat, end: nat, strip: string -> string)
    requires 0 < size && overlap < size && start < |text| && end == Min(start + size, |text|)
    ensures InText(text, NextWindows(|text|, size, overlap, end))
    ensures Pieces(text, WindowsFrom(|text|, size, overlap, start), strip)
         == [strip(text[start..end])] + Pieces(text, NextWindows(|text|, size, overlap, end), strip)
  {
    var rest := NextWindows(|text|, size, overlap, end);
    assert WindowsFrom(|text|, size, overlap, start) == [Window(start, end)] + rest;
    PiecesCons(text, Window(start, end), rest, strip);
  }

  lemma PiecesCons(text: string, w: Window, rest: seq<Window>, strip: string -> string)
    requires w.start <= w.end <= |text| && InText(text, rest)
    ensures InText(text, [w] + rest)
    ensures Pieces(text, [w] + rest, strip) == [strip(text[w.start..w.end])] + Pieces(text, rest, strip)
  {
    var ws := [w] + rest;
    assert forall i :: 0 <= i < |rest| ==> rest[i] == ws[i + 1];
    assert InText(text, ws) by {
      forall i | 0 <= i < |ws| ensures ws[i].start <= ws[i].end <= |text| {
        if i > 0 { assert ws[i] == rest[i - 1]; }
      }
    }
    var l := Pieces(text, ws, strip);
    var r := [strip(text[w.start..w.end])] + Pieces(text, rest, strip);
    forall i | 0 <= i < |l| ensures l[i] == r[i] {
      if i > 0 { assert ws[i] == rest[i - 1]; }
    }
  }

  /** Every chunk is the stripped text of a window, so it is non-empty and has no outer whitespace. */
  lemma ChunksStripped(text: string, size: nat, overlap: int, j: nat)
    requires 0 < size && overlap < size
    requires j < |SplitChunks(text, size, overlap)|
    ensures var c := SplitChunks(text, size, overlap)[j]; c != [] && Stripped(c) && |c| <= size
  {
    var ws := Windows(|text|, size, overlap);
    var ps := Pieces(text, ws, Strip);
    NonEmptyIsKept(ps, 0);
    var k := Kept(ps, 0)[j];
    WindowSteps(|text|, size, overlap, 0);
    assert ws[k].end - ws[k].start <= size;
    assert SplitChunks(text, size, overlap)[j] == ps[k];
    assert ps[k] == Strip(text[ws[k].start..ws[k].end]);
  }

  /** Text no longer than the window size is one window: at most one chunk, its strip. */
  lemma ShortText(text: string, size: nat, overlap: int)
    requires 0 < size && overlap < size && |text| <= size
    ensures SplitChunks(text, size, overlap) == if Strip(text) == [] then [] else [Strip(text)]
  {
    if |text| > 0 {
      ChunksStep(text, size, overlap, 0, |text|, Strip);
      assert text[0..|text|] == text;
    }
  }

  /** Empty or all-whitespace text gives no chunk. */
  lemma BlankTextNoChunks(text: string, size: nat, overlap: int)
    requires 0 < size && overlap < size && AllSpace(text)
    ensures SplitChunks(text, size, overlap) == []
  {
    var ws := Windows(|text|, size, overlap);
    var ps := Pieces(text, ws, Strip);
    var idx := Kept(ps, 0);
    NonEmptyIsKept(ps, 0);
    if idx != [] {
      AllSpaceSlice(text, ws[idx[0]].start, ws[idx[0]].end);
      StripEmptyIff(text[ws[idx[0]].start..ws[idx[0]].end]);
      assert false;
    }
  }

  /** Position `p` lies in some window. */
  predicate Covered(ws: seq<Window>, p: int) {
    exists i :: 0 <= i < |ws| && ws[i].start <= p < ws[i].end
  }

  /** With `0 <= overlap` the windows cover every position of the text: no gaps. */
  lemma {:induction false} WindowsCover(n: nat, size: nat, overlap: int, start: nat, p: int)
    requires 0 < size && 0 <= overlap < size
    requires start <= p < n
    ensures Covered(WindowsFrom(n, size, overlap, start), p)
    decreases n - start
  {
    var ws := WindowsFrom(n, size, overlap, start);
    var end := if start + size <= n then start + size else n;
    if p < end {
      assert ws[0].start <= p < ws[0].end;
    } else {
      var rest := WindowsFrom(n, size, overlap, end - overlap);
      assert ws == [Window(start, end)] + rest;
      WindowsCover(n, size, overlap, end - overlap, p);
      var i :| 0 <= i < |rest| && rest[i].start <= p < rest[i].end;
      assert ws[i + 1] == rest[i];
    }
  }

  // ---------------------------------------------------------------------------
  // find_documents

  datatype FindError = DirectoryMissing(path: string) | NothingFound(path: string)

  predicate IsReadme(name: string) {
    LowerAscii(name) == "readme.md"
  }

  /** `[f for f in files if f.name.lower() != "readme.md"]` */
  function DropReadmes(files: seq<string>): (r: seq<string>)
    ensures forall f :: multiset(r)[f] == if IsReadme(f) then 0 else multiset(files)[f]
    ensures forall f :: f in r <==> f in files && !IsReadme(f)
  {
    if files == [] then []
    else
      assert files == [files[0]] + files[1..];
      (if IsReadme(files[0]) then [] else [files[0]]) + DropReadmes(files[1..])
  }

  /**
   * `find_documents`: the `*.txt` matches, then the `*.md` matches, without README.md in
   * any case; an error when the directory is missing or nothing remains.
   */
  function FindDocuments(path: string, exists_: bool, txtFiles: seq<string>, mdFiles: seq<string>)
    : (r: Result<seq<string>, FindError>)
    ensures !exists_ ==> r == Failure(DirectoryMissing(path))
    ensures exists_ ==> (r.Success? <==> DropReadmes(txtFiles + mdFiles) != [])
    ensures r.Success? ==> r.value == DropReadmes(txtFiles + mdFiles)
    ensures r.Success? ==> forall f :: f in r.value <==> (f in txtFiles || f in mdFiles) && !IsReadme(f)
  {
    if !exists_ then Failure(DirectoryMissing(path))
    else
      var files := DropReadmes(txtFiles + mdFiles);
      if files == [] then Failure(NothingFound(path)) else Success(files)
  }

  // ---------------------------------------------------------------------------
  // load_documents_with_vectors

  /** What reading a file gives: its text, a UnicodeDecodeError, or another I/O error. */
  datatype FileRead = Decoded(content: string) | Undecodable | Unreadable(reason: string)

  datatype SourceFile = SourceFile(name: string, read: FileRead)

  /** The document sent to `es.index` for one chunk. */
  datatype ChunkRecord = ChunkRecord(content: string, filename: string, chunkId: nat,
                                     totalChunks: nat, embedding: seq<real>)

  datatype Totals = Totals(docs: nat, chunks: nat, chars: nat)

  /**
   * The records of one file, from `enumerate(zip(chunks, embeddings), 1)`: pair `i` gets
   * `chunk_id` `i + 1`, and every record carries `total_chunks`, the number of chunks.
   */
  function FileRecords(name: string, chunks: seq<string>, embeddings: seq<seq<real>>)
    : (rs: seq<ChunkRecord>)
    ensures |rs| == Min(|chunks|, |embeddings|)
    ensures forall i :: 0 <= i < |rs| ==>
      rs[i] == ChunkRecord(chunks[i], name, i + 1, |chunks|, embeddings[i])
  {
    seq(Min(|chunks|, |embeddings|), i requires 0 <= i < Min(|chunks|, |embeddings|) =>
      ChunkRecord(chunks[i], name, i + 1, |chunks|, embeddings[i]))
  }

  /**
   * The splitting loop with the loader's chunk size and overlap, as a function of the text;
   * with `Strip` it is `split_into_chunks`.
   */
  function Splitter(size: nat, overlap: int, strip: string -> string): string -> seq<string>
    requires 0 < size && overlap < size
  {
    text => ChunksFromStart(text, size, overlap, 0, strip)
  }

  /** The records of one file as read, its text cut by `split`; a file that does not decode adds none. */
  function ReadRecords(f: SourceFile, split: string -> seq<string>, encode: seq<string> -> seq<seq<real>>)
    : seq<ChunkRecord>
  {
    match f.read
    case Decoded(content) =>
      var chunks := split(content);
      FileRecords(f.name, chunks, encode(chunks))
    case _ => []
  }

  /** The records of all files, in file order. */
  function AllRecords(files: seq<SourceFile>, split: string -> seq<string>,
                      encode: seq<string> -> seq<seq<real>>): seq<ChunkRecord>
  {
    if files == [] then []
    else AllRecords(files[..|files| - 1], split, encode) + ReadRecords(files[|files| - 1], split, encode)
  }

  function DecodedCount(files: seq<SourceFile>): nat {
    if files == [] then 0
    else DecodedCount(files[..|files| - 1]) + (if files[|files| - 1].read.Decoded? then 1 else 0)
  }

  function DecodedChars(files: seq<SourceFile>): nat {
    if files == [] then 0
    else
      var f := files[|files| - 1];
      DecodedChars(files[..|files| - 1]) + (if f.read.Decoded? then |f.read.content| else 0)
  }

  /** The number of chunks of all decoded files. */
  function ChunkCount(files: seq<SourceFile>, split: string -> seq<string>): nat
  {
    if files == [] then 0
    else
      var f := files[|files| - 1];
      ChunkCount(files[..|files| - 1], split) + (if f.read.Decoded? then |split(f.read.content)| else 0)
  }

  /** The loop's three counters over `files`: decoded files, their chunks, their characters. */
  function TotalsOf(files: seq<SourceFile>, split: string -> seq<string>): Totals {
    Totals(DecodedCount(files), ChunkCount(files, split), DecodedChars(files))
  }

  /** No file before `k` raises anything but UnicodeDecodeError. */
  predicate ReadableBefore(files: seq<SourceFile>, k: nat) {
    forall i :: 0 <= i < k && i < |files| ==> !files[i].read.Unreadable?
  }

  /** The first file whose reading raises something other than UnicodeDecodeError. */
  function FirstUnreadable(files: seq<SourceFile>): (k: nat)
    ensures k <= |files|
    ensures ReadableBefore(files, k)
    ensures k < |files| ==> files[k].read.Unreadable?
  {
    if files == [] then 0
    else if files[0].read.Unreadable? then 0
    else
      var k := FirstUnreadable(files[1..]);
      assert forall i :: 1 <= i < k + 1 ==> files[i] == files[1..][i - 1];
      k + 1
  }

  /** One more file adds its records, and its share of each total. */
  lemma LoadedStep(files: seq<SourceFile>, k: nat, split: string -> seq<string>,
                   encode: seq<string> -> seq<seq<real>>)
    requires k < |files|
    ensures AllRecords(files[..k + 1], split, encode)
         == AllRecords(files[..k], split, encode) + ReadRecords(files[k], split, encode)
    ensures var before, f := TotalsOf(files[..k], split), files[k];
      TotalsOf(files[..k + 1], split)
      == if f.read.Decoded?
         then Totals(before.docs + 1, before.chunks + |split(f.read.content)|, before.chars + |f.read.content|)
         else before
  {
    var upto := files[..k + 1];
    assert upto[..k] == files[..k] && upto[k] == files[k];
  }

  /**
   * The loading loop: every decoded file is split, its chunks are encoded in one batch, and
   * each chunk is indexed with its number; the totals count decoded files, their chunks and
   * their characters. A file that cannot be read for another reason raises out of the loop:
   * what was indexed before it stays indexed, and no totals are reported.
   */
  method LoadDocumentsWithVectors(files: seq<SourceFile>, chunkSize: int, overlap: int,
                                  encode: seq<string> -> seq<seq<real>>)
    returns (indexed: seq<ChunkRecord>, totals: Option<Totals>)
    requires 0 < chunkSize && overlap < chunkSize
    ensures indexed == AllRecords(files[..FirstUnreadable(files)], Splitter(chunkSize, overlap, Strip), encode)
    ensures totals.Some? <==> ReadableBefore(files, |files|)
    ensures totals.Some? ==> totals.value == TotalsOf(files, Splitter(chunkSize, overlap, Strip))
  {
    indexed, totals := LoadWith(files, chunkSize, overlap, Strip, encode);
  }

  /** The loading loop, for any function applied to each window's text. */
  method LoadWith(files: seq<SourceFile>, chunkSize: int, overlap: int, strip: string -> string,
                  encode: seq<string> -> seq<seq<real>>)
    returns (indexed: seq<ChunkRecord>, totals: Option<Totals>)
    requires 0 < chunkSize && overlap < chunkSize
    ensures indexed == AllRecords(files[..FirstUnreadable(files)], Splitter(chunkSize, overlap, strip), encode)
    ensures totals.Some? <==> ReadableBefore(files, |files|)
    ensures totals.Some? ==> totals.value == TotalsOf(files, Splitter(chunkSize, overlap, strip))
  {
    indexed := [];
    var sums := Totals(0, 0, 0);
    var f := 0;
    while f < |files|
      invariant f <= |files|
      invariant LoadedUpTo(files, f, Splitter(chunkSize, overlap, strip), encode, indexed, sums)
    {
      if files[f].read.Unreadable? {
        totals := None;
        FirstUnreadableAt(files, f);
        return;
      }
      indexed, sums := AddFile(files, f, chunkSize, overlap, strip, encode, indexed, sums);
      f := f + 1;
    }
    assert files[..f] == files;
    totals := Some(sums);
  }

  /** The loading loop's state after the first `f` files, all of them readable. */
  predicate LoadedUpTo(files: seq<SourceFile>, f: nat, split: string -> seq<string>,
                       encode: seq<string> -> seq<seq<real>>, indexed: seq<ChunkRecord>, sums: Totals)
    requires f <= |files|
  {
    ReadableBefore(files, f) && indexed == AllRecords(files[..f], split, encode) && sums == TotalsOf(files[..f], split)
  }

  /** The body of the loading loop for a readable file: its records are appended and its counts added. */
  method AddFile(files: seq<SourceFile>, f: nat, chunkSize: int, overlap: int, strip: string -> string,
                 encode: seq<string> -> seq<seq<real>>, indexed: seq<ChunkRecord>, sums: Totals)
    returns (indexed': seq<ChunkRecord>, sums': Totals)
    requires 0 < chunkSize && overlap < chunkSize && f < |files| && !files[f].read.Unreadable?
    requires LoadedUpTo(files, f, Splitter(chunkSize, overlap, strip), encode, indexed, sums)
    ensures LoadedUpTo(files, f + 1, Splitter(chunkSize, overlap, strip), encode, indexed', sums')
  {
    var docs, docCount, chunkCount, charCount := LoadFile(files[f], chunkSize, overlap, strip, encode);
    LoadedStep(files, f, Splitter(chunkSize, overlap, strip), encode);
    indexed' := indexed + docs;
    sums' := Totals(sums.docs + docCount, sums.chunks + chunkCount, sums.chars + charCount);
  }

  /**
   * One file of the loading loop: a decoded file is split, encoded and indexed and counts
   * once, with its chunks and characters; a file that does not decode adds nothing.
   */
  method LoadFile(file: SourceFile, chunkSize: int, overlap: int, strip: string -> string,
                  encode: seq<string> -> seq<seq<real>>)
    returns (docs: seq<ChunkRecord>, docCount: nat, chunkCount: nat, charCount: nat)
    requires 0 < chunkSize && overlap < chunkSize && !file.read.Unreadable?
    ensures docs == ReadRecords(file, Splitter(chunkSize, overlap, strip), encode)
    ensures docCount == (if file.read.Decoded? then 1 else 0)
    ensures charCount == (if file.read.Decoded? then |file.read.content| else 0)
    ensures chunkCount == (if file.read.Decoded? then |Splitter(chunkSize, overlap, strip)(file.read.content)| else 0)
  {
    match file.read {
      case Undecodable =>
        docs, docCount, chunkCount, charCount := [], 0, 0, 0;
      case Decoded(content) =>
        var chunks := SplitWith(content, chunkSize, overlap, strip);
        assert chunks == Splitter(chunkSize, overlap, strip)(content);
        var embeddings := encode(chunks);
        docs := IndexChunks(file.name, chunks, embeddings);
        docCount, chunkCount, charCount := 1, |chunks|, |content|;
    }
  }

  /** The inner loop: one record per (chunk, vector) pair, numbered from 1. */
  method IndexChunks(name: string, chunks: seq<string>, embeddings: seq<seq<real>>)
    returns (docs: seq<ChunkRecord>)
    ensures docs == FileRecords(name, chunks, embeddings)
  {
    docs := [];
    var i := 0;
    while i < |chunks| && i < |embeddings|
      invariant 0 <= i <= Min(|chunks|, |embeddings|)
      invariant docs == FileRecords(name, chunks, embeddings)[..i]
    {
      docs := docs + [ChunkRecord(chunks[i], name, i + 1, |chunks|, embeddings[i])];
      i := i + 1;
    }
  }

  lemma {:induction false} FirstUnreadableAt(files: seq<SourceFile>, f: nat)
    requires f < |files| && files[f].read.Unreadable? && ReadableBefore(files, f)
    ensures FirstUnreadable(files) == f
    decreases f
  {
    if f > 0 {
      var tail := files[1..];
      assert ReadableBefore(tail, f - 1) by {
        forall i | 0 <= i < f - 1 ensures !tail[i].read.Unreadable? {
          assert tail[i] == files[i + 1];
        }
      }
      FirstUnreadableAt(tail, f - 1);
    }
  }

  /** With an encoder that returns one vector per chunk, every chunk is indexed. */
  lemma {:induction false} AllChunksIndexed(files: seq<SourceFile>, split: string -> seq<string>,
                                            encode: seq<string> -> seq<seq<real>>)
    requires forall cs :: |encode(cs)| == |cs|
    ensures |AllRecords(files, split, encode)| == ChunkCount(files, split)
    decreases |files|
  {
    if files != [] {
      AllChunksIndexed(files[..|files| - 1], split, encode);
    }
  }
}
