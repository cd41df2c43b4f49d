/**
 * The paragraph packer of the RAG retriever (`DocumentRetriever._split_into_chunks`):
 * the text is split on blank lines, the stripped non-empty paragraphs are packed greedily
 * into chunks of at most `chunk_size` characters, and a paragraph that does not fit starts
 * a new chunk. The `overlap` argument is never read.
 */
module Paragraphs {
  import opened Text

  /** The paragraph separator, `"\n\n"`. */
  const Sep: string := "\n\n"

  /** The size the retriever uses, the default of `chunk_size`. */
  const DefaultChunkSize: int := 500

  /** A separator starts at position `j` of `s`. */
  predicate BreakAt(s: string, j: nat) {
    j + 1 < |s| && s[j] == '\n' && s[j + 1] == '\n'
  }

  /** The text contains the separator nowhere. */
  predicate NoBreak(s: string) {
    forall j :: 0 <= j < |s| ==> !BreakAt(s, j)
  }

  /**
   * `s[start:].split("\n\n")`, scanning from `i`: the leftmost separator at or after `i`
   * ends the current part, and the scan resumes behind it.
   */
  function SplitFrom(s: string, start: nat, i: nat): (parts: seq<string>)
    requires start <= i <= |s|
    ensures parts != []
    decreases |s| - i
  {
    if BreakAt(s, i) then [s[start..i]] + SplitFrom(s, i + 2, i + 2)
    else if i < |s| then SplitFrom(s, start, i + 1)
    else [s[start..]]
  }

  /** `text.split("\n\n")` */
  function SplitParts(text: string): seq<string> {
    SplitFrom(text, 0, 0)
  }

  /** Joining the parts with the separator gives the text back. */
  lemma {:induction false} SplitFromJoin(s: string, start: nat, i: nat)
    requires start <= i <= |s|
    ensures Join(SplitFrom(s, start, i), Sep) == s[start..]
    decreases |s| - i
  {
    if BreakAt(s, i) {
      var rest := SplitFrom(s, i + 2, i + 2);
      SplitFromJoin(s, i + 2, i + 2);
      var parts := [s[start..i]] + rest;
      assert parts[1..] == rest;
      assert Join(parts, Sep) == s[start..i] + Sep + s[i + 2..];
      assert s[start..] == s[start..i] + s[i..i + 2] + s[i + 2..];
    } else if i < |s| {
      SplitFromJoin(s, start, i + 1);
    }
  }

  /** No part contains the separator, when none starts in the already scanned range. */
  lemma {:induction false} SplitFromNoBreak(s: string, start: nat, i: nat, k: nat)
    requires start <= i <= |s|
    requires forall j :: start <= j < i ==> !BreakAt(s, j)
    requires k < |SplitFrom(s, start, i)|
    ensures NoBreak(SplitFrom(s, start, i)[k])
    decreases |s| - i
  {
    if BreakAt(s, i) {
      var rest := SplitFrom(s, i + 2, i + 2);
      if k == 0 {
        var p := s[start..i];
        forall j | 0 <= j < |p| ensures !BreakAt(p, j) {
          var t: nat := start + j;
          assert BreakAt(p, j) ==> BreakAt(s, t);
        }
      } else {
        SplitFromNoBreak(s, i + 2, i + 2, k - 1);
      }
    } else if i < |s| {
      SplitFromNoBreak(s, start, i + 1, k);
    } else {
      var p := s[start..];
      forall j | 0 <= j < |p| ensures !BreakAt(p, j) {
        var t: nat := start + j;
        assert BreakAt(p, j) ==> BreakAt(s, t);
      }
    }
  }

  /**
   * Every part but the last ends at the leftmost separator: the part and the
   * separator's first character hold no separator yet.
   */
  lemma {:induction false} SplitFromLeftmost(s: string, start: nat, i: nat, k: nat)
    requires start <= i <= |s|
    requires forall j :: start <= j < i ==> !BreakAt(s, j)
    requires k + 1 < |SplitFrom(s, start, i)|
    ensures NoBreak(SplitFrom(s, start, i)[k] + "\n")
    decreases |s| - i
  {
    if BreakAt(s, i) {
      if k == 0 {
        var p := s[start..i] + "\n";
        assert p == s[start..i + 1];
        forall j | 0 <= j < |p| ensures !BreakAt(p, j) {
          var t: nat := start + j;
          assert BreakAt(p, j) ==> BreakAt(s, t) && t < i;
        }
      } else {
        SplitFromLeftmost(s, i + 2, i + 2, k - 1);
      }
    } else if i < |s| {
      SplitFromLeftmost(s, start, i + 1, k);
    }
  }

  /**
   * `text.split("\n\n")` is the split Python defines: the parts join back to
   * the text, none holds the separator, and each but the last is cut at the
   * leftmost separator after it starts.
   */
  lemma SplitPartsSpec(text: string)
    ensures Join(SplitParts(text), Sep) == text
    ensures forall k :: 0 <= k < |SplitParts(text)| ==> NoBreak(SplitParts(text)[k])
    ensures forall k :: 0 <= k < |SplitParts(text)| - 1 ==> NoBreak(SplitParts(text)[k] + "\n")
  {
    SplitFromJoin(text, 0, 0);
    forall k | 0 <= k < |SplitParts(text)| ensures NoBreak(SplitParts(text)[k]) {
      SplitFromNoBreak(text, 0, 0, k);
    }
    forall k | 0 <= k < |SplitParts(text)| - 1 ensures NoBreak(SplitParts(text)[k] + "\n") {
      SplitFromLeftmost(text, 0, 0, k);
    }
  }

  /** `[p.strip() for p in parts]` */
  function StripAll(parts: seq<string>): (r: seq<string>)
    ensures |r| == |parts|
    ensures forall k :: 0 <= k < |parts| ==> r[k] == Strip(parts[k])
  {
    seq(|parts|, k requires 0 <= k < |parts| => Strip(parts[k]))
  }

  /** `[p.strip() for p in text.split("\n\n") if p.strip()]` */
  function Paragraphs(text: string): seq<string> {
    NonEmptyFrom(StripAll(SplitParts(text)), 0)
  }

  /** A list of stripped, non-empty paragraphs. */
  predicate Clean(ps: seq<string>) {
    forall j :: 0 <= j < |ps| ==> ps[j] != [] && Stripped(ps[j])
  }

  /**
   * The paragraphs are the stripped blank-line-separated parts that are not empty, in
   * text order, and none of them is left out.
   */
  lemma ParagraphsSpec(text: string)
    ensures Clean(Paragraphs(text))
    ensures var parts := SplitParts(text); var idx := Kept(StripAll(parts), 0);
      && |Paragraphs(text)| == |idx|
      && (forall j :: 0 <= j < |idx| ==> Paragraphs(text)[j] == Strip(parts[idx[j]]))
  {
    NonEmptyIsKept(StripAll(SplitParts(text)), 0);
  }

  /** Joined by the separator, stripped non-empty paragraphs give stripped non-empty text. */
  lemma {:induction false} JoinClean(run: seq<string>)
    requires run != [] && Clean(run)
    ensures Join(run, Sep) != [] && Stripped(Join(run, Sep))
    ensures |Join(run, Sep)| >= |run[0]|
    decreases |run|
  {
    if |run| > 1 {
      var rest := Join(run[1..], Sep);
      JoinClean(run[1..]);
      var s := run[0] + Sep + rest;
      assert s[0] == run[0][0];
      assert s[|s| - 1] == rest[|rest| - 1];
    }
  }

  /** The current chunk of the loop, `p1 + "\n\n" + ... + pn + "\n\n"`, strips to the joined run. */
  lemma StripCurrent(run: seq<string>)
    requires run != [] && Clean(run)
    ensures Strip(Join(run, Sep) + Sep) == Join(run, Sep)
  {
    JoinClean(run);
    StripTrailingSpace(Join(run, Sep), Sep);
  }

  /** How far the run that started at `k` extends once the loop has packed `ps[k..i]`. */
  function RunEnd(ps: seq<string>, size: int, k: nat, i: nat): (e: nat)
    requires k < i <= |ps|
    ensures i <= e <= |ps|
    decreases |ps| - i
  {
    if i == |ps| then i
    else if |Join(ps[k..i], Sep) + Sep| + |ps[i]| <= size then RunEnd(ps, size, k, i + 1)
    else i
  }

  /** The runs of consecutive paragraphs from `k` on that become one chunk each. */
  function Groups(ps: seq<string>, size: int, k: nat): seq<seq<string>>
    requires k <= |ps|
    decreases |ps| - k
  {
    if k == |ps| then []
    else
      var e := RunEnd(ps, size, k, k + 1);
      [ps[k..e]] + Groups(ps, size, e)
  }

  /** Each run joined by the separator. */
  function JoinAll(gs: seq<seq<string>>): (r: seq<string>)
    ensures |r| == |gs|
    ensures forall j :: 0 <= j < |gs| ==> r[j] == Join(gs[j], Sep)
  {
    if gs == [] then [] else [Join(gs[0], Sep)] + JoinAll(gs[1..])
  }

  /** What `_split_into_chunks(text, size, overlap)` returns, whatever `overlap` is. */
  function ParagraphChunks(text: string, size: int): seq<string> {
    JoinAll(Groups(Paragraphs(text), size, 0))
  }

  /** The runs the packing loop still emits when it has packed `ps[k..i]` into the current chunk. */
  function Pending(ps: seq<string>, size: int, k: nat, i: nat): seq<seq<string>>
    requires k < i <= |ps|
  {
    var e := RunEnd(ps, size, k, i);
    [ps[k..e]] + Groups(ps, size, e)
  }

  /** The packing loop. */
  method SplitParagraphChunks(text: string, chunkSize: int, overlap: int) returns (chunks: seq<string>)
    ensures chunks == ParagraphChunks(text, chunkSize)
  {
    var paragraphs := Paragraphs(text);
    ParagraphsSpec(text);
    ghost var k: nat := 0;
    chunks := [];
    var current: string := "";
    for i := 0 to |paragraphs|
      invariant Packed(paragraphs, chunkSize, k, i, current, chunks)
    {
      k, current, chunks := PackParagraph(paragraphs, chunkSize, k, i, current, chunks);
    }
    ghost var chunks0 := chunks;
    if current != [] {
      chunks := chunks + [Strip(current)];
    }
    PackDone(paragraphs, chunkSize, k, current, chunks0, chunks);
  }

  /** One pass of the packing loop: extend the current chunk with paragraph `i`, or emit it and start anew. */
  method PackParagraph(paragraphs: seq<string>, chunkSize: int, ghost k: nat, i: nat, current: string, chunks: seq<string>)
    returns (ghost k': nat, current': string, chunks': seq<string>)
    requires Clean(paragraphs) && i < |paragraphs| && Packed(paragraphs, chunkSize, k, i, current, chunks)
    ensures Packed(paragraphs, chunkSize, k', i + 1, current', chunks')
  {
    var paragraph := paragraphs[i];
    k', chunks' := k, chunks;
    if |current| + |paragraph| <= chunkSize {
      current' := current + paragraph + Sep;
    } else {
      if current != [] {
        chunks' := chunks + [Strip(current)];
      }
      current' := paragraph + Sep;
      k' := i;
    }
    PackStep(paragraphs, chunkSize, k, i, current, chunks, k', current', chunks');
  }

  /**
   * The state of the packing loop after `i` paragraphs: the current chunk holds the run
   * `ps[k..i]`, and the chunks emitted so far followed by the runs still pending are all
   * the chunks.
   */
  predicate Packed(ps: seq<string>, size: int, k: nat, i: nat, current: string, chunks: seq<string>) {
    && k <= i <= |ps|
    && (i == 0 ==> current == [] && chunks == [])
    && (i > 0 ==> k < i && current == Join(ps[k..i], Sep) + Sep
                  && chunks + JoinAll(Pending(ps, size, k, i)) == JoinAll(Groups(ps, size, 0)))
  }

  /** One pass of the loop keeps its state. */
  lemma PackStep(ps: seq<string>, size: int, k: nat, i: nat, current: string, chunks: seq<string>,
                 k': nat, current': string, chunks': seq<string>)
    requires Clean(ps) && i < |ps| && Packed(ps, size, k, i, current, chunks)
    requires var fits := |current| + |ps[i]| <= size;
      && current' == (if fits then current + ps[i] + Sep else ps[i] + Sep)
      && chunks' == (if fits || current == [] then chunks else chunks + [Strip(current)])
      && k' == (if fits then k else i)
    ensures Packed(ps, size, k', i + 1, current', chunks')
  {
    if i == 0 {
      FirstStep(ps, size);
    } else if |current| + |ps[i]| <= size {
      FitStep(ps, size, k, i);
    } else {
      StripCurrent(ps[k..i]);
      BreakStep(ps, size, k, i, chunks);
    }
  }

  /** After the last paragraph the current chunk, if any, is the last run. */
  lemma PackDone(ps: seq<string>, size: int, k: nat, current: string, chunks: seq<string>,
                 chunks': seq<string>)
    requires Clean(ps) && Packed(ps, size, k, |ps|, current, chunks)
    requires chunks' == if current != [] then chunks + [Strip(current)] else chunks
    ensures chunks' == JoinAll(Groups(ps, size, 0))
  {
    if ps != [] {
      StripCurrent(ps[k..]);
      assert ps[k..|ps|] == ps[k..];
    }
  }

  /** The first paragraph always starts the first run, whether or not it fits. */
  lemma FirstStep(ps: seq<string>, size: int)
    requires ps != []
    ensures ps[0] + Sep == Join(ps[0..1], Sep) + Sep
    ensures JoinAll(Pending(ps, size, 0, 1)) == JoinAll(Groups(ps, size, 0))
  {
    assert ps[0..1] == [ps[0]];
  }

  /** A paragraph that fits extends the current run. */
  lemma FitStep(ps: seq<string>, size: int, k: nat, i: nat)
    requires k < i < |ps|
    requires |Join(ps[k..i], Sep) + Sep| + |ps[i]| <= size
    ensures Join(ps[k..i], Sep) + Sep + ps[i] + Sep == Join(ps[k..i + 1], Sep) + Sep
    ensures Pending(ps, size, k, i + 1) == Pending(ps, size, k, i)
  {
    assert ps[k..i + 1] == ps[k..i] + [ps[i]];
    JoinAppend(ps[k..i], ps[i], Sep);
  }

  /** A paragraph that does not fit closes the current run and starts the next. */
  lemma BreakStep(ps: seq<string>, size: int, k: nat, i: nat, before: seq<string>)
    requires k < i < |ps|
    requires |Join(ps[k..i], Sep) + Sep| + |ps[i]| > size
    requires before + JoinAll(Pending(ps, size, k, i)) == JoinAll(Groups(ps, size, 0))
    ensures ps[i] + Sep == Join(ps[i..i + 1], Sep) + Sep
    ensures (before + [Join(ps[k..i], Sep)]) + JoinAll(Pending(ps, size, i, i + 1))
         == JoinAll(Groups(ps, size, 0))
  {
    assert ps[i..i + 1] == [ps[i]];
    assert Pending(ps, size, k, i) == [ps[k..i]] + Pending(ps, size, i, i + 1);
    var rest := Pending(ps, size, i, i + 1);
    assert ([ps[k..i]] + rest)[1..] == rest;
    assert JoinAll(Pending(ps, size, k, i)) == [Join(ps[k..i], Sep)] + JoinAll(rest);
  }

  /** Concatenation of the runs in order. */
  function Flatten(gs: seq<seq<string>>): seq<string> {
    if gs == [] then [] else gs[0] + Flatten(gs[1..])
  }

  /** The runs, concatenated in order, give back the paragraph list. */
  lemma {:induction false} GroupsFlatten(ps: seq<string>, size: int, k: nat)
    requires k <= |ps|
    ensures Flatten(Groups(ps, size, k)) == ps[k..]
    decreases |ps| - k
  {
    if k < |ps| {
      var e := RunEnd(ps, size, k, k + 1);
      GroupsFlatten(ps, size, e);
      var gs := Groups(ps, size, k);
      assert gs[1..] == Groups(ps, size, e);
      assert ps[k..] == ps[k..e] + ps[e..];
    }
  }

  /**
   * The run from `k` stops only at the end of the list or where the next paragraph would
   * overflow the chunk, and a run of two or more paragraphs fits into `size`.
   */
  lemma {:induction false} RunEndSpec(ps: seq<string>, size: int, k: nat, i: nat)
    requires k < i <= |ps|
    requires i > k + 1 ==> |Join(ps[k..i], Sep)| <= size
    ensures var e := RunEnd(ps, size, k, i);
      && (e > k + 1 ==> |Join(ps[k..e], Sep)| <= size)
      && (e < |ps| ==> |Join(ps[k..e], Sep)| + 2 + |ps[e]| > size)
    decreases |ps| - i
  {
    if i < |ps| && |Join(ps[k..i], Sep) + Sep| + |ps[i]| <= size {
      assert ps[k..i + 1] == ps[k..i] + [ps[i]];
      JoinAppend(ps[k..i], ps[i], Sep);
      RunEndSpec(ps, size, k, i + 1);
    }
  }

  /**
   * The shape of run `j`: it is not empty, it fits into `size` unless it is a single
   * paragraph, and it was closed only because the first paragraph of the next run did not fit.
   */
  lemma {:induction false} GroupShape(ps: seq<string>, size: int, k: nat, j: nat)
    requires k <= |ps| && j < |Groups(ps, size, k)|
    ensures var gs := Groups(ps, size, k);
      && gs[j] != []
      && (|gs[j]| >= 2 ==> |Join(gs[j], Sep)| <= size)
      && (j + 1 < |gs| ==> gs[j + 1] != [] && |Join(gs[j], Sep)| + 2 + |gs[j + 1][0]| > size)
    decreases |ps| - k
  {
    var e := RunEnd(ps, size, k, k + 1);
    var gs := Groups(ps, size, k);
    assert gs[1..] == Groups(ps, size, e);
    if j == 0 {
      RunEndSpec(ps, size, k, k + 1);
      if 1 < |gs| {
        assert gs[1] == ps[e..RunEnd(ps, size, e, e + 1)];
      }
    } else {
      GroupShape(ps, size, e, j - 1);
    }
  }

  /** Every chunk is non-empty and has no outer whitespace. */
  lemma ChunksClean(text: string, size: int, j: nat)
    requires j < |ParagraphChunks(text, size)|
    ensures ParagraphChunks(text, size)[j] != [] && Stripped(ParagraphChunks(text, size)[j])
  {
    var ps := Paragraphs(text);
    ParagraphsSpec(text);
    GroupShape(ps, size, 0, j);
    GroupClean(ps, size, 0, j);
    JoinClean(Groups(ps, size, 0)[j]);
  }

  lemma {:induction false} GroupClean(ps: seq<string>, size: int, k: nat, j: nat)
    requires Clean(ps) && k <= |ps| && j < |Groups(ps, size, k)|
    ensures Clean(Groups(ps, size, k)[j])
    decreases |ps| - k
  {
    var e := RunEnd(ps, size, k, k + 1);
    assert Groups(ps, size, k)[1..] == Groups(ps, size, e);
    if j > 0 {
      GroupClean(ps, size, e, j - 1);
    }
  }

  /**
   * A chunk longer than `size` is a single paragraph, emitted unsplit; so a paragraph longer
   * than `size` is a chunk on its own.
   */
  lemma OversizedAlone(ps: seq<string>, size: int, j: nat, i: nat)
    requires j < |Groups(ps, size, 0)|
    requires i < |Groups(ps, size, 0)[j]| && |Groups(ps, size, 0)[j][i]| > size
    ensures Groups(ps, size, 0)[j] == [Groups(ps, size, 0)[j][i]]
  {
    var g := Groups(ps, size, 0)[j];
    GroupShape(ps, size, 0, j);
    if |g| >= 2 {
      JoinPartLength(g, i);
      assert false;
    }
  }

  /** Each part is no longer than the joined text. */
  lemma {:induction false} JoinPartLength(g: seq<string>, i: nat)
    requires i < |g|
    ensures |g[i]| <= |Join(g, Sep)|
    decreases |g|
  {
    if |g| > 1 && i > 0 {
      JoinPartLength(g[1..], i - 1);
    }
  }
}
