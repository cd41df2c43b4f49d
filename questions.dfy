/**
 * Question sets: Q/A extraction from document text, `extract_questions` over a
 * document list, and `load_questions` from a JSON-lines file.
 */
module Questions {
  import opened Wrappers
  import opened Text
  import opened Docs
  import Markdown
  import opened PySeq

  /** A question record: a dictionary with `question` and, usually, `answer`. */
  type QA = map<string, string>

  /** The patterns `extract_from_text` runs: three Q/A forms, then markdown headings. */
  datatype Pattern = BoldQ | PlainQ | CyrillicQ | HeadingQ

  /** The Q/A patterns, in the order they are tried. */
  const QaPatterns: seq<Pattern> := [BoldQ, PlainQ, CyrillicQ]

  /** The two groups of one regular-expression match: raw question and raw answer. */
  datatype Match = Match(question: string, answer: string)

  /**
   * `re.finditer(pattern, text)` as the list of its matches, in text order.
   * The regular-expression engine is not part of this model.
   */
  type Finder = (Pattern, string) -> seq<Match>

  /** `question_text and answer_text and len(answer_text) > 10` */
  predicate Accepts(q: string, a: string) {
    q != [] && a != [] && |a| > 10
  }

  /** `{'question': q, 'answer': a}` */
  function Pair(q: string, a: string): QA {
    map["question" := q, "answer" := a]
  }

  /**
   * The records made from the matches whose cleaned texts pass the filter,
   * in match order. `clean` is the text cleaner: the methods below pass
   * `Markdown.CleanMarkdownText`.
   */
  function Accepted(ms: seq<Match>, clean: string -> string): seq<QA>
  {
    if ms == [] then []
    else
      var m := ms[|ms| - 1];
      var q := clean(m.question);
      var a := clean(m.answer);
      Accepted(ms[..|ms| - 1], clean) + (if Accepts(q, a) then [Pair(q, a)] else [])
  }

  /** The records of each pattern of `ps` in turn. */
  function PatternsAccepted(ps: seq<Pattern>, text: string, finder: Finder, clean: string -> string): seq<QA>
  {
    if ps == [] then []
    else PatternsAccepted(ps[..|ps| - 1], text, finder, clean) + Accepted(finder(ps[|ps| - 1], text), clean)
  }

  /** What `extract_from_text` returns: the three Q/A patterns' records in pattern order, then the headings'. */
  function FromText(text: string, finder: Finder, clean: string -> string): seq<QA> {
    PatternsAccepted(QaPatterns, text, finder, clean) + Accepted(finder(HeadingQ, text), clean)
  }

  /** The pattern order spelled out. */
  lemma FromTextOrder(text: string, finder: Finder, clean: string -> string)
    ensures FromText(text, finder, clean)
         == Accepted(finder(BoldQ, text), clean) + Accepted(finder(PlainQ, text), clean)
            + Accepted(finder(CyrillicQ, text), clean) + Accepted(finder(HeadingQ, text), clean)
  {
    var ps := QaPatterns;
    assert ps[..2] == [BoldQ, PlainQ] && [BoldQ, PlainQ][..1] == [BoldQ] && [BoldQ][..0] == [];
    assert PatternsAccepted(ps, text, finder, clean)
        == PatternsAccepted([BoldQ, PlainQ], text, finder, clean) + Accepted(finder(CyrillicQ, text), clean);
    assert PatternsAccepted([BoldQ, PlainQ], text, finder, clean)
        == PatternsAccepted([BoldQ], text, finder, clean) + Accepted(finder(PlainQ, text), clean);
    assert PatternsAccepted([BoldQ], text, finder, clean) == Accepted(finder(BoldQ, text), clean);
  }

  /** Filtering distributes over concatenation: matches are never merged or de-duplicated. */
  lemma {:induction false} AcceptedAppend(a: seq<Match>, b: seq<Match>, clean: string -> string)
    ensures Accepted(a + b, clean) == Accepted(a, clean) + Accepted(b, clean)
    decreases |b|
  {
    if b == [] {
      assert a + b == a;
    } else {
      var n := |b| - 1;
      assert (a + b)[..|a + b| - 1] == a + b[..n];
      assert (a + b)[|a + b| - 1] == b[n];
      AcceptedAppend(a, b[..n], clean);
    }
  }

  /**
   * Every extracted record holds the cleaned texts of one match, with a
   * non-empty question and an answer longer than 10 characters, both with
   * single-spaced, stripped text.
   */
  lemma {:induction false} AcceptedRecords(ms: seq<Match>, j: nat) returns (i: nat)
    requires j < |Accepted(ms, Markdown.CleanMarkdownText)|
    ensures i < |ms|
    ensures var q := Markdown.CleanMarkdownText(ms[i].question);
            var a := Markdown.CleanMarkdownText(ms[i].answer);
            Accepts(q, a) && Accepted(ms, Markdown.CleanMarkdownText)[j] == Pair(q, a)
    ensures var r := Accepted(ms, Markdown.CleanMarkdownText)[j];
            "question" in r && "answer" in r && r["question"] != [] && |r["answer"]| > 10
            && Stripped(r["question"]) && Markdown.SingleSpaced(r["question"])
            && Stripped(r["answer"]) && Markdown.SingleSpaced(r["answer"])
    decreases |ms|
  {
    var n := |ms| - 1;
    var pre := Accepted(ms[..n], Markdown.CleanMarkdownText);
    if j < |pre| {
      i := AcceptedRecords(ms[..n], j);
      assert ms[..n][i] == ms[i];
    } else {
      i := n;
    }
    Markdown.CleanShape(ms[i].question);
    Markdown.CleanShape(ms[i].answer);
  }

  /** Every accepted match yields a record: the count is exactly the number of accepted matches. */
  function AcceptedCount(ms: seq<Match>, clean: string -> string): nat
  {
    if ms == [] then 0
    else
      var m := ms[|ms| - 1];
      AcceptedCount(ms[..|ms| - 1], clean) + (if Accepts(clean(m.question), clean(m.answer)) then 1 else 0)
  }

  lemma {:induction false} AcceptedLength(ms: seq<Match>, clean: string -> string)
    ensures |Accepted(ms, clean)| == AcceptedCount(ms, clean) <= |ms|
    decreases |ms|
  {
    if ms != [] {
      AcceptedLength(ms[..|ms| - 1], clean);
    }
  }

  /** The inner loop of `extract_from_text`: clean, filter and append one pattern's matches. */
  method AppendAccepted(questions: seq<QA>, matches: seq<Match>, clean: string -> string) returns (qs: seq<QA>)
    ensures qs == questions + Accepted(matches, clean)
  {
    qs := questions;
    for k := 0 to |matches|
      invariant qs == questions + Accepted(matches[..k], clean)
    {
      var questionText := clean(matches[k].question);
      var answerText := clean(matches[k].answer);
      assert matches[..k + 1][..k] == matches[..k];
      if questionText != [] && answerText != [] && |answerText| > 10 {
        qs := qs + [map["question" := questionText, "answer" := answerText]];
      }
    }
    assert matches[..|matches|] == matches;
  }

  /** `QuestionExtractor.extract_from_text(text)` */
  method ExtractFromText(text: string, finder: Finder) returns (questions: seq<QA>)
    ensures questions == FromText(text, finder, Markdown.CleanMarkdownText)
  {
    questions := ExtractWith(text, finder, Markdown.CleanMarkdownText);
  }

  /** The pattern loop of `extract_from_text`, for any cleaning function. */
  method ExtractWith(text: string, finder: Finder, clean: string -> string) returns (questions: seq<QA>)
    ensures questions == FromText(text, finder, clean)
  {
    var patterns := QaPatterns;
    questions := [];
    for p := 0 to |patterns|
      invariant questions == PatternsAccepted(patterns[..p], text, finder, clean)
    {
      assert patterns[..p + 1][..p] == patterns[..p];
      questions := AppendAccepted(questions, finder(patterns[p], text), clean);
    }
    assert patterns[..|patterns|] == patterns;
    questions := AppendAccepted(questions, finder(HeadingQ, text), clean);
  }

  /** `doc.get('content', '')` */
  function Content(doc: Document): string { Get(doc, "content", "") }

  /** The records one document contributes: none when its content is missing or empty. */
  function DocQuestions(d: Document, finder: Finder, clean: string -> string): seq<QA> {
    if Content(d) != [] then FromText(Content(d), finder, clean) else []
  }

  /** What `extract_questions(documents)` returns: each document's records, in document order. */
  function AllExtracted(docs: seq<Document>, finder: Finder, clean: string -> string): seq<QA> {
    FlatMap(docs, Extractor(finder, clean))
  }

  /** `extractor.extract_from_text(doc['content'])` as a function of the document. */
  function Extractor(finder: Finder, clean: string -> string): Document -> seq<QA> {
    d => DocQuestions(d, finder, clean)
  }

  /** A document without content contributes nothing, wherever it stands. */
  lemma ContentlessSkipped(a: seq<Document>, d: Document, b: seq<Document>, finder: Finder, clean: string -> string)
    requires Content(d) == []
    ensures AllExtracted(a + [d] + b, finder, clean) == AllExtracted(a + b, finder, clean)
  {
    var f := Extractor(finder, clean);
    FlatMapAppend(a + [d], b, f);
    FlatMapAppend(a, [d], f);
    FlatMapAppend(a, b, f);
    assert FlatMap([d], f) == [] by {
      assert [d][..0] == [];
    }
  }

  /** A document with content contributes exactly what its text yields, in place. */
  lemma ContentExtracted(a: seq<Document>, d: Document, b: seq<Document>, finder: Finder, clean: string -> string)
    requires Content(d) != []
    ensures AllExtracted(a + [d] + b, finder, clean)
         == AllExtracted(a, finder, clean) + FromText(Content(d), finder, clean) + AllExtracted(b, finder, clean)
  {
    var f := Extractor(finder, clean);
    FlatMapAppend(a + [d], b, f);
    FlatMapAppend(a, [d], f);
    assert FlatMap([d], f) == FromText(Content(d), finder, clean) by {
      assert [d][..0] == [];
    }
  }

  /** `extract_questions(documents)` */
  method ExtractQuestions(documents: seq<Document>, finder: Finder) returns (allQuestions: seq<QA>)
    ensures allQuestions == AllExtracted(documents, finder, Markdown.CleanMarkdownText)
  {
    allQuestions := [];
    for i := 0 to |documents|
      invariant allQuestions == AllExtracted(documents[..i], finder, Markdown.CleanMarkdownText)
    {
      var content := Get(documents[i], "content", "");
      assert documents[..i + 1][..i] == documents[..i];
      if content != [] {
        var extracted := ExtractFromText(content, finder);
        allQuestions := allQuestions + extracted;
      }
    }
    assert documents[..|documents|] == documents;
  }

  // ---------------------------------------------------------------------
  // Loading a JSON-lines file

  /**
   * The records of `lines`: blank lines skipped, every other line parsed;
   * None as soon as one line does not parse. `parse` is `json.loads`
   * (None: it raised).
   */
  function ParsedLines(lines: seq<string>, parse: string -> Option<QA>): Option<seq<QA>>
  {
    if lines == [] then Some([])
    else ParseLine(ParsedLines(lines[..|lines| - 1], parse), lines[|lines| - 1], parse)
  }

  /** One line of the loop: skipped when blank, else parsed and appended; a failure sticks. */
  function ParseLine(acc: Option<seq<QA>>, line: string, parse: string -> Option<QA>): Option<seq<QA>>
  {
    match acc
    case None => None
    case Some(qs) =>
      var stripped := Strip(line);
      if stripped == [] then Some(qs)
      else match parse(stripped)
        case None => None
        case Some(q) => Some(qs + [q])
  }

  /** What `load_questions(filepath)` returns. `read` gives the file's lines (None: it cannot be opened). */
  function LoadedQuestions(filepath: string, read: string -> Option<seq<string>>, parse: string -> Option<QA>): seq<QA>
  {
    match read(filepath)
    case None => []
    case Some(lines) => ParsedLines(lines, parse).GetOr([])
  }

  /** A blank line contributes nothing, wherever it stands. */
  lemma {:induction false} BlankLineSkipped(a: seq<string>, blank: string, b: seq<string>, parse: string -> Option<QA>)
    requires Strip(blank) == []
    ensures ParsedLines(a + [blank] + b, parse) == ParsedLines(a + b, parse)
    decreases |b|
  {
    if b == [] {
      assert a + [blank] + b == a + [blank];
      assert a + b == a;
      ParsedLast(a, blank, parse);
      BlankKeeps(ParsedLines(a, parse), blank, parse);
    } else {
      var n := |b| - 1;
      assert a + [blank] + b == (a + [blank] + b[..n]) + [b[n]];
      assert a + b == (a + b[..n]) + [b[n]];
      BlankLineSkipped(a, blank, b[..n], parse);
      ParsedLast(a + [blank] + b[..n], b[n], parse);
      ParsedLast(a + b[..n], b[n], parse);
    }
  }

  /** The loop's last step, on the line appended last. */
  lemma ParsedLast(init: seq<string>, line: string, parse: string -> Option<QA>)
    ensures ParsedLines(init + [line], parse) == ParseLine(ParsedLines(init, parse), line, parse)
  {
    assert (init + [line])[..|init|] == init;
  }

  /** A blank line leaves the accumulated result as it is. */
  lemma BlankKeeps(acc: Option<seq<QA>>, blank: string, parse: string -> Option<QA>)
    requires Strip(blank) == []
    ensures ParseLine(acc, blank, parse) == acc
  {
  }

  /** A line that does not parse empties the whole result, as the `except` branch returns `[]`. */
  lemma {:induction false} BadLineFails(lines: seq<string>, k: nat, parse: string -> Option<QA>)
    requires k < |lines| && Strip(lines[k]) != [] && parse(Strip(lines[k])).None?
    ensures ParsedLines(lines, parse) == None
    decreases |lines|
  {
    var n := |lines| - 1;
    if k < n {
      assert lines[..n][k] == lines[k];
      BadLineFails(lines[..n], k, parse);
      assert ParseLine(None, lines[n], parse) == None;
    } else {
      var acc := ParsedLines(lines[..n], parse);
      assert ParseLine(acc, lines[n], parse) == None by {
        var stripped := Strip(lines[n]);
        assert stripped != [] && parse(stripped).None?;
      }
    }
  }

  /** The number of lines that are not blank. */
  function NonBlankCount(lines: seq<string>): nat
  {
    if lines == [] then 0
    else NonBlankCount(lines[..|lines| - 1]) + (if Strip(lines[|lines| - 1]) != [] then 1 else 0)
  }

  /** When every line parses, each non-blank line gives one record. */
  lemma {:induction false} ParsedLinesCount(lines: seq<string>, parse: string -> Option<QA>)
    requires ParsedLines(lines, parse).Some?
    ensures |ParsedLines(lines, parse).value| == NonBlankCount(lines)
    decreases |lines|
  {
    if lines != [] {
      ParsedLinesCount(lines[..|lines| - 1], parse);
    }
  }

  /** `load_questions(filepath)`: read, skip blank lines, parse the rest; `[]` on any error. */
  method LoadQuestions(filepath: string, read: string -> Option<seq<string>>, parse: string -> Option<QA>)
    returns (questions: seq<QA>)
    ensures questions == LoadedQuestions(filepath, read, parse)
  {
    var file := read(filepath);
    if file.None? {
      return [];
    }
    var lines := file.value;
    questions := [];
    for i := 0 to |lines|
      invariant ParsedLines(lines[..i], parse) == Some(questions)
    {
      var line := Strip(lines[i]);
      assert lines[..i + 1][..i] == lines[..i];
      if line != [] {
        var q := parse(line);
        if q.None? {
          BadLineFails(lines, i, parse);
          return [];
        }
        questions := questions + [q.value];
      }
    }
    assert lines[..|lines|] == lines;
  }
}
