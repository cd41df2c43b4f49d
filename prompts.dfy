/**
 * `create_rag_prompt`: the retrieved chunks become numbered context parts,
 * joined by blank lines and placed, with the question, into a fixed
 * instruction template.
 */
module Prompts {
  import opened Text
  import opened Records

  /** The template's opening instruction, before the context. */
  const RagIntro: string := "Ты ассистент банка ПСБ (Промсвязьбанк). Отвечай только на основе предоставленного контекста.\n\n"

  /** The line that introduces the context. */
  const ContextLabel: string := "КОНТЕКСТ:\n"

  /** Between the context and the question. */
  const QuestionLabel: string := "\n\nВОПРОС: "

  /** The instructions after the question. */
  const RagTail: string := "\n\nИНСТРУКЦИИ:\n1. Используй ТОЛЬКО информацию из контекста\n2. Если в контексте нет ответа - скажи \"Информация не найдена в документах\"\n3. Ссылайся на chunks с высокой релевантностью (>80%)\n4. Отвечай кратко и по делу\n5. Используй русский язык\n\nОТВЕТ:"

  /**
   * The context part for chunk number `i`: its text under a `[Chunk i]` header,
   * which with `include_scores` also gives the score as a percentage (`percent`
   * is the `:.0%` format) and the source.
   */
  function ContextPart(i: nat, c: ChunkInfo, includeScores: bool, percent: real -> string): string {
    if includeScores then
      "[Chunk " + NatToString(i) + ", релевантность: " + percent(ScoreOf(c)) + ", источник: " + SourceOf(c) + "]\n" + TextOf(c)
    else "[Chunk " + NatToString(i) + "]\n" + TextOf(c)
  }

  /** The parts of `enumerate(chunks, 1)`, one per chunk in chunk order. */
  function ContextParts(chunks: seq<ChunkInfo>, includeScores: bool, percent: real -> string): (ps: seq<string>)
    ensures |ps| == |chunks|
    ensures forall k :: 0 <= k < |chunks| ==> ps[k] == ContextPart(k + 1, chunks[k], includeScores, percent)
  {
    seq(|chunks|, k requires 0 <= k < |chunks| => ContextPart(k + 1, chunks[k], includeScores, percent))
  }

  /** `"\n\n".join(context_parts)` */
  function Context(chunks: seq<ChunkInfo>, includeScores: bool, percent: real -> string): string {
    Join(ContextParts(chunks, includeScores, percent), "\n\n")
  }

  /** `head`, then `context`, then `mid`, then `question`, then `tail`. */
  function Framed(head: string, context: string, mid: string, question: string, tail: string): string {
    head + context + mid + question + tail
  }

  /** Each piece of a framed text can be read back at its offset. */
  lemma FramedLayout(head: string, context: string, mid: string, question: string, tail: string)
    ensures var p := Framed(head, context, mid, question, tail);
      var c := |head|;
      var l := c + |context|;
      var q := l + |mid|;
      var t := q + |question|;
      && |p| == t + |tail|
      && p[..c] == head && p[c..l] == context && p[l..q] == mid && p[q..t] == question && p[t..] == tail
  {
    var p := Framed(head, context, mid, question, tail);
    var c := |head|;
    var l := c + |context|;
    var q := l + |mid|;
    var t := q + |question|;
    assert p == (((head + context) + mid) + question) + tail;
    assert p[..t] == ((head + context) + mid) + question;
    assert p[..q] == (head + context) + mid;
    assert p[..l] == head + context;
  }

  /** The prompt for `question` around `context`. */
  function RagPrompt(question: string, context: string): string {
    Framed(RagIntro + ContextLabel, context, QuestionLabel, question, RagTail)
  }

  /** `create_rag_prompt(question, chunks, include_scores)` */
  method CreateRagPrompt(question: string, chunks: seq<ChunkInfo>, includeScores: bool, percent: real -> string)
    returns (prompt: string)
    ensures prompt == RagPrompt(question, Context(chunks, includeScores, percent))
  {
    var contextParts: seq<string> := [];
    for i := 0 to |chunks|
      invariant |contextParts| == i
      invariant forall k :: 0 <= k < i ==> contextParts[k] == ContextPart(k + 1, chunks[k], includeScores, percent)
    {
      var chunk := chunks[i];
      var text := TextOf(chunk);
      var score := ScoreOf(chunk);
      var source := SourceOf(chunk);
      if includeScores {
        contextParts := contextParts + ["[Chunk " + NatToString(i + 1) + ", релевантность: " + percent(score)
                                        + ", источник: " + source + "]\n" + text];
      } else {
        contextParts := contextParts + ["[Chunk " + NatToString(i + 1) + "]\n" + text];
      }
    }
    assert contextParts == ContextParts(chunks, includeScores, percent);
    var context := Join(contextParts, "\n\n");
    prompt := RagIntro + ContextLabel + context + QuestionLabel + question + RagTail;
  }

  /** No chunks give an empty context; one chunk gives its part alone. */
  lemma ContextSmall(chunks: seq<ChunkInfo>, includeScores: bool, percent: real -> string)
    ensures chunks == [] ==> Context(chunks, includeScores, percent) == []
    ensures |chunks| == 1 ==> Context(chunks, includeScores, percent) == ContextPart(1, chunks[0], includeScores, percent)
  {
  }

  /**
   * One more chunk appends a blank line and its part, numbered after the
   * others: the parts appear in chunk order.
   */
  lemma ContextAppend(chunks: seq<ChunkInfo>, c: ChunkInfo, includeScores: bool, percent: real -> string)
    requires chunks != []
    ensures Context(chunks + [c], includeScores, percent)
         == Context(chunks, includeScores, percent) + "\n\n" + ContextPart(|chunks| + 1, c, includeScores, percent)
  {
    var ps := ContextParts(chunks, includeScores, percent);
    assert ContextParts(chunks + [c], includeScores, percent) == ps + [ContextPart(|chunks| + 1, c, includeScores, percent)];
    JoinAppend(ps, ContextPart(|chunks| + 1, c, includeScores, percent), "\n\n");
  }

  /**
   * Without scores, chunk `k` contributes exactly a `[Chunk k+1]` line and its
   * text; a chunk without `text` contributes the line alone.
   */
  lemma PlainPart(chunks: seq<ChunkInfo>, percent: real -> string, k: nat)
    requires k < |chunks|
    ensures ContextParts(chunks, false, percent)[k] == "[Chunk " + NatToString(k + 1) + "]\n" + TextOf(chunks[k])
    ensures chunks[k].text.None? ==> ContextParts(chunks, false, percent)[k] == "[Chunk " + NatToString(k + 1) + "]\n"
  {
  }

  /**
   * The prompt has the `КОНТЕКСТ:` line, then the context, then `ВОПРОС: ` and
   * the question; context and question can be read back from it.
   */
  lemma PromptLayout(question: string, context: string)
    ensures var p := RagPrompt(question, context);
      var c := |RagIntro| + |ContextLabel|;
      var q := c + |context| + |QuestionLabel|;
      && p[|RagIntro|..c] == ContextLabel
      && p[c..c + |context|] == context
      && p[c + |context|..q] == QuestionLabel
      && p[q..q + |question|] == question
  {
    var head := RagIntro + ContextLabel;
    FramedLayout(head, context, QuestionLabel, question, RagTail);
    assert head[|RagIntro|..] == ContextLabel;
  }
}
