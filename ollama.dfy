/**
 * The client of the Ollama server that answers the evaluator's questions:
 * the host it is built with, where that host is said to run, whether the
 * server and the model are there, the prompt sent for a question and the
 * text made of the server's reply. Each HTTP request is given as the result
 * it produces, indexed by what it is sent to (Failure: the request raised).
 */
module Ollama {
  import opened Wrappers
  import opened Text
  import opened Markdown
  import opened Prompts

  // ---------------------------------------------------------------------
  // Where the host runs

  const LocalSource: string := "Локальная Ollama (порт 11434)"
  const DockerSource: string := "Docker Ollama (порт 11435)"

  /** The description of a host that names neither known port. */
  function CustomSource(host: string): string {
    "Кастомный сервер (" + host + ")"
  }

  /** `_detect_source()`: the local port first, then the Docker port, else the host itself. */
  function DetectSource(host: string): (src: string)
    ensures src == LocalSource <==> (exists i: nat :: OccursAt(host, ":11434", i)) || EndsWith(host, "11434")
    ensures src == DockerSource <==>
      !((exists i: nat :: OccursAt(host, ":11434", i)) || EndsWith(host, "11434"))
      && ((exists i: nat :: OccursAt(host, ":11435", i)) || EndsWith(host, "11435"))
    ensures src != LocalSource && src != DockerSource ==> src == CustomSource(host)
  {
    ContainsIff(host, ":11434");
    ContainsIff(host, ":11435");
    assert CustomSource(host)[0] != LocalSource[0] && CustomSource(host)[0] != DockerSource[0];
    assert LocalSource[0] != DockerSource[0];
    if Contains(host, ":11434") || EndsWith(host, "11434") then LocalSource
    else if Contains(host, ":11435") || EndsWith(host, "11435") then DockerSource
    else CustomSource(host)
  }

  // ---------------------------------------------------------------------
  // The server's replies

  /** The reply to `GET /api/version`: its status and the body's `version` (None: absent; Failure: no JSON object). */
  datatype VersionReply = VersionReply(status: int, version: Result<Option<string>, string>)

  /** The reply to `GET /api/tags` as `_check_model_available` reads it: the `name` of each entry of `models`. */
  datatype TagsReply = TagsReply(status: int, names: Result<seq<Option<string>>, string>)

  /** The version `check_connection` leaves after the server answered `/api/tags` with 200. */
  function VersionAfter(previous: Option<string>, reply: Result<VersionReply, string>): (v: Option<string>)
    ensures v != previous ==> reply.Success? && reply.value.status == 200 && reply.value.version.Success?
    ensures reply.Success? && reply.value.status == 200 && reply.value.version.Success? ==>
      v == Some(reply.value.version.value.GetOr("unknown"))
  {
    if reply.Success? && reply.value.status == 200 && reply.value.version.Success? then
      Some(reply.value.version.value.GetOr("unknown"))
    else previous
  }

  /** `any(m.get('name', '').startswith(model) for m in models)` */
  function AnyNamed(names: seq<Option<string>>, model: string): (found: bool)
    ensures found <==> exists i :: 0 <= i < |names| && StartsWith(names[i].GetOr(""), model)
  {
    if names == [] then false
    else StartsWith(names[0].GetOr(""), model) || AnyNamed(names[1..], model)
  }

  // ---------------------------------------------------------------------
  // Prompts

  /** The instructions and examples before the context. */
  const ExpertIntro: string := "Ты эксперт-консультант банка. Ответь на вопрос клиента на основе документации.\n\nПРАВИЛА:\n1. Используй ТОЛЬКО информацию из контекста ниже\n2. Отвечай кратко и точно (1-3 предложения)\n3. Если нужен расчет - посчитай и дай конкретное число\n4. Если в контексте есть точная формула или проценты - используй их\n5. НЕ говори \"информация отсутствует\" если она есть в контексте\n6. Не используй markdown разметку (жирный, списки и т.д.)\n7. Копируй точные числа и формулы из контекста\n\nПРИМЕРЫ:\n\nВопрос: Посчитай комиссию если я превышу лимит на 20000\nКонтекст: \"50 000₽ - бесплатно (0%) 20 000₽ - комиссия 0,8% = 160₽\"\nОтвет: 50 000₽ - бесплатно (0%), 20 000₽ - комиссия 0,8% = 160₽. Итого комиссия: 160₽\n\nВопрос: Могу ли я снять без комиссии в ВТБ?\nКонтекст: \"Да, 0% комиссии для карт Мир в банкоматах ВТБ\"\nОтвет: Да, 0% комиссии для карт платежной системы Мир в банкоматах ВТБ.\n\nВопрос: В чем разница между картами?\nКонтекст: \"Основная карта выпускается на владельца счета. Дополнительная карта выпускается на другое лицо.\"\nОтвет: Основная карта выпускается на владельца счета, а Дополнительная карта выпускается на другое лицо.\n\n"

  /** After the question when there is a context. */
  const ExpertTail: string := "\n\nОТВЕТ:"

  /** Before the question when there is no context. */
  const PlainHead: string := "Ответь на вопрос на основе твоих знаний о банковских продуктах.\n\nВопрос: "

  /** After the question when there is no context. */
  const PlainTail: string := "\n\nОтвет:"

  /** The context template around an introduction: the context after `КОНТЕКСТ:`, then `ВОПРОС: ` and the question. */
  function ContextTemplate(intro: string, joined: string, question: string): string {
    Framed(intro + ContextLabel, joined, QuestionLabel, question, ExpertTail)
  }

  /** The prompt `generate` sends: the context template, or the plain one for an empty context. */
  function GeneratePrompt(question: string, context: seq<string>): string {
    if context != [] then ContextTemplate(ExpertIntro, Join(context, "\n\n"), question)
    else PlainHead + question + PlainTail
  }

  /**
   * In the context template, whatever the introduction, the joined context
   * stands between `КОНТЕКСТ:` and `ВОПРОС: `, and the question after that.
   */
  lemma ContextTemplateLayout(intro: string, joined: string, question: string)
    ensures var p := ContextTemplate(intro, joined, question);
      var c := |intro| + |ContextLabel|;
      var q := c + |joined| + |QuestionLabel|;
      && p[|intro|..c] == ContextLabel
      && p[c..c + |joined|] == joined
      && p[c + |joined|..q] == QuestionLabel
      && p[q..q + |question|] == question
      && p[q + |question|..] == ExpertTail
  {
    var head := intro + ContextLabel;
    FramedLayout(head, joined, QuestionLabel, question, ExpertTail);
    assert head[|intro|..] == ContextLabel;
  }

  /** A non-empty context is joined by blank lines, in order, into the context template. */
  lemma ContextPromptChoice(question: string, context: seq<string>, more: string)
    requires context != []
    ensures GeneratePrompt(question, context) == ContextTemplate(ExpertIntro, Join(context, "\n\n"), question)
    ensures GeneratePrompt(question, context + [more])
         == ContextTemplate(ExpertIntro, Join(context, "\n\n") + "\n\n" + more, question)
  {
    JoinAppend(context, more, "\n\n");
  }

  /** Without a context, the question stands between the plain head and tail. */
  lemma PlainPromptLayout(question: string)
    ensures var p := GeneratePrompt(question, []);
      p[..|PlainHead|] == PlainHead && p[|PlainHead|..|PlainHead| + |question|] == question
      && p[|PlainHead| + |question|..] == PlainTail
  {
    FramedLayout(PlainHead, question, [], [], PlainTail);
    assert GeneratePrompt(question, []) == Framed(PlainHead, question, [], [], PlainTail);
  }

  // ---------------------------------------------------------------------
  // Cleaning the reply

  /** A marker removed at the start of a line: a heading, a list number or a bullet. */
  datatype Marker = Heading | Numbered | Bullet

  /** The first index at or after `i` that is not an ASCII digit, or `|s|`. */
  function DigitsEnd(s: string, i: nat): (j: nat)
    requires i <= |s|
    ensures i <= j <= |s|
    ensures j < |s| ==> !IsDigit(s[j])
    ensures forall k :: i <= k < j ==> IsDigit(s[k])
    decreases |s| - i
  {
    if i < |s| && IsDigit(s[i]) then DigitsEnd(s, i + 1) else i
  }

  /**
   * The length of the marker at the start of `s` with the whitespace after it,
   * or 0 when `s` does not start with one: `#{1,6}\s+`, `\d+\.\s+`, `[-•]\s+`.
   */
  function MarkEnd(m: Marker, s: string): (e: nat)
    ensures e <= |s|
    ensures e > 0 ==> e >= 2 && IsSpace(s[e - 1])
  {
    match m
    case Heading => if HeadingAt(s) then LeadEnd(s, Skip(s, '#', 0)) else 0
    case Numbered =>
      var d := DigitsEnd(s, 0);
      if 0 < d && d + 1 < |s| && s[d] == '.' && IsSpace(s[d + 1]) then LeadEnd(s, d + 1) else 0
    case Bullet => if |s| >= 2 && (s[0] == '-' || s[0] == '•') && IsSpace(s[1]) then LeadEnd(s, 1) else 0
  }

  /**
   * `re.sub(pattern, '', s, flags=re.MULTILINE)` for a `^`-anchored marker:
   * removed only where a line starts. `lineStart` says whether `s` begins a
   * line of the original text.
   */
  function RemoveMarks(m: Marker, s: string, lineStart: bool): (r: string)
    ensures |r| <= |s|
    decreases |s|
  {
    if s == [] then []
    else if lineStart && MarkEnd(m, s) > 0 then
      var e := MarkEnd(m, s);
      RemoveMarks(m, s[e..], s[e - 1] == '\n')
    else [s[0]] + RemoveMarks(m, s[1..], s[0] == '\n')
  }

  /** Position `i` of `s` begins a line. */
  predicate BeginsLine(s: string, i: nat, lineStart: bool) {
    if i == 0 then lineStart else i <= |s| && s[i - 1] == '\n'
  }

  /** No line of `s` starts with the marker. */
  predicate Unmarked(m: Marker, s: string, lineStart: bool) {
    forall i :: 0 <= i < |s| && BeginsLine(s, i, lineStart) ==> MarkEnd(m, s[i..]) == 0
  }

  /** Text in which no line starts with the marker is left as it is. */
  lemma {:induction false} UnmarkedUnchanged(m: Marker, s: string, lineStart: bool)
    requires Unmarked(m, s, lineStart)
    ensures RemoveMarks(m, s, lineStart) == s
    decreases |s|
  {
    if s != [] {
      assert MarkEnd(m, s[0..]) == 0 || !lineStart;
      assert s[0..] == s;
      var t := s[1..];
      forall i | 0 <= i < |t| && BeginsLine(t, i, s[0] == '\n') ensures MarkEnd(m, t[i..]) == 0 {
        assert BeginsLine(s, i + 1, lineStart);
        assert t[i..] == s[i + 1..];
      }
      UnmarkedUnchanged(m, t, s[0] == '\n');
      assert s == [s[0]] + t;
    }
  }

  /** The whitespace `w` after `pre` runs up to `rest`, which is left. */
  lemma SpaceAfter(pre: string, w: string, rest: string)
    requires AllSpace(w) && (rest == [] || !IsSpace(rest[0]))
    ensures LeadEnd(pre + w + rest, |pre|) == |pre| + |w|
    ensures (pre + w + rest)[|pre| + |w|..] == rest
    ensures w != [] ==> (pre + w + rest)[|pre| + |w| - 1] == w[|w| - 1]
  {
    var s := pre + w + rest;
    var n := |pre|;
    assert forall k :: n <= k < n + |w| ==> s[k] == w[k - n];
    if rest != [] {
      assert s[n + |w|] == rest[0];
    }
    assert s[n + |w|..] == rest;
  }

  /** The marker of a bulleted line runs over the bullet and the whitespace. */
  lemma BulletMarkEnd(b: char, w: string, rest: string)
    requires b == '-' || b == '•'
    requires w != [] && AllSpace(w) && (rest == [] || !IsSpace(rest[0]))
    ensures var s := [b] + w + rest;
      var e := 1 + |w|;
      MarkEnd(Bullet, s) == e && s[e..] == rest && s[e - 1] == w[|w| - 1]
  {
    var s := [b] + w + rest;
    assert s[1] == w[0];
    SpaceAfter([b], w, rest);
  }

  /** The marker of a heading runs over one to six `#` and the whitespace. */
  lemma HeadingMarkEnd(marks: string, w: string, rest: string)
    requires 1 <= |marks| <= 6 && forall k :: 0 <= k < |marks| ==> marks[k] == '#'
    requires w != [] && AllSpace(w) && (rest == [] || !IsSpace(rest[0]))
    ensures var s := marks + w + rest;
      var e := |marks| + |w|;
      MarkEnd(Heading, s) == e && s[e..] == rest && s[e - 1] == w[|w| - 1]
  {
    var s := marks + w + rest;
    var n := |marks|;
    assert forall k :: 0 <= k < n ==> s[k] == marks[k];
    assert s[n] == w[0];
    assert Skip(s, '#', 0) == n;
    SpaceAfter(marks, w, rest);
  }

  /** The marker of a numbered line runs over the digits, the dot and the whitespace. */
  lemma NumberMarkEnd(digits: string, w: string, rest: string)
    requires digits != [] && forall k :: 0 <= k < |digits| ==> IsDigit(digits[k])
    requires w != [] && AllSpace(w) && (rest == [] || !IsSpace(rest[0]))
    ensures var s := digits + "." + w + rest;
      var e := |digits| + 1 + |w|;
      MarkEnd(Numbered, s) == e && s[e..] == rest && s[e - 1] == w[|w| - 1]
  {
    var pre := digits + ".";
    var s := pre + w + rest;
    var d := |digits|;
    assert forall k :: 0 <= k < d ==> s[k] == digits[k];
    assert s[d] == '.' && s[d + 1] == w[0];
    DigitsEndAt(s, d);
    SpaceAfter(pre, w, rest);
  }

  /** A marker where a line starts is removed, and what follows is scanned on. */
  lemma MarkRemoved(m: Marker, s: string)
    requires MarkEnd(m, s) > 0
    ensures var e := MarkEnd(m, s);
      RemoveMarks(m, s, true) == RemoveMarks(m, s[e..], s[e - 1] == '\n')
  {
  }

  /** A run of digits stopped by another character ends there. */
  lemma DigitsEndAt(s: string, d: nat)
    requires d < |s| && !IsDigit(s[d]) && forall k :: 0 <= k < d ==> IsDigit(s[k])
    ensures DigitsEnd(s, 0) == d
  {
  }

  /** A marker that does not start a line is kept. */
  lemma MidLineKept(m: Marker, c: char, s: string)
    requires c != '\n'
    ensures RemoveMarks(m, [c] + s, false) == [c] + RemoveMarks(m, s, false)
  {
    assert ([c] + s)[1..] == s;
  }

  /**
   * Characters that `re.IGNORECASE` lets match the lower-case pattern letter
   * `p`: `p` itself, the capital Cyrillic letter whose lower case it is, and
   * the old Cyrillic letter forms Unicode gives the same case folding
   * (rounded ve, long-legged and three-legged te, narrow o). No other case
   * pair of Unicode involves the letters of the two prefixes below.
   */
  predicate FoldEq(c: char, p: char) {
    c == p
    || ('А' <= c <= 'Я' && c as int + 32 == p as int)
    || (p == 'в' && c == '\U{1C80}')
    || (p == 'о' && c == '\U{1C82}')
    || (p == 'т' && (c == '\U{1C84}' || c == '\U{1C85}'))
  }

  /** `s` starts with the pattern `p`, ignoring case. */
  predicate StartsFolded(s: string, p: string) {
    |p| <= |s| && forall i :: 0 <= i < |p| ==> FoldEq(s[i], p[i])
  }

  /** The prefix of `(Ответ:|ОТВЕТ:)`, in lower case. */
  const AnswerWord: string := "ответ:"

  /** The prefix of `(Краткий ответ:|КРАТКИЙ ОТВЕТ:)`, in lower case. */
  const ShortAnswerWord: string := "краткий ответ:"

  /** `re.sub(r'^(p)\s*', '', s, flags=re.IGNORECASE)`: the prefix at the very start, with the whitespace after it. */
  function DropPrefix(s: string, p: string): (r: string)
    ensures |r| <= |s| && r == s[|s| - |r|..]
    ensures !StartsFolded(s, p) ==> r == s
  {
    if StartsFolded(s, p) then s[LeadEnd(s, |p|)..] else s
  }

  /** Both spellings the source lists, and any case mixture, match the prefixes. */
  lemma PrefixSpellings()
    ensures StartsFolded("Ответ:", AnswerWord) && StartsFolded("ОТВЕТ:", AnswerWord)
    ensures StartsFolded("Краткий ответ:", ShortAnswerWord) && StartsFolded("КРАТКИЙ ОТВЕТ:", ShortAnswerWord)
  {
  }

  /** A prefix is removed with all the whitespace after it. */
  lemma PrefixDropped(word: string, p: string, w: string, rest: string)
    requires |word| == |p| && StartsFolded(word, p)
    requires AllSpace(w) && (rest == [] || !IsSpace(rest[0]))
    ensures DropPrefix(word + w + rest, p) == rest
  {
    var s := word + w + rest;
    assert forall i :: 0 <= i < |p| ==> s[i] == word[i];
    SpaceAfter(word, w, rest);
  }

  /** `_clean_response(text)`: emphasis, line markers and a repeated answer label removed, then stripped. */
  function CleanResponse(text: string): (r: string)
    ensures Stripped(r) && |r| <= |text|
  {
    var noBold := RemoveBold(text);
    var noItalic := RemoveItalic(noBold);
    var noHeadings := RemoveMarks(Heading, noItalic, true);
    var noNumbers := RemoveMarks(Numbered, noHeadings, true);
    var noBullets := RemoveMarks(Bullet, noNumbers, true);
    var noAnswer := DropPrefix(noBullets, AnswerWord);
    var noShort := DropPrefix(noAnswer, ShortAnswerWord);
    RemoveEmphasisShorter(text);
    Strip(noShort)
  }

  /** Removing emphasis never lengthens the text. */
  lemma {:induction false} RemoveEmphasisShorter(s: string)
    ensures |RemoveBold(s)| <= |s| && |RemoveItalic(RemoveBold(s))| <= |s|
  {
    BoldShorter(s);
    ItalicShorter(RemoveBold(s));
  }

  lemma {:induction false} BoldShorter(s: string)
    ensures |RemoveBold(s)| <= |s|
    decreases |s|
  {
    if s != [] {
      if BoldAt(s) {
        BoldShorter(s[Find(s, '*', 2) + 2..]);
      } else {
        BoldShorter(s[1..]);
      }
    }
  }

  lemma {:induction false} ItalicShorter(s: string)
    ensures |RemoveItalic(s)| <= |s|
    decreases |s|
  {
    if s != [] {
      if ItalicAt(s) {
        ItalicShorter(s[Find(s, '*', 1) + 1..]);
      } else {
        ItalicShorter(s[1..]);
      }
    }
  }

  /**
   * A reply with no `*`, no line starting with a marker, no answer label at
   * the start and no surrounding whitespace is returned as it is.
   */
  lemma CleanUnchanged(s: string)
    requires '*' !in s && Stripped(s)
    requires Unmarked(Heading, s, true) && Unmarked(Numbered, s, true) && Unmarked(Bullet, s, true)
    requires !StartsFolded(s, AnswerWord) && !StartsFolded(s, ShortAnswerWord)
    ensures CleanResponse(s) == s
  {
    NoStarsUnchanged(s);
    UnmarkedUnchanged(Heading, s, true);
    UnmarkedUnchanged(Numbered, s, true);
    UnmarkedUnchanged(Bullet, s, true);
    StripStripped(s);
  }

  /** A repeated label `Ответ:` and the whitespace after it are dropped from a reply without markup. */
  lemma CleanAnswerLabel(word: string, w: string, rest: string)
    requires |word| == |AnswerWord| && StartsFolded(word, AnswerWord) && '*' !in word + w + rest
    requires Unmarked(Heading, word + w + rest, true) && Unmarked(Numbered, word + w + rest, true)
    requires Unmarked(Bullet, word + w + rest, true)
    requires AllSpace(w) && (rest == [] || !IsSpace(rest[0])) && !StartsFolded(rest, ShortAnswerWord)
    ensures CleanResponse(word + w + rest) == Strip(rest)
  {
    var s := word + w + rest;
    NoStarsUnchanged(s);
    UnmarkedUnchanged(Heading, s, true);
    UnmarkedUnchanged(Numbered, s, true);
    UnmarkedUnchanged(Bullet, s, true);
    PrefixDropped(word, AnswerWord, w, rest);
  }

  // ---------------------------------------------------------------------
  // Generating an answer

  /** What `requests.post` to `/api/generate` is sent. */
  datatype GenerateRequest = GenerateRequest(host: string, model: string, prompt: string, timeout: int)

  /**
   * How `requests.post` to `/api/generate` ended: it timed out, lost the
   * connection, raised otherwise, or replied with a status and the body's
   * `response` (None: absent; Failure: the body is no JSON object or the value
   * no string).
   */
  datatype GenerateReply = TimedOut | ConnectionLost | Raised | Replied(status: int, response: Result<Option<string>, string>)

  const TimeoutAnswer: string := "Таймаут генерации ответа"
  const ConnectionAnswer: string := "Ошибка соединения с Ollama"
  const FailureAnswer: string := "Ошибка генерации ответа"

  /** The answer for a model that the server does not have. */
  function MissingModelAnswer(model: string): string {
    "Ошибка: Модель " + model + " не найдена"
  }

  /** What `generate` returns for a reply: it never raises. */
  function Answer(model: string, reply: GenerateReply): string {
    match reply
    case TimedOut => TimeoutAnswer
    case ConnectionLost => ConnectionAnswer
    case Raised => FailureAnswer
    case Replied(status, response) =>
      if status == 200 then
        match response
        case Success(text) => CleanResponse(Strip(text.GetOr("")))
        case Failure(_) => FailureAnswer
      else if status == 404 then MissingModelAnswer(model)
      else FailureAnswer
  }

  /**
   * Every way the request can fail maps to its fixed message; a 200 reply with
   * a readable body gives its cleaned text, which is stripped.
   */
  lemma AnswerCases(model: string, reply: GenerateReply)
    ensures reply == TimedOut ==> Answer(model, reply) == TimeoutAnswer
    ensures reply == ConnectionLost ==> Answer(model, reply) == ConnectionAnswer
    ensures reply == Raised ==> Answer(model, reply) == FailureAnswer
    ensures reply.Replied? && reply.status == 404 ==> Answer(model, reply) == MissingModelAnswer(model)
    ensures reply.Replied? && reply.status != 200 && reply.status != 404 ==> Answer(model, reply) == FailureAnswer
    ensures reply.Replied? && reply.status == 200 && reply.response.Failure? ==> Answer(model, reply) == FailureAnswer
    ensures reply.Replied? && reply.status == 200 && reply.response.Success? ==>
      Answer(model, reply) == CleanResponse(Strip(reply.response.value.GetOr(""))) && Stripped(Answer(model, reply))
  {
  }

  /** A reply without `response` gives the empty answer. */
  lemma AbsentResponseEmpty(model: string)
    ensures Answer(model, Replied(200, Success(None))) == []
  {
    assert Strip("") == [];
    assert CleanResponse([]) == [];
  }

  // ---------------------------------------------------------------------
  // The client

  class OllamaClient {
    var host: string
    var model: string
    var timeout: int
    var source: string
    var version: Option<string>

    /**
     * `OllamaClient(host, model, timeout)`: trailing `/` removed from the
     * host, the source named after it, then the connection checked, which
     * records the server's version when it answers.
     */
    constructor(host0: string, model0: string, timeout0: int,
                tags: string -> Result<int, string>, versionOf: string -> Result<VersionReply, string>)
      ensures host == RStripChar(host0, '/') && model == model0 && timeout == timeout0
      ensures source == DetectSource(host)
      ensures version == if tags(host) == Success(200) then VersionAfter(None, versionOf(host)) else None
    {
      var trimmed := RStripChar(host0, '/');
      host := trimmed;
      model := model0;
      timeout := timeout0;
      version := None;
      source := DetectSource(trimmed);
      new;
      var connected := CheckConnection(tags, versionOf);
    }

    /**
     * `check_connection()`: the server is up when `/api/tags` answers 200;
     * only then is `/api/version` asked, and a failure there is ignored.
     */
    method CheckConnection(tags: string -> Result<int, string>, versionOf: string -> Result<VersionReply, string>)
      returns (up: bool)
      modifies this`version
      ensures up <==> tags(host) == Success(200)
      ensures version == if up then VersionAfter(old(version), versionOf(host)) else old(version)
    {
      var response := tags(host);
      if response.Failure? {
        return false;
      }
      if response.value != 200 {
        return false;
      }
      var versionResponse := versionOf(host);
      if versionResponse.Success? && versionResponse.value.status == 200 {
        match versionResponse.value.version {
          case Success(v) => version := Some(v.GetOr("unknown"));
          case Failure(_) =>
        }
      }
      return true;
    }

    /**
     * `_check_model_available()`: some model the server lists has a name that
     * starts with this client's model; a failed request or another status says no.
     */
    function ModelAvailable(tagsOf: string -> Result<TagsReply, string>): (available: bool)
      reads this
      ensures available <==>
        var reply := tagsOf(host);
        && reply.Success? && reply.value.status == 200 && reply.value.names.Success?
        && exists i :: 0 <= i < |reply.value.names.value| && StartsWith(reply.value.names.value[i].GetOr(""), model)
    {
      var reply := tagsOf(host);
      reply.Success? && reply.value.status == 200 && reply.value.names.Success?
      && AnyNamed(reply.value.names.value, model)
    }

    /** `generate(question, context)`: the prompt sent to the server, and the reply turned into an answer. */
    method Generate(question: string, context: seq<string>, post: GenerateRequest -> GenerateReply)
      returns (answer: string)
      ensures answer == Answer(model, post(GenerateRequest(host, model, GeneratePrompt(question, context), timeout)))
    {
      var prompt: string;
      if context != [] {
        var contextText := Join(context, "\n\n");
        prompt := ContextTemplate(ExpertIntro, contextText, question);
      } else {
        prompt := PlainHead + question + PlainTail;
      }
      var response := post(GenerateRequest(host, model, prompt, timeout));
      match response {
        case TimedOut => answer := TimeoutAnswer;
        case ConnectionLost => answer := ConnectionAnswer;
        case Raised => answer := FailureAnswer;
        case Replied(status, result) =>
          if status == 200 {
            match result {
              case Success(text) =>
                var stripped := Strip(text.GetOr(""));
                answer := CleanResponse(stripped);
              case Failure(_) => answer := FailureAnswer;
            }
          } else if status == 404 {
            answer := "Ошибка: Модель " + model + " не найдена";
          } else {
            answer := FailureAnswer;
          }
      }
    }
  }
}
