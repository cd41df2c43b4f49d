/**
 * `clean_markdown_text`: a chain of regular-expression substitutions that
 * strips HTML tags, headings, links, emphasis and Q/A labels and normalises
 * whitespace. Each substitution is written as the scanner that performs it:
 * leftmost matches, non-overlapping, the replaced text not scanned again.
 */
module Markdown {
  import opened Text

  /** The first index at or after `i` holding `c`, or `|s|`. */
  function Find(s: string, c: char, i: nat): (j: nat)
    requires i <= |s|
    ensures i <= j <= |s|
    ensures j < |s| ==> s[j] == c
    ensures forall k :: i <= k < j ==> s[k] != c
    decreases |s| - i
  {
    if i < |s| && s[i] != c then Find(s, c, i + 1) else i
  }

  /** The first index at or after `i` not holding `c`, or `|s|`. */
  function Skip(s: string, c: char, i: nat): (j: nat)
    requires i <= |s|
    ensures i <= j <= |s|
    ensures j < |s| ==> s[j] != c
    ensures forall k :: i <= k < j ==> s[k] == c
    decreases |s| - i
  {
    if i < |s| && s[i] == c then Skip(s, c, i + 1) else i
  }

  // ---------------------------------------------------------------------
  // The substitutions, in the order they are applied

  /** `re.sub(r'<[^>]+>', '', s)`: a tag is `<`, at least one character other than `>`, then `>`. */
  function RemoveTags(s: string): string
    decreases |s|
  {
    if s == [] then []
    else if s[0] == '<' && 2 <= Find(s, '>', 1) < |s| then RemoveTags(s[Find(s, '>', 1) + 1..])
    else [s[0]] + RemoveTags(s[1..])
  }

  /** A heading marker at the start of `s`: one to six `#` (the whole run) followed by whitespace. */
  predicate HeadingAt(s: string) {
    s != [] && s[0] == '#' && Skip(s, '#', 0) <= 6 && Skip(s, '#', 0) < |s| && IsSpace(s[Skip(s, '#', 0)])
  }

  /** `re.sub(r'#{1,6}\s+', '', s)` */
  function RemoveHeadings(s: string): string
    decreases |s|
  {
    if s == [] then []
    else if HeadingAt(s) then RemoveHeadings(s[LeadEnd(s, Skip(s, '#', 0))..])
    else [s[0]] + RemoveHeadings(s[1..])
  }

  /** The `]` that closes a link label opened at `s[0]`. */
  function LabelEnd(s: string): nat
    requires s != []
  {
    Find(s, ']', 1)
  }

  /** A link `[label](url)` at the start of `s`, label and url both non-empty. */
  predicate LinkAt(s: string) {
    s != [] && s[0] == '[' && 2 <= LabelEnd(s) && LabelEnd(s) + 1 < |s| && s[LabelEnd(s) + 1] == '('
    && LabelEnd(s) + 3 <= Find(s, ')', LabelEnd(s) + 2) < |s|
  }

  /** `re.sub(r'\[([^\]]+)\]\([^\)]+\)', r'\1', s)`: a link is replaced by its label. */
  function ReplaceLinks(s: string): string
    decreases |s|
  {
    if s == [] then []
    else if LinkAt(s) then s[1..LabelEnd(s)] + ReplaceLinks(s[Find(s, ')', LabelEnd(s) + 2) + 1..])
    else [s[0]] + ReplaceLinks(s[1..])
  }

  /** `**x**` at the start of `s`, with `x` non-empty and free of `*`. */
  predicate BoldAt(s: string) {
    |s| >= 2 && s[0] == '*' && s[1] == '*' && 3 <= Find(s, '*', 2) && Find(s, '*', 2) + 1 < |s|
    && s[Find(s, '*', 2) + 1] == '*'
  }

  /** `re.sub(r'\*\*([^*]+)\*\*', r'\1', s)` */
  function RemoveBold(s: string): string
    decreases |s|
  {
    if s == [] then []
    else if BoldAt(s) then s[2..Find(s, '*', 2)] + RemoveBold(s[Find(s, '*', 2) + 2..])
    else [s[0]] + RemoveBold(s[1..])
  }

  /** `*x*` at the start of `s`, with `x` non-empty and free of `*`. */
  predicate ItalicAt(s: string) {
    s != [] && s[0] == '*' && 2 <= Find(s, '*', 1) < |s|
  }

  /** `re.sub(r'\*([^*]+)\*', r'\1', s)` */
  function RemoveItalic(s: string): string
    decreases |s|
  {
    if s == [] then []
    else if ItalicAt(s) then s[1..Find(s, '*', 1)] + RemoveItalic(s[Find(s, '*', 1) + 1..])
    else [s[0]] + RemoveItalic(s[1..])
  }

  /** A label `a:` or `b:` at the start of `s`. */
  predicate LabelAt(s: string, a: char, b: char) {
    |s| >= 2 && (s[0] == a || s[0] == b) && s[1] == ':'
  }

  /**
   * `re.sub(r'^[ab]:\s*', '', s, flags=re.MULTILINE)`: a label at the start
   * of a line is removed with the whitespace after it. `lineStart` says
   * whether `s` begins a line of the original text.
   */
  function RemoveLabels(s: string, a: char, b: char, lineStart: bool): string
    decreases |s|
  {
    if s == [] then []
    else if lineStart && LabelAt(s, a, b) then
      var e := LeadEnd(s, 2);
      RemoveLabels(s[e..], a, b, s[e - 1] == '\n')
    else [s[0]] + RemoveLabels(s[1..], a, b, s[0] == '\n')
  }

  /** `re.sub(r'\s+', ' ', s)`: every whitespace run becomes one space. */
  function CollapseSpace(s: string): string
    decreases |s|
  {
    if s == [] then []
    else if IsSpace(s[0]) then " " + CollapseSpace(s[LeadEnd(s, 0)..])
    else [s[0]] + CollapseSpace(s[1..])
  }

  /** `clean_markdown_text(text)` */
  function CleanMarkdownText(text: string): string {
    var noTags := RemoveTags(text);
    var noHeadings := RemoveHeadings(noTags);
    var noLinks := ReplaceLinks(noHeadings);
    var noBold := RemoveBold(noLinks);
    var noItalic := RemoveItalic(noBold);
    var noLatin := RemoveLabels(noItalic, 'Q', 'A', true);
    var noCyrillic := RemoveLabels(noLatin, 'В', 'О', true);
    Strip(CollapseSpace(noCyrillic))
  }

  // ---------------------------------------------------------------------
  // Whitespace shape of the result

  /** Every whitespace character is a single space between non-whitespace. */
  predicate SingleSpaced(t: string) {
    forall i :: 0 <= i < |t| && IsSpace(t[i]) ==> t[i] == ' ' && (i + 1 < |t| ==> !IsSpace(t[i + 1]))
  }

  lemma {:induction false} CollapseHead(s: string)
    requires s != [] && !IsSpace(s[0])
    ensures CollapseSpace(s) != [] && CollapseSpace(s)[0] == s[0]
  {
  }

  lemma {:induction false} CollapseSingle(s: string)
    ensures SingleSpaced(CollapseSpace(s))
    decreases |s|
  {
    if s != [] {
      if IsSpace(s[0]) {
        var e := LeadEnd(s, 0);
        var rest := s[e..];
        CollapseSingle(rest);
        if rest != [] {
          CollapseHead(rest);
        }
        var t := CollapseSpace(s);
        assert t == " " + CollapseSpace(rest);
        forall i | 0 <= i < |t| && IsSpace(t[i])
          ensures t[i] == ' ' && (i + 1 < |t| ==> !IsSpace(t[i + 1]))
        {
          if i > 0 {
            assert t[i] == CollapseSpace(rest)[i - 1];
          }
        }
      } else {
        CollapseSingle(s[1..]);
        var t := CollapseSpace(s);
        assert t == [s[0]] + CollapseSpace(s[1..]);
        forall i | 0 <= i < |t| && IsSpace(t[i])
          ensures t[i] == ' ' && (i + 1 < |t| ==> !IsSpace(t[i + 1]))
        {
          assert i > 0;
          assert t[i] == CollapseSpace(s[1..])[i - 1];
        }
      }
    }
  }

  lemma SingleSpacedSlice(t: string, a: nat, b: nat)
    requires SingleSpaced(t) && a <= b <= |t|
    ensures SingleSpaced(t[a..b])
  {
    forall i | 0 <= i < b - a && IsSpace(t[a..b][i])
      ensures t[a..b][i] == ' ' && (i + 1 < b - a ==> !IsSpace(t[a..b][i + 1]))
    {
      assert t[a..b][i] == t[a + i];
      if i + 1 < b - a {
        assert t[a..b][i + 1] == t[a + i + 1];
      }
    }
  }

  /**
   * The cleaned text has no whitespace at either end, and every whitespace
   * run inside it is one plain space.
   */
  lemma CleanShape(text: string)
    ensures Stripped(CleanMarkdownText(text))
    ensures SingleSpaced(CleanMarkdownText(text))
  {
    var noTags := RemoveTags(text);
    var noHeadings := RemoveHeadings(noTags);
    var noLinks := ReplaceLinks(noHeadings);
    var noBold := RemoveBold(noLinks);
    var noItalic := RemoveItalic(noBold);
    var noLatin := RemoveLabels(noItalic, 'Q', 'A', true);
    var noCyrillic := RemoveLabels(noLatin, 'В', 'О', true);
    var collapsed := CollapseSpace(noCyrillic);
    CollapseSingle(noCyrillic);
    var a := StripSlice(collapsed);
    SingleSpacedSlice(collapsed, a, a + |Strip(collapsed)|);
  }

  // ---------------------------------------------------------------------
  // What each substitution does to one match

  /** A tag is deleted. */
  lemma TagRemoved(x: string, rest: string)
    requires x != [] && '>' !in x
    ensures RemoveTags("<" + x + ">" + rest) == RemoveTags(rest)
  {
    var s := "<" + x + ">" + rest;
    assert forall k :: 1 <= k < |x| + 1 ==> s[k] == x[k - 1];
    assert s[|x| + 1] == '>';
    assert Find(s, '>', 1) == |x| + 1;
    assert s[|x| + 2..] == rest;
  }

  /** One to six `#` and the whitespace after them are deleted. */
  lemma HeadingRemoved(marks: string, w: string, rest: string)
    requires 1 <= |marks| <= 6 && forall k :: 0 <= k < |marks| ==> marks[k] == '#'
    requires w != [] && AllSpace(w) && (rest == [] || !IsSpace(rest[0]))
    ensures RemoveHeadings(marks + w + rest) == RemoveHeadings(rest)
  {
    var s := marks + w + rest;
    var m := |marks|;
    assert forall k :: 0 <= k < m ==> s[k] == '#';
    assert s[m] == w[0];
    assert Skip(s, '#', 0) == m;
    assert forall k :: m <= k < m + |w| ==> s[k] == w[k - m];
    assert LeadEnd(s, m) == m + |w| by {
      if rest != [] {
        assert s[m + |w|] == rest[0];
      }
    }
    assert s[m + |w|..] == rest;
  }

  /** A label at the start of a line is deleted with the whitespace after it. */
  lemma LabelRemoved(c: char, a: char, b: char, w: string, rest: string)
    requires c == a || c == b
    requires AllSpace(w) && rest != [] && !IsSpace(rest[0])
    ensures RemoveLabels([c, ':'] + w + rest, a, b, true)
         == RemoveLabels(rest, a, b, ([':'] + w)[|w|] == '\n')
  {
    var s := [c, ':'] + w + rest;
    assert forall k :: 2 <= k < 2 + |w| ==> s[k] == w[k - 2];
    assert s[2 + |w|] == rest[0];
    assert LeadEnd(s, 2) == 2 + |w|;
    assert s[2 + |w|..] == rest;
    assert s[1 + |w|] == ([':'] + w)[|w|];
  }

  /** A link is replaced by its label. */
  lemma LinkReplaced(lbl: string, url: string, rest: string)
    requires lbl != [] && ']' !in lbl && url != [] && ')' !in url
    ensures ReplaceLinks("[" + lbl + "](" + url + ")" + rest) == lbl + ReplaceLinks(rest)
  {
    var s := "[" + lbl + "](" + url + ")" + rest;
    var j := |lbl| + 1;
    assert forall k :: 1 <= k < j ==> s[k] == lbl[k - 1];
    assert s[j] == ']' && s[j + 1] == '(';
    assert LabelEnd(s) == j;
    var e := j + 2 + |url|;
    assert forall k :: j + 2 <= k < e ==> s[k] == url[k - j - 2];
    assert s[e] == ')';
    assert Find(s, ')', j + 2) == e;
    assert s[1..j] == lbl;
    assert s[e + 1..] == rest;
  }

  /** `**x**` is replaced by `x`. */
  lemma BoldReplaced(x: string, rest: string)
    requires x != [] && '*' !in x
    ensures RemoveBold("**" + x + "**" + rest) == x + RemoveBold(rest)
  {
    var s := "**" + x + "**" + rest;
    var j := |x| + 2;
    assert forall k :: 2 <= k < j ==> s[k] == x[k - 2];
    assert s[j] == '*' && s[j + 1] == '*';
    assert Find(s, '*', 2) == j;
    assert s[2..j] == x;
    assert s[j + 2..] == rest;
  }

  /** `*x*` is replaced by `x`. */
  lemma ItalicReplaced(x: string, rest: string)
    requires x != [] && '*' !in x
    ensures RemoveItalic("*" + x + "*" + rest) == x + RemoveItalic(rest)
  {
    var s := "*" + x + "*" + rest;
    var j := |x| + 1;
    assert forall k :: 1 <= k < j ==> s[k] == x[k - 1];
    assert s[j] == '*';
    assert Find(s, '*', 1) == j;
    assert s[1..j] == x;
    assert s[j + 1..] == rest;
  }

  /** Text without `<` has no tag to delete. */
  lemma {:induction false} NoTagsUnchanged(s: string)
    requires '<' !in s
    ensures RemoveTags(s) == s
    decreases |s|
  {
    if s != [] {
      NoTagsUnchanged(s[1..]);
      assert s == [s[0]] + s[1..];
    }
  }

  /** Text without `[` has no link to replace. */
  lemma {:induction false} NoLinksUnchanged(s: string)
    requires '[' !in s
    ensures ReplaceLinks(s) == s
    decreases |s|
  {
    if s != [] {
      NoLinksUnchanged(s[1..]);
      assert s == [s[0]] + s[1..];
    }
  }

  /** Text without `*` has no emphasis to remove. */
  lemma {:induction false} NoStarsUnchanged(s: string)
    requires '*' !in s
    ensures RemoveBold(s) == s && RemoveItalic(s) == s
    decreases |s|
  {
    if s != [] {
      NoStarsUnchanged(s[1..]);
      assert s == [s[0]] + s[1..];
    }
  }
}
