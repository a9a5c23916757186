/**
 * The front end's Markdown reader (`parseMarkdown` and `MarkdownBlock` in
 * frontend/src/components/YouTubeCaptionExtractor.tsx): a line-driven state
 * machine that groups lines into headings, paragraphs, lists and code blocks.
 *
 * The two regular expressions it uses are written out as explicit scans, with
 * the language each denotes stated beside them as a reference.
 */
module MarkdownParser {
  import opened Results
  import opened Text

  type HeadingLevel = l: nat | 1 <= l <= 6 witness 1

  /** `MarkdownBlock`. */
  datatype MarkdownBlock =
    | Heading(level: HeadingLevel, text: string)
    | Paragraph(text: string)
    | ListBlock(items: seq<string>)
    | Code(text: string)

  // ----- lines -----

  /** Drops one trailing carriage return. */
  function StripCR(p: string): string {
    if |p| > 0 && p[|p| - 1] == '\r' then p[..|p| - 1] else p
  }

  /**
   * `source.split(/\r?\n/)`: the text is cut at every line feed, and a
   * carriage return right before a line feed goes with the separator.
   */
  function SplitLines(source: string): (r: seq<string>)
    ensures |r| >= 1
    ensures forall k :: 0 <= k < |r| ==> '\n' !in r[k]
  {
    var pieces := SplitOn(source, '\n');
    seq(|pieces|, i requires 0 <= i < |pieces| => if i < |pieces| - 1 then StripCR(pieces[i]) else pieces[i])
  }

  /** Every line but the last followed by a carriage return. */
  function WithCR(lines: seq<string>): (r: seq<string>)
    ensures |r| == |lines|
  {
    seq(|lines|, i requires 0 <= i < |lines| => if i < |lines| - 1 then lines[i] + "\r" else lines[i])
  }

  lemma {:induction false} JoinCRLF(lines: seq<string>)
    requires |lines| >= 1
    ensures Join(lines, "\r\n") == Join(WithCR(lines), "\n")
    decreases |lines|
  {
    var n := |lines|;
    if n > 1 {
      var init := lines[..n - 1];
      var last := lines[n - 1];
      var x := Join(WithCR(init), "\n");
      JoinCRLF(init);
      assert Join(WithCR(lines), "\n") == x + "\r" + "\n" + last by {
        WithCRStep(lines);
      }
      assert Join(lines, "\r\n") == x + "\r\n" + last by {
        assert Join(lines, "\r\n") == Join(init, "\r\n") + "\r\n" + last;
      }
      CRThenLF(x, last);
    }
  }

  /** One more line: the old last line gains its carriage return, the new one is joined after it. */
  lemma WithCRStep(lines: seq<string>)
    requires |lines| >= 2
    ensures Join(WithCR(lines), "\n") == Join(WithCR(lines[..|lines| - 1]), "\n") + "\r" + "\n" + lines[|lines| - 1]
  {
    var n := |lines|;
    var w := WithCR(lines[..n - 1]);
    var wl := WithCR(lines);
    assert wl[..n - 1] == w[..n - 2] + [w[n - 2] + "\r"];
    JoinExtendLast(w, "\n", "\r");
  }

  lemma CRThenLF(x: string, y: string)
    ensures x + "\r" + "\n" + y == x + "\r\n" + y
  {
    assert x + "\r" + "\n" == x + "\r\n";
  }

  /** Lines joined with CRLF are split back into the same lines. */
  lemma SplitCRLF(lines: seq<string>)
    requires |lines| >= 1 && forall k :: 0 <= k < |lines| ==> '\n' !in lines[k]
    ensures SplitLines(Join(lines, "\r\n")) == lines
  {
    CRLFPieces(lines);
    StripWithCR(lines);
    var r := SplitLines(Join(lines, "\r\n"));
    assert |r| == |lines|;
    assert forall k :: 0 <= k < |lines| ==> r[k] == lines[k];
  }

  lemma StripWithCR(lines: seq<string>)
    ensures forall k :: 0 <= k < |lines| - 1 ==> StripCR(WithCR(lines)[k]) == lines[k]
    ensures |lines| > 0 ==> WithCR(lines)[|lines| - 1] == lines[|lines| - 1]
  {
    forall k | 0 <= k < |lines| - 1 ensures StripCR(WithCR(lines)[k]) == lines[k] {
      assert (lines[k] + "\r")[..|lines[k]|] == lines[k];
    }
  }

  /** Cutting CRLF-joined lines at line feeds leaves the carriage returns on all but the last. */
  lemma CRLFPieces(lines: seq<string>)
    requires |lines| >= 1 && forall k :: 0 <= k < |lines| ==> '\n' !in lines[k]
    ensures SplitOn(Join(lines, "\r\n"), '\n') == WithCR(lines)
  {
    var w := WithCR(lines);
    JoinCRLF(lines);
    forall k | 0 <= k < |w| ensures '\n' !in w[k] {
      if k < |w| - 1 {
        assert w[k] == lines[k] + "\r";
      }
    }
    SplitOnJoin(w, '\n');
  }

  /** Lines joined with LF are split back into the same lines, when none but the last ends in CR. */
  lemma SplitLF(lines: seq<string>)
    requires |lines| >= 1 && forall k :: 0 <= k < |lines| ==> '\n' !in lines[k]
    requires forall k :: 0 <= k < |lines| - 1 ==> lines[k] == [] || lines[k][|lines[k]| - 1] != '\r'
    ensures SplitLines(Join(lines, "\n")) == lines
  {
    SplitOnJoin(lines, '\n');
  }

  /**
   * Lines joined by line ends chosen one by one: after line `k`, a CRLF when
   * `crlf[k]` holds and a bare LF otherwise.
   */
  function JoinEnds(lines: seq<string>, crlf: seq<bool>): string
    requires |lines| >= 1 && |crlf| == |lines| - 1
    decreases |lines|
  {
    var n := |lines|;
    if n == 1 then lines[0]
    else JoinEnds(lines[..n - 1], crlf[..n - 2]) + (if crlf[n - 2] then "\r\n" else "\n") + lines[n - 1]
  }

  /** The pieces a line-feed cut leaves: line `k` followed by its carriage return, if its end has one. */
  function WithEnds(lines: seq<string>, crlf: seq<bool>): (r: seq<string>)
    requires |crlf| == |lines| - 1
    ensures |r| == |lines|
  {
    seq(|lines|, i requires 0 <= i < |lines| => if i < |crlf| && crlf[i] then lines[i] + "\r" else lines[i])
  }

  lemma {:induction false} JoinEndsPieces(lines: seq<string>, crlf: seq<bool>)
    requires |lines| >= 1 && |crlf| == |lines| - 1
    ensures JoinEnds(lines, crlf) == Join(WithEnds(lines, crlf), "\n")
    decreases |lines|
  {
    var n := |lines|;
    if n > 1 {
      var init := lines[..n - 1];
      var ends := crlf[..n - 2];
      var cr := if crlf[n - 2] then "\r" else "";
      var x := Join(WithEnds(init, ends), "\n");
      JoinEndsPieces(init, ends);
      assert Join(WithEnds(lines, crlf), "\n") == x + cr + "\n" + lines[n - 1] by {
        WithEndsStep(lines, crlf);
      }
      assert (if crlf[n - 2] then "\r\n" else "\n") == cr + "\n";
      ConcatAssoc(x, cr, "\n");
    }
  }

  /** One more line: the old last line gains the carriage return of its end, the new one is joined after it. */
  lemma WithEndsStep(lines: seq<string>, crlf: seq<bool>)
    requires |lines| >= 2 && |crlf| == |lines| - 1
    ensures Join(WithEnds(lines, crlf), "\n") ==
      Join(WithEnds(lines[..|lines| - 1], crlf[..|lines| - 2]), "\n") + (if crlf[|lines| - 2] then "\r" else "") +
      "\n" + lines[|lines| - 1]
  {
    var n := |lines|;
    var cr := if crlf[n - 2] then "\r" else "";
    var w := WithEnds(lines[..n - 1], crlf[..n - 2]);
    var wl := WithEnds(lines, crlf);
    var front := wl[..n - 1];
    assert Join(wl, "\n") == Join(front, "\n") + "\n" + wl[n - 1];
    assert wl[n - 1] == lines[n - 1];
    assert Join(front, "\n") == Join(w, "\n") + cr by {
      WithEndsPrefix(lines, crlf);
      JoinExtendLast(w, "\n", cr);
    }
  }

  lemma WithEndsPrefix(lines: seq<string>, crlf: seq<bool>)
    requires |lines| >= 2 && |crlf| == |lines| - 1
    ensures var w := WithEnds(lines[..|lines| - 1], crlf[..|lines| - 2]);
      WithEnds(lines, crlf)[..|lines| - 1] == w[..|lines| - 2] + [w[|lines| - 2] + (if crlf[|lines| - 2] then "\r" else "")]
  {
    var n := |lines|;
    var w := WithEnds(lines[..n - 1], crlf[..n - 2]);
    var wl := WithEnds(lines, crlf);
    var q := w[..n - 2] + [w[n - 2] + (if crlf[n - 2] then "\r" else "")];
    forall k | 0 <= k < n - 1 ensures wl[k] == q[k] {
      if k < n - 2 {
        assert crlf[..n - 2][k] == crlf[k] && lines[..n - 1][k] == lines[k];
      }
    }
  }

  /**
   * `split(/\r?\n/)` recovers the lines whatever mix of CRLF and LF ends
   * joins them, as long as no line before a bare LF ends in a carriage return.
   */
  lemma SplitMixed(lines: seq<string>, crlf: seq<bool>)
    requires |lines| >= 1 && |crlf| == |lines| - 1
    requires forall k :: 0 <= k < |lines| ==> '\n' !in lines[k]
    requires forall k :: 0 <= k < |crlf| && !crlf[k] ==> lines[k] == [] || lines[k][|lines[k]| - 1] != '\r'
    ensures SplitLines(JoinEnds(lines, crlf)) == lines
  {
    var w := WithEnds(lines, crlf);
    JoinEndsPieces(lines, crlf);
    forall k | 0 <= k < |w| ensures '\n' !in w[k] {
      if k < |crlf| && crlf[k] {
        assert w[k] == lines[k] + "\r";
      }
    }
    SplitOnJoin(w, '\n');
    var r := SplitLines(JoinEnds(lines, crlf));
    assert |r| == |lines|;
    forall k | 0 <= k < |lines| ensures r[k] == lines[k] {
      if k < |crlf| && crlf[k] {
        assert (lines[k] + "\r")[..|lines[k]|] == lines[k];
      }
    }
  }

  // ----- line patterns -----

  /** The length of the longest prefix of `s` made of characters in `cs`. */
  function Span(s: string, cs: set<char>): (n: nat)
    ensures n <= |s|
    ensures forall k :: 0 <= k < n ==> s[k] in cs
    ensures n < |s| ==> s[n] !in cs
    decreases |s|
  {
    if |s| > 0 && s[0] in cs then 1 + Span(s[1..], cs) else 0
  }

  /** A line whose trimmed form starts with three backquotes opens or closes a code block. */
  predicate IsFence(line: string) {
    StartsWith(JsTrim(line), "```")
  }

  /** No character of `s` is one that `.` refuses. */
  predicate NoLineTerminator(s: string) {
    forall k :: 0 <= k < |s| ==> s[k] !in JsLineTerminators
  }

  /**
   * `line.match(/^(#{1,6})\s+(\S.*)$/)`: the hash count and the second group.
   * The hash run cannot be cut short, since a `#` is not whitespace, and the
   * whitespace run cannot either, since the next character must not be one.
   */
  function MatchHeading(line: string): (r: Option<(HeadingLevel, string)>)
    ensures r.Some? ==> r.value.1 != [] && r.value.1[0] !in JsWhitespace
  {
    var h := Span(line, {'#'});
    if h < 1 || h > 6 then None
    else
      var w := Span(line[h..], JsWhitespace);
      var rest := line[h + w..];
      if w == 0 || rest == [] || !NoLineTerminator(rest) then None
      else Some((h, rest))
  }

  /**
   * `line.match(/^[-*]\s+(\S.*)$/)`: the group, which starts with a
   * non-whitespace character.
   */
  function MatchListItem(line: string): (r: Option<string>)
    ensures r.Some? ==> r.value != [] && r.value[0] !in JsWhitespace
  {
    if |line| == 0 || (line[0] != '-' && line[0] != '*') then None
    else
      var w := Span(line[1..], JsWhitespace);
      var rest := line[1 + w..];
      if w == 0 || rest == [] || !NoLineTerminator(rest) then None
      else Some(rest)
  }

  // The languages of the two expressions, as a reference: the line is the
  // marker, then a non-empty whitespace run (ending at index b), then a
  // non-whitespace character followed by characters `.` accepts.

  ghost predicate TextGroupAt(line: string, b: int) {
    0 <= b < |line| && line[b] !in JsWhitespace && NoLineTerminator(line[b..])
  }

  ghost predicate HeadingSplit(line: string, a: int, b: int) {
    1 <= a <= 6 && a < b && TextGroupAt(line, b) && (forall k :: 0 <= k < a ==> line[k] == '#') &&
    (forall k :: a <= k < b ==> line[k] in JsWhitespace)
  }

  ghost predicate ListSplit(line: string, b: int) {
    1 < b && TextGroupAt(line, b) && (line[0] == '-' || line[0] == '*') &&
    (forall k :: 1 <= k < b ==> line[k] in JsWhitespace)
  }

  /** The scan matches exactly the lines of the expression's language, with the groups it captures. */
  lemma HeadingMatchIsRegex(line: string)
    ensures MatchHeading(line).Some? <==> exists a, b :: HeadingSplit(line, a, b)
    ensures forall a, b :: HeadingSplit(line, a, b) ==> MatchHeading(line) == Some((a, line[b..]))
  {
    forall a, b | HeadingSplit(line, a, b) ensures MatchHeading(line) == Some((a, line[b..])) {
      HeadingSplitMatches(line, a, b);
    }
    if MatchHeading(line).Some? {
      var h := Span(line, {'#'});
      var w := Span(line[h..], JsWhitespace);
      assert line[h..][w..] == line[h + w..];
      assert HeadingSplit(line, h, h + w);
    }
  }

  lemma HashIsNotSpace()
    ensures '#' !in JsWhitespace
  {
  }

  lemma HeadingSplitMatches(line: string, a: int, b: int)
    requires HeadingSplit(line, a, b)
    ensures MatchHeading(line) == Some((a, line[b..]))
  {
    assert Span(line, {'#'}) == a by {
      HashIsNotSpace();
      SpanOfRun(line, {'#'}, a);
    }
    assert Span(line[a..], JsWhitespace) == b - a by {
      SpanOfRun(line[a..], JsWhitespace, b - a);
    }
    assert line[a..][b - a..] == line[b..];
  }

  lemma ListMatchIsRegex(line: string)
    ensures MatchListItem(line).Some? <==> exists b :: ListSplit(line, b)
    ensures forall b :: ListSplit(line, b) ==> MatchListItem(line) == Some(line[b..])
  {
    forall b | ListSplit(line, b) ensures MatchListItem(line) == Some(line[b..]) {
      assert Span(line[1..], JsWhitespace) == b - 1 by {
        SpanOfRun(line[1..], JsWhitespace, b - 1);
      }
      assert line[1..][b - 1..] == line[b..];
    }
    if MatchListItem(line).Some? {
      var w := Span(line[1..], JsWhitespace);
      assert line[1..][w..] == line[1 + w..];
      assert ListSplit(line, 1 + w);
    }
  }

  /** A run of `cs` characters ended by another character is exactly what `Span` measures. */
  lemma {:induction false} SpanOfRun(s: string, cs: set<char>, n: nat)
    requires n <= |s| && (forall k :: 0 <= k < n ==> s[k] in cs) && (n < |s| ==> s[n] !in cs)
    ensures Span(s, cs) == n
    decreases n
  {
    if n > 0 {
      SpanOfRun(s[1..], cs, n - 1);
    }
  }

  // ----- the state machine -----

  /** What a line is, outside a code block, tested in the order `parseMarkdown` tests. */
  datatype LineKind =
    | FenceLine
    | HeadingLine(level: HeadingLevel, text: string)
    | ItemLine(item: string)
    | BlankLine
    | TextLine(text: string)

  predicate Trimmed(s: string) {
    s != [] && s[0] !in JsWhitespace && s[|s| - 1] !in JsWhitespace
  }

  /** Heading text, list items and paragraph lines arrive trimmed and non-empty. */
  predicate KindWellFormed(k: LineKind) {
    match k
    case HeadingLine(_, text) => Trimmed(text)
    case ItemLine(item) => Trimmed(item)
    case TextLine(text) => Trimmed(text)
    case _ => true
  }

  lemma TrimmedOfNonBlank(s: string)
    requires s != [] && s[0] !in JsWhitespace
    ensures Trimmed(JsTrim(s))
  {
    TrimKeepsFirst(s, JsWhitespace);
  }

  /**
   * The tests of the loop body: a fence, then the heading pattern (its text
   * trimmed), then the list pattern (the item trimmed), then a blank line,
   * and otherwise a paragraph line, trimmed.
   */
  function Classify(line: string): (k: LineKind)
    ensures k.FenceLine? <==> IsFence(line)
    ensures k.BlankLine? ==> JsTrim(line) == ""
    ensures k.TextLine? ==> k.text == JsTrim(line)
    ensures KindWellFormed(k)
  {
    if IsFence(line) then FenceLine
    else if MatchHeading(line).Some? then
      TrimmedOfNonBlank(MatchHeading(line).value.1);
      HeadingLine(MatchHeading(line).value.0, JsTrim(MatchHeading(line).value.1))
    else if MatchListItem(line).Some? then
      TrimmedOfNonBlank(MatchListItem(line).value);
      ItemLine(JsTrim(MatchListItem(line).value))
    else if JsTrim(line) == "" then BlankLine
    else TextLine(JsTrim(line))
  }

  /** A line of the text and what it is. */
  datatype Line = Line(raw: string, kind: LineKind)

  function AsLine(raw: string): Line {
    Line(raw, Classify(raw))
  }

  /** The lines of the text, classified. */
  function ReadLines(source: string): (r: seq<Line>)
    ensures |r| == |SplitLines(source)| && forall i :: 0 <= i < |r| ==> r[i] == AsLine(SplitLines(source)[i])
  {
    var lines := SplitLines(source);
    seq(|lines|, i requires 0 <= i < |lines| => AsLine(lines[i]))
  }

  /** The variables `parseMarkdown`'s closures share. */
  datatype ParserState = ParserState(
    blocks: seq<MarkdownBlock>,
    paragraphLines: seq<string>,
    listItems: seq<string>,
    codeLines: seq<string>,
    isInCodeBlock: bool)

  const Init: ParserState := ParserState([], [], [], [], false)

  /** `flushParagraph`. */
  function FlushedParagraph(st: ParserState): ParserState {
    if |st.paragraphLines| > 0 then
      st.(blocks := st.blocks + [Paragraph(Join(st.paragraphLines, " "))], paragraphLines := [])
    else st
  }

  /** `flushList`. */
  function FlushedList(st: ParserState): ParserState {
    if |st.listItems| > 0 then st.(blocks := st.blocks + [ListBlock(st.listItems)], listItems := [])
    else st
  }

  /** `flushCode`. */
  function FlushedCode(st: ParserState): ParserState {
    if |st.codeLines| > 0 then st.(blocks := st.blocks + [Code(Join(st.codeLines, "\n"))], codeLines := [])
    else st
  }

  /** What one line does to the state (the body of the `forEach`). */
  function Step(st: ParserState, line: Line): ParserState {
    var k := line.kind;
    if k.FenceLine? then
      if st.isInCodeBlock then FlushedCode(st).(isInCodeBlock := false)
      else FlushedList(FlushedParagraph(st)).(isInCodeBlock := true)
    else if st.isInCodeBlock then st.(codeLines := st.codeLines + [line.raw])
    else if k.HeadingLine? then
      var s := FlushedList(FlushedParagraph(st));
      s.(blocks := s.blocks + [Heading(k.level, k.text)])
    else if k.ItemLine? then
      var s := FlushedParagraph(st);
      s.(listItems := s.listItems + [k.item])
    else if k.BlankLine? then FlushedList(FlushedParagraph(st))
    else
      var s := if |st.listItems| > 0 then FlushedList(st) else st;
      s.(paragraphLines := s.paragraphLines + [k.text])
  }

  /** The state after the lines, in order, starting from `st`. */
  function RunFrom(st: ParserState, lines: seq<Line>): ParserState
    decreases |lines|
  {
    if lines == [] then st else Step(RunFrom(st, lines[..|lines| - 1]), lines[|lines| - 1])
  }

  /** Running over one more line is one more step. */
  lemma RunStep(st: ParserState, lines: seq<Line>, i: nat)
    requires i < |lines|
    ensures RunFrom(st, lines[..i + 1]) == Step(RunFrom(st, lines[..i]), lines[i])
  {
    assert lines[..i + 1][..i] == lines[..i];
  }

  /** The three flushes after the last line. */
  function Finish(st: ParserState): seq<MarkdownBlock> {
    FlushedCode(FlushedList(FlushedParagraph(st))).blocks
  }

  /** What `parseMarkdown(source)` returns. */
  function ParseMarkdownSpec(source: string): seq<MarkdownBlock> {
    Finish(RunFrom(Init, ReadLines(source)))
  }

  // ----- the imperative parser -----

  /** The closure environment of `parseMarkdown`: the output and the three buffers. */
  class MarkdownReader {
    var blocks: seq<MarkdownBlock>
    var paragraphLines: seq<string>
    var listItems: seq<string>
    var codeLines: seq<string>
    var isInCodeBlock: bool

    function State(): ParserState
      reads this
    {
      ParserState(blocks, paragraphLines, listItems, codeLines, isInCodeBlock)
    }

    constructor ()
      ensures State() == Init
    {
      blocks := [];
      paragraphLines := [];
      listItems := [];
      codeLines := [];
      isInCodeBlock := false;
    }

    method FlushParagraph()
      modifies this
      ensures State() == FlushedParagraph(old(State()))
    {
      if |paragraphLines| > 0 {
        blocks := blocks + [Paragraph(Join(paragraphLines, " "))];
        paragraphLines := [];
      }
    }

    method FlushList()
      modifies this
      ensures State() == FlushedList(old(State()))
    {
      if |listItems| > 0 {
        blocks := blocks + [ListBlock(listItems)];
        listItems := [];
      }
    }

    method FlushCode()
      modifies this
      ensures State() == FlushedCode(old(State()))
    {
      if |codeLines| > 0 {
        blocks := blocks + [Code(Join(codeLines, "\n"))];
        codeLines := [];
      }
    }

    /** The three flushes after the loop, and the blocks. */
    method Close() returns (r: seq<MarkdownBlock>)
      modifies this
      ensures r == Finish(old(State()))
    {
      FlushParagraph();
      FlushList();
      FlushCode();
      r := blocks;
    }

    /** One iteration of the `forEach`. */
    method Feed(line: string)
      modifies this
      ensures State() == Step(old(State()), AsLine(line))
    {
      if IsFence(line) {
        ToggleCode(line);
      } else if isInCodeBlock {
        codeLines := codeLines + [line];
      } else {
        FeedOutsideCode(line);
      }
    }

    /** A fence closes the open code block, or flushes the text buffers and opens one. */
    method ToggleCode(line: string)
      requires IsFence(line)
      modifies this
      ensures State() == Step(old(State()), AsLine(line))
    {
      if isInCodeBlock {
        FlushCode();
        isInCodeBlock := false;
      } else {
        FlushParagraph();
        FlushList();
        isInCodeBlock := true;
      }
    }

    /** The rest of the loop body, outside a code block: heading, list item, blank, paragraph line. */
    method FeedOutsideCode(line: string)
      requires !IsFence(line) && !isInCodeBlock
      modifies this
      ensures State() == Step(old(State()), AsLine(line))
    {
      var headingMatch := MatchHeading(line);
      if headingMatch.Some? {
        PushHeading(AsLine(line), headingMatch.value.0, JsTrim(headingMatch.value.1));
        return;
      }
      var listMatch := MatchListItem(line);
      if listMatch.Some? {
        PushItem(AsLine(line), JsTrim(listMatch.value));
        return;
      }
      if JsTrim(line) == "" {
        EndBlock(AsLine(line));
        return;
      }
      PushText(AsLine(line), JsTrim(line));
    }

    method PushHeading(ghost l: Line, level: HeadingLevel, text: string)
      requires !isInCodeBlock && l.kind == HeadingLine(level, text)
      modifies this
      ensures State() == Step(old(State()), l)
    {
      FlushParagraph();
      FlushList();
      blocks := blocks + [Heading(level, text)];
    }

    method PushItem(ghost l: Line, item: string)
      requires !isInCodeBlock && l.kind == ItemLine(item)
      modifies this
      ensures State() == Step(old(State()), l)
    {
      FlushParagraph();
      listItems := listItems + [item];
    }

    method EndBlock(ghost l: Line)
      requires !isInCodeBlock && l.kind == BlankLine
      modifies this
      ensures State() == Step(old(State()), l)
    {
      FlushParagraph();
      FlushList();
    }

    method PushText(ghost l: Line, text: string)
      requires !isInCodeBlock && l.kind == TextLine(text)
      modifies this
      ensures State() == Step(old(State()), l)
    {
      if |listItems| > 0 {
        FlushList();
      }
      paragraphLines := paragraphLines + [text];
    }
  }

  /** `parseMarkdown`. */
  method ParseMarkdown(source: string) returns (blocks: seq<MarkdownBlock>)
    ensures blocks == ParseMarkdownSpec(source)
  {
    var lines := SplitLines(source);
    ghost var classified := ReadLines(source);
    var reader := new MarkdownReader();
    var i := 0;
    while i < |lines|
      invariant 0 <= i <= |lines|
      invariant reader.State() == RunFrom(Init, classified[..i])
    {
      assert classified[i] == AsLine(lines[i]);
      reader.Feed(lines[i]);
      RunStep(Init, classified, i);
      i := i + 1;
    }
    assert classified[..|lines|] == classified;
    blocks := reader.Close();
  }

  // ----- properties -----

  /** Headings and list items carry trimmed, non-empty text; paragraphs are non-empty; lists are non-empty. */
  predicate WellFormed(b: MarkdownBlock) {
    match b
    case Heading(_, text) => Trimmed(text)
    case Paragraph(text) => text != ""
    case ListBlock(items) => items != [] && forall k :: 0 <= k < |items| ==> Trimmed(items[k])
    case Code(_) => true
  }

  /**
   * The invariant of the loop: the paragraph and list buffers are never both
   * non-empty, both are empty in code mode, the code buffer is empty outside
   * it, and every buffered line and every block pushed so far is well formed.
   */
  predicate Valid(st: ParserState) {
    !(st.paragraphLines != [] && st.listItems != []) &&
    (st.isInCodeBlock ==> st.paragraphLines == [] && st.listItems == []) &&
    (!st.isInCodeBlock ==> st.codeLines == []) &&
    (forall k :: 0 <= k < |st.paragraphLines| ==> Trimmed(st.paragraphLines[k])) &&
    (forall k :: 0 <= k < |st.listItems| ==> Trimmed(st.listItems[k])) &&
    (forall k :: 0 <= k < |st.blocks| ==> WellFormed(st.blocks[k]))
  }

  lemma FlushesKeepBlocksWellFormed(st: ParserState)
    requires forall k :: 0 <= k < |st.paragraphLines| ==> Trimmed(st.paragraphLines[k])
    requires forall k :: 0 <= k < |st.listItems| ==> Trimmed(st.listItems[k])
    requires forall k :: 0 <= k < |st.blocks| ==> WellFormed(st.blocks[k])
    ensures var s := FlushedParagraph(st); forall k :: 0 <= k < |s.blocks| ==> WellFormed(s.blocks[k])
    ensures var s := FlushedList(st); forall k :: 0 <= k < |s.blocks| ==> WellFormed(s.blocks[k])
    ensures var s := FlushedCode(st); forall k :: 0 <= k < |s.blocks| ==> WellFormed(s.blocks[k])
  {
    if |st.paragraphLines| > 0 {
      JoinNonEmpty(st.paragraphLines, " ");
    }
  }

  /** Every line keeps the invariant. */
  lemma StepValid(st: ParserState, line: Line)
    requires Valid(st) && KindWellFormed(line.kind)
    ensures Valid(Step(st, line))
  {
    FlushesKeepBlocksWellFormed(st);
    FlushesKeepBlocksWellFormed(FlushedParagraph(st));
  }

  lemma {:induction false} RunValid(st: ParserState, lines: seq<Line>)
    requires Valid(st) && forall k :: 0 <= k < |lines| ==> KindWellFormed(lines[k].kind)
    ensures Valid(RunFrom(st, lines))
    decreases |lines|
  {
    if lines != [] {
      RunValid(st, lines[..|lines| - 1]);
      StepValid(RunFrom(st, lines[..|lines| - 1]), lines[|lines| - 1]);
    }
  }

  /** No block `parseMarkdown` returns is empty, except that a code block may hold one empty line. */
  lemma BlocksWellFormed(source: string)
    ensures forall k :: 0 <= k < |ParseMarkdownSpec(source)| ==> WellFormed(ParseMarkdownSpec(source)[k])
  {
    var lines := ReadLines(source);
    RunValid(Init, lines);
    var st := RunFrom(Init, lines);
    FlushesKeepBlocksWellFormed(st);
    FlushesKeepBlocksWellFormed(FlushedParagraph(st));
    FlushesKeepBlocksWellFormed(FlushedList(FlushedParagraph(st)));
  }

  lemma {:induction false} RunFromAppend(st: ParserState, a: seq<Line>, b: seq<Line>)
    ensures RunFrom(st, a + b) == RunFrom(RunFrom(st, a), b)
    decreases |b|
  {
    if b == [] {
      assert a + b == a;
    } else {
      assert (a + b)[..|a + b| - 1] == a + b[..|b| - 1];
      RunFromAppend(st, a, b[..|b| - 1]);
    }
  }

  /** The text of the lines, in order. */
  function Raws(lines: seq<Line>): (r: seq<string>)
    ensures |r| == |lines| && forall k :: 0 <= k < |lines| ==> r[k] == lines[k].raw
  {
    seq(|lines|, k requires 0 <= k < |lines| => lines[k].raw)
  }

  /** Inside a code block every line that is not a fence is kept verbatim. */
  lemma {:induction false} CodeLinesVerbatim(st: ParserState, lines: seq<Line>)
    requires st.isInCodeBlock && forall k :: 0 <= k < |lines| ==> !lines[k].kind.FenceLine?
    ensures RunFrom(st, lines) == st.(codeLines := st.codeLines + Raws(lines))
    decreases |lines|
  {
    if lines != [] {
      var init := lines[..|lines| - 1];
      CodeLinesVerbatim(st, init);
      assert Raws(lines) == Raws(init) + [lines[|lines| - 1].raw];
    }
  }

  /**
   * A fenced block read outside code and with empty buffers becomes one code
   * block holding its lines joined by line feeds; with no lines it produces none.
   */
  lemma FencedBlock(st: ParserState, openFence: Line, body: seq<Line>, closeFence: Line)
    requires !st.isInCodeBlock && st.paragraphLines == [] && st.listItems == [] && st.codeLines == []
    requires openFence.kind.FenceLine? && closeFence.kind.FenceLine?
    requires forall k :: 0 <= k < |body| ==> !body[k].kind.FenceLine?
    ensures body != [] ==>
      RunFrom(st, [openFence] + body + [closeFence]) == st.(blocks := st.blocks + [Code(Join(Raws(body), "\n"))])
    ensures body == [] ==> RunFrom(st, [openFence] + body + [closeFence]) == st
  {
    var afterOpen := st.(isInCodeBlock := true);
    var inside := afterOpen.(codeLines := Raws(body));
    assert RunFrom(st, [openFence] + body) == inside by {
      assert Step(st, openFence) == afterOpen;
      RunSingle(st, openFence);
      RunFromAppend(st, [openFence], body);
      CodeLinesVerbatim(afterOpen, body);
    }
    assert RunFrom(st, [openFence] + body + [closeFence]) == Step(inside, closeFence) by {
      RunFromAppend(st, [openFence] + body, [closeFence]);
      RunSingle(inside, closeFence);
    }
    if body == [] {
      assert Raws(body) == [];
    }
  }

  lemma RunSingle(st: ParserState, line: Line)
    ensures RunFrom(st, [line]) == Step(st, line)
  {
    assert [line][..0] == [];
  }

  /** The items of list lines, in order. */
  function Items(lines: seq<Line>): (r: seq<string>)
    requires forall k :: 0 <= k < |lines| ==> lines[k].kind.ItemLine?
    ensures |r| == |lines| && forall k :: 0 <= k < |lines| ==> r[k] == lines[k].kind.item
  {
    seq(|lines|, k requires 0 <= k < |lines| => lines[k].kind.item)
  }

  /** Consecutive list lines outside code, with no pending paragraph, extend one list. */
  lemma {:induction false} ListLinesGroup(st: ParserState, lines: seq<Line>)
    requires !st.isInCodeBlock && st.paragraphLines == []
    requires forall k :: 0 <= k < |lines| ==> lines[k].kind.ItemLine?
    ensures RunFrom(st, lines) == st.(listItems := st.listItems + Items(lines))
    decreases |lines|
  {
    if lines != [] {
      var init := lines[..|lines| - 1];
      ListLinesGroup(st, init);
      assert Items(lines) == Items(init) + [lines[|lines| - 1].kind.item];
    }
  }

  /** The trimmed text of paragraph lines, in order. */
  function Texts(lines: seq<Line>): (r: seq<string>)
    requires forall k :: 0 <= k < |lines| ==> lines[k].kind.TextLine?
    ensures |r| == |lines| && forall k :: 0 <= k < |lines| ==> r[k] == lines[k].kind.text
  {
    seq(|lines|, k requires 0 <= k < |lines| => lines[k].kind.text)
  }

  /** Consecutive paragraph lines outside code, with no pending list, extend one paragraph. */
  lemma {:induction false} PlainLinesGroup(st: ParserState, lines: seq<Line>)
    requires !st.isInCodeBlock && st.listItems == []
    requires forall k :: 0 <= k < |lines| ==> lines[k].kind.TextLine?
    ensures RunFrom(st, lines) == st.(paragraphLines := st.paragraphLines + Texts(lines))
    decreases |lines|
  {
    if lines != [] {
      var init := lines[..|lines| - 1];
      PlainLinesGroup(st, init);
      assert Texts(lines) == Texts(init) + [lines[|lines| - 1].kind.text];
    }
  }

  /** A paragraph line after a list closes the list before the paragraph starts. */
  lemma TextLineClosesList(st: ParserState, line: Line)
    requires !st.isInCodeBlock && st.paragraphLines == [] && st.listItems != [] && line.kind.TextLine?
    ensures Step(st, line) == st.(blocks := st.blocks + [ListBlock(st.listItems)], listItems := [],
                                  paragraphLines := [line.kind.text])
  {
  }

  /** A code block still open at the end of the text is emitted as the last block. */
  lemma UnterminatedCodeEmitted(st: ParserState)
    requires Valid(st) && st.isInCodeBlock && st.codeLines != []
    ensures Finish(st) == st.blocks + [Code(Join(st.codeLines, "\n"))]
  {
  }

  /** A text of one line that is neither fence, heading, list item nor blank is one paragraph. */
  lemma SingleTextLine(line: string)
    requires '\n' !in line && Classify(line).TextLine?
    ensures ParseMarkdownSpec(line) == [Paragraph(JsTrim(line))]
  {
    OneLine(line);
    OneTextLine(AsLine(line));
  }

  /** A text without a line feed is one line. */
  lemma OneLine(line: string)
    requires '\n' !in line
    ensures ReadLines(line) == [AsLine(line)]
  {
    SplitOnFree(line, '\n');
    assert SplitLines(line) == [line];
  }

  /** A lone paragraph line becomes one paragraph holding its text. */
  lemma OneTextLine(l: Line)
    requires l.kind.TextLine?
    ensures Finish(RunFrom(Init, [l])) == [Paragraph(l.kind.text)]
  {
    var st := ParserState([], [l.kind.text], [], [], false);
    assert RunFrom(Init, [l]) == st by {
      assert [l][..0] == [];
    }
    assert Join([l.kind.text], " ") == l.kind.text;
  }

  /** LF and CRLF line ends give the same blocks. */
  lemma LineEndingsAlike(lines: seq<string>)
    requires |lines| >= 1 && forall k :: 0 <= k < |lines| ==> '\n' !in lines[k]
    requires forall k :: 0 <= k < |lines| - 1 ==> lines[k] == [] || lines[k][|lines[k]| - 1] != '\r'
    ensures ParseMarkdownSpec(Join(lines, "\r\n")) == ParseMarkdownSpec(Join(lines, "\n"))
  {
    SplitCRLF(lines);
    SplitLF(lines);
  }

  /** Any mix of LF and CRLF line ends gives the same blocks as LF alone. */
  lemma MixedEndingsAlike(lines: seq<string>, crlf: seq<bool>)
    requires |lines| >= 1 && |crlf| == |lines| - 1
    requires forall k :: 0 <= k < |lines| ==> '\n' !in lines[k]
    requires forall k :: 0 <= k < |lines| - 1 ==> lines[k] == [] || lines[k][|lines[k]| - 1] != '\r'
    ensures ParseMarkdownSpec(JoinEnds(lines, crlf)) == ParseMarkdownSpec(Join(lines, "\n"))
  {
    SplitMixed(lines, crlf);
    SplitLF(lines);
  }
}
