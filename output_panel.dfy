/**
 * The output panel: its choice of what to show (loading, error, result or
 * placeholder) and the plain-text renderer that shows each line of the
 * generated exam, with the pieces between `$$` delimiters set apart as
 * formulas.  Markup and styling are not modelled: a rendered element is
 * represented by what it shows.
 */
module OutputPanel {
  import opened JsText

  /** The formula delimiter the prompt asks the model to use. */
  const Delimiter: string := "$$"

  /** The file name the download button passes to the Word exporter. */
  const ExportFileName: string := "de-thi-tuong-tu.docx"

  /** A piece of a line: shown as prose (a `span`) or as a formula (a `code`). */
  datatype Span = Prose(text: string) | Formula(text: string)

  /**
   * What `renderLineWithLatex` returns: the line itself when the split on
   * `$$` gives a single piece, otherwise one element per piece.
   */
  datatype LineView = Unchanged(line: string) | Spans(spans: seq<Span>)

  /** One element per source line: a spacer for a blank line, else a paragraph. */
  datatype Block = Spacer | Paragraph(view: LineView)

  /** The element for piece number `index`: odd pieces sit between delimiters. */
  function SpanAt(part: string, index: nat): Span {
    if index % 2 == 1 then Formula(part) else Prose(part)
  }

  function SpanTexts(spans: seq<Span>): (texts: seq<string>)
    ensures |texts| == |spans|
    ensures forall k :: 0 <= k < |spans| ==> texts[k] == spans[k].text
  {
    seq(|spans|, k requires 0 <= k < |spans| => spans[k].text)
  }

  /** `renderLineWithLatex(line)`. */
  function RenderLineWithLatex(line: string): (r: LineView)
    ensures r.Unchanged? <==> Free(line, Delimiter)
    ensures r.Unchanged? ==> r.line == line
  {
    var parts := Split(line, Delimiter);
    SplitSingle(line, Delimiter);
    if |parts| <= 1 then Unchanged(line)
    else Spans(seq(|parts|, k requires 0 <= k < |parts| => SpanAt(parts[k], k)))
  }

  /**
   * A line with delimiters becomes one element per piece of the split, in
   * order: pieces at odd indices are formulas, the others prose, each with
   * the piece's text unchanged, and no piece holds a delimiter.
   */
  lemma RenderLinePieces(line: string)
    requires !Free(line, Delimiter)
    ensures var r := RenderLineWithLatex(line);
      && r.Spans?
      && |r.spans| == |Split(line, Delimiter)| >= 2
      && (forall k :: 0 <= k < |r.spans| ==> r.spans[k].text == Split(line, Delimiter)[k])
      && (forall k :: 0 <= k < |r.spans| ==> (r.spans[k].Formula? <==> k % 2 == 1))
      && (forall k :: 0 <= k < |r.spans| ==> Free(r.spans[k].text, Delimiter))
  {
    SplitSingle(line, Delimiter);
    SplitPiecesFree(line, Delimiter);
  }

  /** Joining the pieces' texts back with `$$` gives the line exactly. */
  lemma RenderLineRejoins(line: string)
    ensures match RenderLineWithLatex(line)
      case Unchanged(l) => l == line
      case Spans(spans) => Join(SpanTexts(spans), Delimiter) == line
  {
    SplitSingle(line, Delimiter);
    var parts := Split(line, Delimiter);
    if |parts| > 1 {
      var spans := RenderLineWithLatex(line).spans;
      assert SpanTexts(spans) == parts;
      JoinSplit(line, Delimiter);
    }
  }

  /**
   * With an odd number of delimiters the last piece has an odd index, so the
   * text after an unmatched `$$` is shown as a formula, not as prose.
   */
  lemma UnmatchedDelimiterMakesFormula(line: string)
    requires Occurrences(line, Delimiter) % 2 == 1
    ensures var r := RenderLineWithLatex(line);
      r.Spans? && r.spans[|r.spans| - 1].Formula?
  {
    SplitCountsOccurrences(line, Delimiter);
    SplitSingle(line, Delimiter);
  }

  /** With an even, non-zero number of delimiters the last piece is prose. */
  lemma MatchedDelimitersEndInProse(line: string)
    requires Occurrences(line, Delimiter) % 2 == 0 && Occurrences(line, Delimiter) > 0
    ensures var r := RenderLineWithLatex(line);
      r.Spans? && r.spans[|r.spans| - 1].Prose?
  {
    SplitCountsOccurrences(line, Delimiter);
    SplitSingle(line, Delimiter);
  }

  /** The element for one line of the content (the callback of `content.split('\n').map`). */
  function RenderBlock(line: string): (b: Block)
    ensures b.Spacer? <==> AllWhiteSpace(line)
    ensures !AllWhiteSpace(line) ==> b == Paragraph(RenderLineWithLatex(line))
  {
    TrimEmptyIffBlank(line);
    if Trim(line) == "" then Spacer else Paragraph(RenderLineWithLatex(line))
  }

  /** `PlainTextWithLatexRenderer`: one element per line of the content. */
  function RenderPlainText(content: string): (blocks: seq<Block>)
    ensures |blocks| == multiset(content)['\n'] + 1
  {
    var lines := Split(content, "\n");
    SplitCountChar(content, '\n');
    seq(|lines|, i requires 0 <= i < |lines| => RenderBlock(lines[i]))
  }

  /**
   * Element i renders line i of the content: a spacer exactly when the line is
   * white space only, otherwise the line itself, untrimmed, is passed to the
   * formula splitter.
   */
  lemma RenderPlainTextLines(content: string, i: nat)
    requires i < multiset(content)['\n'] + 1
    ensures var lines := Split(content, "\n");
      && i < |lines|
      && (RenderPlainText(content)[i].Spacer? <==> AllWhiteSpace(lines[i]))
      && (!AllWhiteSpace(lines[i]) ==>
            RenderPlainText(content)[i] == Paragraph(RenderLineWithLatex(lines[i])))
  {
    SplitCountChar(content, '\n');
  }

  /** The request the download button sends to the Word exporter. */
  datatype DownloadRequest = DownloadRequest(content: string, fileName: string)

  /** What the panel shows, by branch of `renderContent`. */
  datatype View =
    | LoadingView
    | ErrorView(message: string)
    | ResultView(blocks: seq<Block>, download: DownloadRequest)
    | PlaceholderView

  /**
   * `renderContent`: loading wins over an error, an error over a non-empty
   * result, and with neither an error nor content the placeholder is shown.
   */
  function RenderContent(content: string, isLoading: bool, error: string): (v: View)
    ensures v.LoadingView? <==> isLoading
    ensures v.ErrorView? <==> !isLoading && error != ""
    ensures v.ResultView? <==> !isLoading && error == "" && content != ""
    ensures v.PlaceholderView? <==> !isLoading && error == "" && content == ""
    ensures v.ErrorView? ==> v.message == error
    ensures v.ResultView? ==> v.blocks == RenderPlainText(content)
    ensures v.ResultView? ==> v.download == DownloadRequest(content, ExportFileName)
  {
    if isLoading then LoadingView
    else if error != "" then ErrorView(error)
    else if content != "" then ResultView(RenderPlainText(content), DownloadRequest(content, ExportFileName))
    else PlaceholderView
  }

  /** Splitting `p + "$$" + rest` where `p` holds no `$` cuts at that delimiter. */
  lemma SplitAtFirstDelimiter(p: string, rest: string)
    requires '$' !in p
    ensures Split(p + Delimiter + rest, Delimiter) == [p] + Split(rest, Delimiter)
  {
    var line := p + Delimiter + rest;
    assert line[|p|..|p| + 2] == Delimiter;
    assert line[..|p|] == p && line[|p| + 2..] == rest;
    NoOccurrenceBefore(line, Delimiter, |p|);
    IndexOfIs(line, Delimiter, |p|);
  }

  /**
   * A formula between two delimiters, as in `Solve $$x^2=4$$ now`: prose,
   * formula, prose.
   */
  lemma FormulaBetweenDelimiters(p: string, f: string, q: string)
    requires '$' !in p && '$' !in f && Free(q, Delimiter)
    ensures RenderLineWithLatex(p + Delimiter + f + Delimiter + q)
         == Spans([Prose(p), Formula(f), Prose(q)])
  {
    assert p + Delimiter + f + Delimiter + q == p + Delimiter + (f + Delimiter + q);
    SplitAtFirstDelimiter(p, f + Delimiter + q);
    SplitAtFirstDelimiter(f, q);
    SplitSingle(q, Delimiter);
    assert Split(p + Delimiter + f + Delimiter + q, Delimiter) == [p, f, q];
  }

  /** An unmatched delimiter: the text after it is shown as a formula. */
  lemma DanglingDelimiter(p: string, f: string)
    requires '$' !in p && Free(f, Delimiter)
    ensures RenderLineWithLatex(p + Delimiter + f) == Spans([Prose(p), Formula(f)])
  {
    SplitAtFirstDelimiter(p, f);
    SplitSingle(f, Delimiter);
    assert Split(p + Delimiter + f, Delimiter) == [p, f];
  }
}
