# Exam regeneration — a Dafny model of its core

The application takes an exam as pasted text or as an uploaded file (PDF,
DOCX or an image). It turns the exam into one canonical input and sends it to
a generative model with a fixed Vietnamese prompt. It then shows the
generated exam line by line, setting apart the formulas written between `$$`
delimiters, and can export the result as a Word document with one paragraph
per line.

This project models that core:

- the page's generation state (`App.tsx`);
- the input panel's state machine, with its 10 MiB guard and its submission
  checks (`components/InputPanel.tsx`);
- the file classifier and readers (`services/fileParserService.ts`);
- the request builder and reply handling of the generation service
  (`services/geminiService.ts`);
- the output panel's renderer and view priority (`components/OutputPanel.tsx`);
- the Word exporter (`hooks/useDocxDownloader.ts`).

It also proves properties of each. The JavaScript string operations the code
relies on are defined once, with their ECMAScript meaning, in module
`JsText`:

- `split` with a string separator;
- `join`;
- `trim`;
- `startsWith`;
- `toLowerCase`;
- `replace` with a string pattern, including the `$` patterns of the
  replacement text.

Files, one module each:

| file | module | what it holds |
|---|---|---|
| wrappers.dfy | Wrappers | `Option`, `Result` |
| types.dfy | Types | `InputContent`, `InputMode`, `FileInfo`, `Thrown` (what a `catch` receives) |
| js_text.dfy | JsText | the string operations and their laws |
| output_panel.dfy | OutputPanel | `renderLineWithLatex`, `PlainTextWithLatexRenderer`, `renderContent` |
| docx_downloader.dfy | DocxDownloader | `downloadAsDocx` |
| file_parser.dfy | FileParser | `fileToBase64`, `parsePdf` (a loop), `parseDocx`, `parseFile` |
| gemini_service.dfy | GeminiService | the prompt template, `generateSimilarQuestions` |
| app.dfy | App | class `AppState`: `handleGenerate` as start and completion steps |
| input_panel.dfy | InputPanel | class `InputPanelState`: `handleFileChange`, `handleSubmit`, the tab and text setters |

Foreign code becomes inputs:

- FileReader, pdf.js and mammoth become a `FileContents` value: what the data-URL read, the page text items and the extracted DOCX text come to, each possibly a thrown value.
- The SDK client becomes a function `backend` from the request to a `Reply`.
- Which page libraries are loaded becomes a `Libraries` value (reading files) or an `Environment` value (the Word export).
- Whether packing the Word document succeeds becomes a boolean of `Environment`.

Alerts are returned as values of `DocxDownloader.Outcome`.

## Model

| member | source | states |
|---|---|---|
| JsText.IndexOf | components/OutputPanel.tsx:10 | The index found is an occurrence with none before it; none found exactly when the separator does not occur. |
| JsText.Split | components/OutputPanel.tsx:10 | `split` never returns an empty array: `"".split(sep)` is `[""]`. |
| JsText.JoinSplit | components/OutputPanel.tsx:10 | Joining the pieces of a split with the separator gives the text back. |
| JsText.SplitPiecesFree | components/OutputPanel.tsx:10 | No piece of a split holds the separator. |
| JsText.SplitSingle | components/OutputPanel.tsx:10-13 | A split has one piece exactly when the separator does not occur, and that piece is the text. |
| JsText.SplitCountsOccurrences | components/OutputPanel.tsx:10 | A split has one more piece than there are non-overlapping occurrences, counted left to right. |
| JsText.SplitCountChar | components/OutputPanel.tsx:32 | Splitting on one character gives one more piece than the text has of that character. |
| JsText.SplitJoinChar | services/fileParserService.ts:19 | Splitting a join on a character that no piece holds gives back the pieces. |
| JsText.SplitAppendChar | services/fileParserService.ts:55 | Splitting `a + c + b` on `c` is the split of `a` followed by the split of `b`. |
| JsText.Trim | components/OutputPanel.tsx:33 | The result is the text with its leading and trailing ECMAScript white space removed, and nothing else removed. |
| JsText.TrimOfUnique | hooks/useDocxDownloader.ts:28 | Only one string is a trim of a given text. |
| JsText.TrimEmptyIffBlank | components/OutputPanel.tsx:33 | A text trims to `''` exactly when it is white space only. |
| JsText.TrimIdentity | hooks/useDocxDownloader.ts:28 | A text with no white space at either end is its own trim. |
| JsText.Join | services/fileParserService.ts:39 | Defined as `join`; its partners `SplitJoinChar` and `JoinSplit` prove it inverse to `split` on a character that no piece holds. |
| JsText.StartsWith | services/fileParserService.ts:57 | True exactly when the text is at least as long as the prefix and begins with it, and then the text is the prefix followed by the rest. |
| JsText.LowerChar | services/fileParserService.ts:55 | The result is never an upper-case ASCII letter: an upper-case letter becomes its lower-case letter of the alphabet, and every other character is unchanged. |
| JsText.ToLowerCase | services/fileParserService.ts:55 | The result has the same length and is lowered character by character. |
| JsText.ToLowerCaseIdempotent | services/fileParserService.ts:55 | A lowered text has no upper-case ASCII letter, so lowering it again changes nothing. |
| JsText.Substitution | services/geminiService.ts:28 | Defined as the `$` patterns of a replacement text (GetSubstitution); its partners are the three lemmas below and `SubstitutionPrefixLiteral`. |
| JsText.SubstitutionLiteral | services/geminiService.ts:28 | A replacement text without `$` is inserted verbatim. |
| JsText.SubstitutionDollarPairs | services/geminiService.ts:28 | `$$x$$`, with no `$` in `x`, becomes `$x$`. |
| JsText.SubstitutionMatchPattern | services/geminiService.ts:28 | `$&` becomes the matched text, and the texts around it stay as they are. |
| JsText.ReplaceFirst | services/geminiService.ts:28 | With no occurrence the text is unchanged. Otherwise the text before the first occurrence and the text after it are kept, at the front and at the end of the result. |
| JsText.ReplaceFirstAt | services/geminiService.ts:28 | `replace` with a string pattern replaces only the first occurrence, by the substitution of the replacement. |
| Types.MessageOr | App.tsx:24 | The message of an `Error`; the given fallback for any other thrown value. |
| OutputPanel.RenderLineWithLatex | components/OutputPanel.tsx:9-13 | The line comes back unchanged exactly when it holds no `$$`. |
| OutputPanel.RenderLinePieces | components/OutputPanel.tsx:15-27 | A line with `$$` gives one element per piece, in order: odd pieces are formulas, even ones prose, and their texts are the pieces, none holding `$$`. |
| OutputPanel.RenderLineRejoins | components/OutputPanel.tsx:10-27 | Joining the elements' texts with `$$` gives the line back. |
| OutputPanel.UnmatchedDelimiterMakesFormula | components/OutputPanel.tsx:16 | With an odd number of `$$`, the last element is a formula. |
| OutputPanel.MatchedDelimitersEndInProse | components/OutputPanel.tsx:16 | With an even, non-zero number of `$$`, the last element is prose. |
| OutputPanel.FormulaBetweenDelimiters | components/OutputPanel.tsx:15-27 | `p$$f$$q`, with no `$` in `p` or `f` and no `$$` in `q`, gives prose `p`, formula `f`, prose `q`. |
| OutputPanel.DanglingDelimiter | components/OutputPanel.tsx:15-27 | `p$$f` gives prose `p` followed by formula `f`. |
| OutputPanel.RenderBlock | components/OutputPanel.tsx:33-37 | A line becomes a spacer exactly when it is white space only; any other line goes to the formula splitter untrimmed. |
| OutputPanel.RenderPlainText | components/OutputPanel.tsx:32 | There is one element per line: one more than the newlines of the content. |
| OutputPanel.RenderPlainTextLines | components/OutputPanel.tsx:32-38 | Element i is a spacer exactly when line i is white space only; otherwise it is the untrimmed line i passed to the formula splitter. |
| OutputPanel.RenderContent | components/OutputPanel.tsx:60-117 | Loading wins over an error, an error over content, content over the placeholder. The error text is shown as given, and the download gets the content and `de-thi-tuong-tu.docx`. |
| DocxDownloader.ExportParagraphs | hooks/useDocxDownloader.ts:26-30 | There is one paragraph per line, as many as the newlines plus one, and paragraph i is the trim of line i. |
| DocxDownloader.DownloadAsDocx | hooks/useDocxDownloader.ts:8-40 | A missing docx.js alerts first, then a missing FileSaver, then a failed pack. The document is saved exactly when all three succeed, with the paragraphs and the caller's name. |
| DocxDownloader.DownloadNeverSilent | hooks/useDocxDownloader.ts:10-39 | Every call saves or shows a non-empty alert. |
| DocxDownloader.EmptyContentOneParagraph | hooks/useDocxDownloader.ts:26 | Empty content gives one empty paragraph. |
| DocxDownloader.ParagraphsRejoin | hooks/useDocxDownloader.ts:26-30 | When no line has surrounding white space, the paragraphs joined with newlines give the content back. |
| DocxDownloader.ParagraphIsLine | hooks/useDocxDownloader.ts:28 | A line with no white space at its ends becomes its paragraph unchanged. |
| FileParser.StripDataUrlPrefix | services/fileParserService.ts:19 | `split(',')[1]` is undefined exactly when the text has no comma; otherwise it holds no comma. |
| FileParser.StripDataUrlRoundTrip | services/fileParserService.ts:17-19 | For a data URL whose media type has no comma, the payload is recovered. |
| FileParser.StripDataUrlCommaInType | services/fileParserService.ts:19 | A comma inside the media type makes the text between the commas come back instead of the payload. |
| FileParser.FileToBase64 | services/fileParserService.ts:12-27 | The result is the payload of the data URL. A non-string result rejects with the read-failed error; a reader error event is passed on, and it is not an `Error`. |
| FileParser.ParsePdf | services/fileParserService.ts:29-42 | The library guard comes before everything else and a document failure is passed on. Otherwise the loop's text is the page texts, each joined by a space and ended by a newline, in page order. |
| FileParser.PdfText | services/fileParserService.ts:35-41 | Defined as the pages' contributions to `fullText` concatenated in order. Its partners `PdfTextAsJoin` and `PdfTextLines` show it is the page texts each followed by one newline, and `ParsePdf` shows that the loop computes it. |
| FileParser.PdfResult | services/fileParserService.ts:29-42 | Without pdf.js, the library error whatever the document. A success exactly when the library is loaded and the document was read; a document failure is passed on. |
| FileParser.PageTexts | services/fileParserService.ts:39 | Defined as the list whose text i is page i's items joined by one space, the reference side of `PdfTextAsJoin` and `PdfTextLines`. |
| FileParser.PdfTextAsJoin | services/fileParserService.ts:35-41 | The accumulated text is the join of the page texts and a final empty piece with newlines. |
| FileParser.PdfTextLines | services/fileParserService.ts:35-41 | When no item holds a newline, the lines of the text are the page texts in order followed by `""`, and the text has exactly one newline per page. |
| FileParser.PdfTextExamples | services/fileParserService.ts:35-41 | No pages give `""`; one-item pages A, B, C give `"A\nB\nC\n"`. |
| FileParser.ParseDocx | services/fileParserService.ts:44-51 | The library guard comes first; otherwise the extractor's raw text or error is passed on unchanged. |
| FileParser.Extension | services/fileParserService.ts:55 | The extension holds no dot and no upper-case ASCII letter. |
| FileParser.ExtensionWithoutDot | services/fileParserService.ts:55 | A name without a dot is its own (lowered) extension. |
| FileParser.ExtensionAfterLastDot | services/fileParserService.ts:55 | The extension is the lowered text after the last dot. |
| FileParser.Classify | services/fileParserService.ts:57-74 | An `image/` MIME type wins. Then a `pdf` extension or the PDF MIME type, then a `docx` extension or the DOCX MIME type; anything else is unsupported. Each branch is an if-and-only-if over the earlier tests. |
| FileParser.ParseFile | services/fileParserService.ts:53-75 | Each kind is read by its reader and the reader's error is passed on. An unsupported file rejects with the fixed message, and a success is never an unrecognised input. |
| FileParser.ImageWinsOverExtension | services/fileParserService.ts:57-65 | An image MIME type yields the image input with the payload, whatever the name. |
| FileParser.PdfLibraryCheckedFirst | services/fileParserService.ts:30-32 | A PDF without pdf.js gives the library error whatever the file holds. |
| FileParser.DocxLibraryCheckedFirst | services/fileParserService.ts:45-47 | A DOCX without mammoth gives the library error whatever the file holds. |
| FileParser.PdfByExtension | services/fileParserService.ts:66-68 | A non-image file named `*.pdf` is read as a PDF whatever its MIME type. |
| FileParser.DocxTextPassedThrough | services/fileParserService.ts:69-71 | A DOCX's text input is the extractor's raw text, unchanged. |
| GeminiService.PrefixHasNoBrace | services/geminiService.ts:5-8 | The template's text before the slot holds no `{`. |
| GeminiService.SuffixHasNoBrace | services/geminiService.ts:10-17 | The template's text after the slot holds no `{`. |
| GeminiService.TemplateHasOneSlot | services/geminiService.ts:5-17 | The template holds `{CONTEXT}` exactly once. |
| GeminiService.FillSlot | services/geminiService.ts:28 | A template without the slot comes back unchanged; `FillFirstSlot` states what happens to a slot. |
| GeminiService.FillFirstSlot | services/geminiService.ts:28 | When the text before a slot holds no `{`, that slot is replaced by the substitution of the context, and the texts on both sides are kept. |
| GeminiService.Prompt | services/geminiService.ts:28 | Defined as the template with its slot filled; its partners are `PromptShape` and the three `Prompt…` lemmas below. |
| GeminiService.PromptShape | services/geminiService.ts:28 | The prompt is the text before the slot, the substitution of the context, then the text after it. |
| GeminiService.PromptOfLiteralContext | services/geminiService.ts:28 | A context without `$` is inserted verbatim into the slot. |
| GeminiService.PromptCollapsesDollarPairs | services/geminiService.ts:28 | A context `$$x$$` reaches the model as `$x$`. |
| GeminiService.PromptOfMatchPattern | services/geminiService.ts:28 | `$&` in the context is replaced by `{CONTEXT}` itself. |
| GeminiService.ImagePromptIsFixed | services/geminiService.ts:35 | The image prompt is the template with the fixed placeholder in its slot. |
| GeminiService.BuildRequest | services/geminiService.ts:23-52 | Text goes to `gemini-3-flash-preview` with the filled prompt. An image goes to `gemini 2.5 Pro` with the image prompt, then its MIME type and data unchanged. Any other input is an `Invalid input type` error, and only then. |
| GeminiService.TryReply | services/geminiService.ts:55-61 | A non-empty response text is the result; an absent or empty one is the empty-response error. |
| GeminiService.ClassifyReply | services/geminiService.ts:54-65 | Success as the `try` decides; every failure becomes the generic backend error. |
| GeminiService.GenerateSimilarQuestions | services/geminiService.ts:20-66 | An unrecognised input fails before the backend is called; otherwise the reply is classified. |
| GeminiService.TextRequest | services/geminiService.ts:26-32 | A text input without `$` is sent as the template with the text in the slot. |
| GeminiService.ImageRequest | services/geminiService.ts:33-49 | An image is sent as exactly two parts: the placeholder prompt, then the unchanged MIME type and data. |
| GeminiService.ReplyTextReturned | services/geminiService.ts:56-58 | A non-empty response text is returned unchanged. |
| GeminiService.EmptyReplyLikeFailure | services/geminiService.ts:59-64 | An empty or absent text, like a failed call, ends in the generic error. |
| GeminiService.EmptyResponseMessageHidden | services/geminiService.ts:60-64 | The empty-response message never reaches the caller. |
| GeminiService.InvalidInputNotRewrapped | services/geminiService.ts:50-54 | An unrecognised input gets `Invalid input type` whatever the backend, not the generic error. |
| App.ErrorText | App.tsx:24-25 | The error line is `Lỗi: ` followed by the message of an `Error`, or by the fixed fallback for any other value. |
| App.AppState.constructor | App.tsx:10-12 | Not loading, no content, no error. |
| App.AppState.StartGeneration | App.tsx:15-17 | Loading, with error and content cleared. |
| App.AppState.CompleteGeneration | App.tsx:19-28 | Success sets the content and failure the error line, leaving the other as it was; loading ends on both paths. |
| App.AppState.HandleGenerate | App.tsx:14-29 | The state after a generation depends only on how the service call ended, not on the state before. |
| App.Completed | App.tsx:19-28 | After completion: not loading, the result with no error or the error line with no result, never both. |
| App.FailureAlwaysShown | App.tsx:22-25 | A failure always leaves a non-empty error line, the fallback one for a non-`Error`. |
| App.ServiceLeavesExactlyOneOutput | App.tsx:19-25 | With the real service, content is non-empty exactly on success and the error exactly on failure. |
| App.PanelViews | App.tsx:37-38 | The panel shows the placeholder at first, the spinner while loading, then the error or the result, never the placeholder again. |
| InputPanel.InputPanelState.constructor | components/InputPanel.tsx:14-17 | Upload tab, no text, no file, no error; the size invariant holds. |
| InputPanel.InputPanelState.SetMode | components/InputPanel.tsx:73-79 | Only the tab changes; the text and the file are kept, and the size invariant holds. |
| InputPanel.InputPanelState.SetTextInput | components/InputPanel.tsx:112 | Only the text changes, and the size invariant holds. |
| InputPanel.InputPanelState.HandleFileChange | components/InputPanel.tsx:21-30 | The new state is `FileChange` of the old one, and a chosen file is never over 10 MiB. |
| InputPanel.InputPanelState.HandleSubmit | components/InputPanel.tsx:32-53 | The input handed on and the error line are `Submit` of the old state; nothing but the error line changes, and the size invariant holds. |
| InputPanel.SizeLimitBoundary | components/InputPanel.tsx:25-29 | Exactly 10485760 bytes is taken and clears the error; one byte more sets the size error and keeps the earlier file. |
| InputPanel.FileChange | components/InputPanel.tsx:21-30 | A file of at most 10485760 bytes is taken and clears the error; any larger file sets the size error and keeps the earlier file; `null` changes nothing. So the tab and the text never change, and no file over the limit gets in. |
| InputPanel.Submit | components/InputPanel.tsx:32-53 | While loading, a submission only clears the error and hands nothing on. Whatever is handed on is text or an image, with no error line. |
| InputPanel.TextTabSubmission | components/InputPanel.tsx:36-41 | Text that is white space only is refused with the "enter content" error, and only such text. Any other text is handed on untrimmed with no error. |
| InputPanel.UploadTabSubmission | components/InputPanel.tsx:42-52 | With no file, the "choose a file" error. With a file, the parsed input, or the parser's message (the fallback for a non-`Error`) with nothing handed on. |
| InputPanel.FailedImageReadShowsFallback | components/InputPanel.tsx:42-49 | A failed read of an image shows the panel's own "cannot process this file" message and hands nothing on, since the reader's error event is not an `Error`. |
| InputPanel.SubmittedInputIsValid | components/InputPanel.tsx:41-45 | What is handed on is text or an image with no error line, so the service never answers it with `Invalid input type`. |

## Left out

- Rendering: JSX markup, classes, icons, the header, and drag-and-drop event plumbing. A rendered element is modelled by what it shows.
- Copy button: the clipboard write and its 2-second timer are browser I/O and timers.
- Console output: `console.error` calls are logging only and are left out.
- Alerts: `alert` calls become values of `DocxDownloader.Outcome`.
- Configuration: the pdf.js worker URL set at load time and the API key read from the environment.
- Concurrency: `await` and overlapping generations are not modelled. A generation is a start step followed by a completion step, and nothing runs between them.
- Foreign libraries: FileReader, pdf.js, mammoth, the docx `Packer`, FileSaver and the SDK client are represented by their results. The base64 encoding itself is FileReader's.
- FileParser.ParsePdf: a failure of one page's text extraction is folded into the document's result, so the loop runs only over documents that loaded fully.
- DocxDownloader.DownloadAsDocx: a `saveAs` that throws after packing is not modelled.
- GeminiService.GenerateSimilarQuestions: the client construction before the input check is assumed not to throw.
- JsText: strings are sequences of Unicode scalar values, not UTF-16 code units. `toLowerCase` is modelled on ASCII letters only. That is exact for the comparisons with `pdf` and `docx`: no other character lowers to a letter of those names, so an extension other than `pdf` and `docx` matches neither comparison, in the model or in JavaScript.
- GeminiService.BuildRequest: the image prompt is the constant `ImagePrompt`, not a fresh `replace` call. `ImagePromptIsFixed` proves the two are equal.
- FileParser.FileToBase64: the read of a zero-byte file, which a browser may give as the bare text `data:`, is not modelled; every read the model takes holds the comma after `;base64`, so the `undefined` that `split(',')[1]` gives for a text without a comma is not reached through `FileToBase64` (`StripDataUrlPrefix` still defines it).
