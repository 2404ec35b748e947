/**
 * The file parser: classifies an uploaded file (image MIME type first, then
 * PDF, then DOCX, else rejected) and turns it into the canonical input.  The
 * browser's FileReader, pdf.js and mammoth are foreign code: the model takes
 * what they deliver for the file as inputs.  pdf.js yields, per page, the
 * `str` of each text item; mammoth yields the raw text; FileReader yields
 * the data URL it builds from the file's media type and base64 payload.
 */
module FileParser {
  import opened Wrappers
  import opened JsText
  import opened Types

  const ImageMimePrefix: string := "image/"
  const PdfMime: string := "application/pdf"
  const DocxMime: string := "application/vnd.openxmlformats-officedocument.wordprocessingml.document"

  const ReadFailedMessage: string := "Failed to read file as base64 string."
  const PdfLibraryMissingMessage: string :=
    "Thư viện xử lý PDF (pdf.js) chưa được tải. Vui lòng kiểm tra kết nối mạng và tải lại trang."
  const DocxLibraryMissingMessage: string :=
    "Thư viện xử lý DOCX (mammoth.js) chưa được tải. Vui lòng kiểm tra kết nối mạng và tải lại trang."
  const UnsupportedTypeMessage: string :=
    "Loại file không được hỗ trợ. Vui lòng chọn PDF, DOCX, hoặc file ảnh."

  /** Whether the page has loaded the two extraction libraries. */
  datatype Libraries = Libraries(pdfjsLoaded: bool, mammothLoaded: bool)

  /**
   * What `FileReader.readAsDataURL` ends in: a data URL, a non-string result,
   * or the reader's error event (a progress event, never an `Error`).
   */
  datatype DataUrlRead = ReadDataUrl(mediaType: string, payload: string) | ReadNonString | ReadFailed

  /**
   * What the foreign readers deliver for this file: the data-URL read, the
   * text items of each PDF page in page order (or the error that loading,
   * opening or reading the document raised), and mammoth's raw text (or its
   * error).
   */
  datatype FileContents = FileContents(
    dataUrl: DataUrlRead,
    pdfPages: Result<seq<seq<string>>, Thrown>,
    docxText: Result<string, Thrown>)

  // ---------------------------------------------------------------------------
  // fileToBase64
  // ---------------------------------------------------------------------------

  /** The text of a base64 data URL (section 3 of RFC 2397): `data:<type>;base64,<payload>`. */
  function DataUrl(mediaType: string, payload: string): string {
    "data:" + mediaType + ";base64," + payload
  }

  /** `text.split(',')[1]`; `None` stands for the `undefined` of a text without a comma. */
  function StripDataUrlPrefix(text: string): (r: Option<string>)
    ensures r.None? <==> ',' !in text
    ensures r.Some? ==> ',' !in r.value
  {
    var parts := Split(text, ",");
    SplitSingle(text, ",");
    FreeOfChar(text, ',');
    if |parts| >= 2 then
      SplitPiecesFree(text, ",");
      FreeOfChar(parts[1], ',');
      Some(parts[1])
    else None
  }

  /**
   * Stripping the prefix of a data URL gives back its payload, provided the
   * media type holds no comma (the base64 alphabet has none).
   */
  lemma StripDataUrlRoundTrip(mediaType: string, payload: string)
    requires ',' !in mediaType && ',' !in payload
    ensures StripDataUrlPrefix(DataUrl(mediaType, payload)) == Some(payload)
  {
    var head := "data:" + mediaType + ";base64";
    assert ',' !in "data:" && ',' !in ";base64";
    assert ',' !in head;
    assert DataUrl(mediaType, payload) == Join([head, payload], ",");
    SplitJoinChar([head, payload], ',');
  }

  /**
   * With a comma in the media type the second piece of the split is not the
   * payload: the text between the first and the second comma is returned.
   */
  lemma StripDataUrlCommaInType(before: string, after: string, payload: string)
    requires ',' !in before && ',' !in after && ',' !in payload
    ensures StripDataUrlPrefix(DataUrl(before + "," + after, payload)) == Some(after + ";base64")
  {
    var head := "data:" + before;
    var mid := after + ";base64";
    assert ',' !in "data:" && ',' !in ";base64";
    assert ',' !in head && ',' !in mid;
    assert Join([mid, payload], ",") == mid + "," + payload;
    assert DataUrl(before + "," + after, payload) == head + "," + (mid + "," + payload);
    assert DataUrl(before + "," + after, payload) == Join([head, mid, payload], ",");
    SplitJoinChar([head, mid, payload], ',');
  }

  /** `fileToBase64(file)`: the payload of the data URL, or the reader's failure. */
  function FileToBase64(read: DataUrlRead): (r: Result<string, Thrown>)
    ensures read.ReadDataUrl? && ',' !in read.mediaType && ',' !in read.payload ==> r == Ok(read.payload)
    ensures read.ReadNonString? ==> r == Err(ErrorObject(ReadFailedMessage))
    ensures read.ReadFailed? ==> r == Err(NonError)
  {
    match read
    case ReadDataUrl(mediaType, payload) =>
      var text := DataUrl(mediaType, payload);
      assert text[|"data:" + mediaType + ";base64"|] == ',';
      var stripped := StripDataUrlPrefix(text);
      if ',' !in mediaType && ',' !in payload then
        StripDataUrlRoundTrip(mediaType, payload);
        Ok(stripped.value)
      else Ok(stripped.value)
    case ReadNonString => Err(ErrorObject(ReadFailedMessage))
    case ReadFailed => Err(NonError)
  }

  // ---------------------------------------------------------------------------
  // parsePdf
  // ---------------------------------------------------------------------------

  /** The text one page contributes: its items joined by one space, then one newline. */
  function PageLine(items: seq<string>): string {
    Join(items, " ") + "\n"
  }

  /** The text of pages 1..n, in order. */
  function PdfText(pages: seq<seq<string>>): string
  {
    if pages == [] then "" else PdfText(pages[..|pages| - 1]) + PageLine(pages[|pages| - 1])
  }

  /** What `parsePdf` resolves or rejects with. */
  function PdfResult(pdfjsLoaded: bool, document: Result<seq<seq<string>>, Thrown>): (r: Result<string, Thrown>)
    ensures !pdfjsLoaded ==> r == Err(ErrorObject(PdfLibraryMissingMessage))
    ensures r.Ok? <==> pdfjsLoaded && document.Ok?
    ensures pdfjsLoaded && document.Err? ==> r == Err(document.error)
  {
    if !pdfjsLoaded then Err(ErrorObject(PdfLibraryMissingMessage))
    else match document
      case Err(e) => Err(e)
      case Ok(pages) => Ok(PdfText(pages))
  }

  /**
   * `parsePdf`: the library guard comes before the document is touched; then
   * `fullText += items.join(' ') + '\n'` for i = 1..numPages.
   */
  method ParsePdf(pdfjsLoaded: bool, document: Result<seq<seq<string>>, Thrown>) returns (r: Result<string, Thrown>)
    ensures !pdfjsLoaded ==> r == Err(ErrorObject(PdfLibraryMissingMessage))
    ensures pdfjsLoaded && document.Err? ==> r == Err(document.error)
    ensures pdfjsLoaded && document.Ok? ==> r == Ok(PdfText(document.value))
    ensures r == PdfResult(pdfjsLoaded, document)
  {
    if !pdfjsLoaded {
      return Err(ErrorObject(PdfLibraryMissingMessage));
    }
    if document.Err? {
      return Err(document.error);
    }
    var pages := document.value;
    var numPages := |pages|;
    var fullText := "";
    for i := 1 to numPages + 1
      invariant fullText == PdfText(pages[..i - 1])
    {
      var items := pages[i - 1];
      fullText := fullText + Join(items, " ") + "\n";
      assert pages[..i][..i - 1] == pages[..i - 1];
    }
    assert pages[..numPages] == pages;
    return Ok(fullText);
  }

  /** The page texts joined with a newline, each as `items.join(' ')`. */
  function PageTexts(pages: seq<seq<string>>): (texts: seq<string>)
    ensures |texts| == |pages|
    ensures forall i :: 0 <= i < |pages| ==> texts[i] == Join(pages[i], " ")
  {
    seq(|pages|, i requires 0 <= i < |pages| => Join(pages[i], " "))
  }

  lemma {:induction false} PdfTextAsJoin(pages: seq<seq<string>>)
    ensures PdfText(pages) == Join(PageTexts(pages) + [""], "\n")
    decreases |pages|
  {
    if pages != [] {
      var init := pages[..|pages| - 1];
      var last := Join(pages[|pages| - 1], " ");
      PdfTextAsJoin(init);
      assert pages[..|pages| - 1] == init;
      assert PageTexts(pages) == PageTexts(init) + [last];
      if init == [] {
        assert PageTexts(pages) + [""] == [last, ""];
        assert [last, ""][1..] == [""];
      } else {
        var texts := PageTexts(init);
        JoinSnoc(texts, "", "\n");
        JoinSnoc(texts, last, "\n");
        JoinSnoc(texts + [last], "", "\n");
        calc == {
          PdfText(pages);
          PdfText(init) + PageLine(pages[|pages| - 1]);
          Join(texts + [""], "\n") + (last + "\n");
          (Join(texts, "\n") + "\n" + "") + (last + "\n");
          Join(texts, "\n") + "\n" + last + "\n" + "";
          Join(texts + [last], "\n") + "\n" + "";
          Join((texts + [last]) + [""], "\n");
        }
      }
    }
  }

  /**
   * Each page ends in exactly one newline: when no text item holds a newline,
   * the lines of the PDF text are the pages' texts in page order, followed by
   * the empty piece after the last newline.
   */
  lemma PdfTextLines(pages: seq<seq<string>>)
    requires forall i, j :: 0 <= i < |pages| && 0 <= j < |pages[i]| ==> '\n' !in pages[i][j]
    ensures Split(PdfText(pages), "\n") == PageTexts(pages) + [""]
    ensures multiset(PdfText(pages))['\n'] == |pages|
  {
    var texts := PageTexts(pages) + [""];
    forall k | 0 <= k < |texts| ensures '\n' !in texts[k] {
      if k < |pages| {
        NotInJoin('\n', pages[k], " ");
      }
    }
    PdfTextAsJoin(pages);
    SplitJoinChar(texts, '\n');
    SplitCountChar(PdfText(pages), '\n');
  }

  /** Zero pages give the empty text; three one-item pages "A", "B", "C" give "A\nB\nC\n". */
  lemma PdfTextExamples()
    ensures PdfText([]) == ""
    ensures PdfText([["A"], ["B"], ["C"]]) == "A\nB\nC\n"
  {
    var pages := [["A"], ["B"], ["C"]];
    assert pages[..2] == [["A"], ["B"]];
    assert pages[..2][..1] == [["A"]];
    assert [["A"]][..0] == [];
  }

  // ---------------------------------------------------------------------------
  // parseDocx
  // ---------------------------------------------------------------------------

  /** `parseDocx`: the library guard, then mammoth's raw text unchanged. */
  function ParseDocx(mammothLoaded: bool, extracted: Result<string, Thrown>): (r: Result<string, Thrown>)
    ensures !mammothLoaded ==> r == Err(ErrorObject(DocxLibraryMissingMessage))
    ensures mammothLoaded ==> r == extracted
  {
    if !mammothLoaded then Err(ErrorObject(DocxLibraryMissingMessage)) else extracted
  }

  // ---------------------------------------------------------------------------
  // parseFile
  // ---------------------------------------------------------------------------

  /** `file.name.split('.').pop()?.toLowerCase()`: the last dot-separated piece, lower-cased. */
  function Extension(name: string): (ext: string)
    ensures '.' !in ext
    ensures forall i :: 0 <= i < |ext| ==> !('A' <= ext[i] <= 'Z')
  {
    var pieces := Split(name, ".");
    var last := pieces[|pieces| - 1];
    SplitPiecesFree(name, ".");
    FreeOfChar(last, '.');
    ToLowerCaseIdempotent(last);
    ToLowerCase(last)
  }

  /** A name without a dot is its own extension. */
  lemma ExtensionWithoutDot(name: string)
    requires '.' !in name
    ensures Extension(name) == ToLowerCase(name)
  {
    FreeOfChar(name, '.');
    SplitSingle(name, ".");
  }

  /** The extension is what follows the last dot, whatever the name before it. */
  lemma ExtensionAfterLastDot(base: string, ext: string)
    requires '.' !in ext
    ensures Extension(base + "." + ext) == ToLowerCase(ext)
  {
    SplitAppendChar(base, '.', ext);
    FreeOfChar(ext, '.');
    SplitSingle(ext, ".");
  }

  /** The reader `parseFile` chooses, in the order it tests for them. */
  datatype FileKind = ImageFile | PdfFile | DocxFile | UnsupportedFile

  predicate IsPdfName(file: FileInfo) {
    Extension(file.name) == "pdf" || file.mimeType == PdfMime
  }

  predicate IsDocxName(file: FileInfo) {
    Extension(file.name) == "docx" || file.mimeType == DocxMime
  }

  /** The branch of `parseFile` a file takes. */
  function Classify(file: FileInfo): (k: FileKind)
    ensures k == ImageFile <==> StartsWith(file.mimeType, ImageMimePrefix)
    ensures k == PdfFile <==> !StartsWith(file.mimeType, ImageMimePrefix) && IsPdfName(file)
    ensures k == DocxFile <==>
      !StartsWith(file.mimeType, ImageMimePrefix) && !IsPdfName(file) && IsDocxName(file)
    ensures k == UnsupportedFile <==>
      !StartsWith(file.mimeType, ImageMimePrefix) && !IsPdfName(file) && !IsDocxName(file)
  {
    if StartsWith(file.mimeType, ImageMimePrefix) then ImageFile
    else if IsPdfName(file) then PdfFile
    else if IsDocxName(file) then DocxFile
    else UnsupportedFile
  }

  /** `parseFile(file)`: the canonical input, or what was thrown. */
  function ParseFile(file: FileInfo, libs: Libraries, contents: FileContents): (r: Result<InputContent, Thrown>)
    ensures r.Ok? ==> !r.value.Unrecognized?
    ensures Classify(file) == ImageFile ==>
      match FileToBase64(contents.dataUrl)
      case Ok(data) => r == Ok(Image(file.mimeType, data))
      case Err(e) => r == Err(e)
    ensures Classify(file) == PdfFile ==>
      match PdfResult(libs.pdfjsLoaded, contents.pdfPages)
      case Ok(text) => r == Ok(InputContent.Text(text))
      case Err(e) => r == Err(e)
    ensures Classify(file) == DocxFile ==>
      match ParseDocx(libs.mammothLoaded, contents.docxText)
      case Ok(text) => r == Ok(InputContent.Text(text))
      case Err(e) => r == Err(e)
    ensures Classify(file) == UnsupportedFile ==> r == Err(ErrorObject(UnsupportedTypeMessage))
  {
    match Classify(file)
    case ImageFile =>
      (match FileToBase64(contents.dataUrl)
       case Ok(data) => Ok(Image(file.mimeType, data))
       case Err(e) => Err(e))
    case PdfFile =>
      (match PdfResult(libs.pdfjsLoaded, contents.pdfPages)
       case Ok(text) => Ok(InputContent.Text(text))
       case Err(e) => Err(e))
    case DocxFile =>
      (match ParseDocx(libs.mammothLoaded, contents.docxText)
       case Ok(text) => Ok(InputContent.Text(text))
       case Err(e) => Err(e))
    case UnsupportedFile => Err(ErrorObject(UnsupportedTypeMessage))
  }

  /** An image MIME type decides, whatever the extension says; the data is the payload. */
  lemma ImageWinsOverExtension(file: FileInfo, libs: Libraries, contents: FileContents)
    requires StartsWith(file.mimeType, ImageMimePrefix)
    requires contents.dataUrl.ReadDataUrl?
    requires ',' !in contents.dataUrl.mediaType && ',' !in contents.dataUrl.payload
    ensures ParseFile(file, libs, contents) == Ok(Image(file.mimeType, contents.dataUrl.payload))
  {
  }

  /** A missing pdf.js is reported before the file's bytes matter. */
  lemma PdfLibraryCheckedFirst(file: FileInfo, libs: Libraries, c1: FileContents, c2: FileContents)
    requires Classify(file) == PdfFile && !libs.pdfjsLoaded
    ensures ParseFile(file, libs, c1) == ParseFile(file, libs, c2) == Err(ErrorObject(PdfLibraryMissingMessage))
  {
  }

  /** A missing mammoth is reported before the file's bytes matter. */
  lemma DocxLibraryCheckedFirst(file: FileInfo, libs: Libraries, c1: FileContents, c2: FileContents)
    requires Classify(file) == DocxFile && !libs.mammothLoaded
    ensures ParseFile(file, libs, c1) == ParseFile(file, libs, c2) == Err(ErrorObject(DocxLibraryMissingMessage))
  {
  }

  /** A file named `*.pdf` that is not an image is read as a PDF, whatever its MIME type. */
  lemma PdfByExtension(base: string, mimeType: string, size: nat, libs: Libraries, contents: FileContents)
    requires !StartsWith(mimeType, ImageMimePrefix)
    requires libs.pdfjsLoaded && contents.pdfPages.Ok?
    ensures ParseFile(FileInfo(base + ".pdf", mimeType, size), libs, contents)
         == Ok(InputContent.Text(PdfText(contents.pdfPages.value)))
  {
    assert base + ".pdf" == base + "." + "pdf";
    ExtensionAfterLastDot(base, "pdf");
    assert ToLowerCase("pdf") == "pdf";
  }

  /** A DOCX file's text is the extractor's raw text, unchanged. */
  lemma DocxTextPassedThrough(file: FileInfo, libs: Libraries, contents: FileContents)
    requires Classify(file) == DocxFile && libs.mammothLoaded && contents.docxText.Ok?
    ensures ParseFile(file, libs, contents) == Ok(InputContent.Text(contents.docxText.value))
  {
  }
}
