/**
 * The Word export of the generated text (`downloadAsDocx`): two guards on
 * the page's libraries, then one paragraph per line of the text, each the
 * line with its surrounding white space trimmed, packed and saved under the
 * caller's file name.  The document encoder and the saver are foreign code:
 * the model takes whether they are loaded and whether packing succeeds as
 * inputs and returns what the call ends in.
 */
module DocxDownloader {
  import opened JsText

  const DocxMissingAlert: string :=
    "Không thể tạo file Word. Thư viện cần thiết (docx.js) chưa được tải. Vui lòng tải lại trang và thử lại."
  const SaverMissingAlert: string :=
    "Không thể tải file. Thư viện cần thiết (FileSaver.js) chưa được tải. Vui lòng tải lại trang và thử lại."
  const PackFailedAlert: string := "Đã xảy ra lỗi khi tạo file Word."

  /** What the page provides at call time, and how packing the document ends. */
  datatype Environment = Environment(docxLoaded: bool, saveAsLoaded: bool, packSucceeds: bool)

  /** How a download ends: an alert, or the saver called with the document and a file name. */
  datatype Outcome = Alerted(message: string) | Saved(paragraphs: seq<string>, fileName: string)

  /** The texts of the document's paragraphs, one per line of `content`. */
  function ExportParagraphs(content: string): (paragraphs: seq<string>)
    ensures |paragraphs| == multiset(content)['\n'] + 1
    ensures |paragraphs| == |Split(content, "\n")|
    ensures forall i :: 0 <= i < |paragraphs| ==> IsTrimOf(paragraphs[i], Split(content, "\n")[i])
  {
    var lines := Split(content, "\n");
    SplitCountChar(content, '\n');
    seq(|lines|, i requires 0 <= i < |lines| => Trim(lines[i]))
  }

  /** `downloadAsDocx(content, fileName)`. */
  function DownloadAsDocx(content: string, fileName: string, env: Environment): (o: Outcome)
    ensures !env.docxLoaded ==> o == Alerted(DocxMissingAlert)
    ensures env.docxLoaded && !env.saveAsLoaded ==> o == Alerted(SaverMissingAlert)
    ensures o.Saved? <==> env.docxLoaded && env.saveAsLoaded && env.packSucceeds
    ensures o.Saved? ==> o.paragraphs == ExportParagraphs(content) && o.fileName == fileName
    ensures env.docxLoaded && env.saveAsLoaded && !env.packSucceeds ==> o == Alerted(PackFailedAlert)
  {
    if !env.docxLoaded then Alerted(DocxMissingAlert)
    else if !env.saveAsLoaded then Alerted(SaverMissingAlert)
    else if !env.packSucceeds then Alerted(PackFailedAlert)
    else Saved(ExportParagraphs(content), fileName)
  }

  /** A download is never a silent no-op: it saves, or it shows a non-empty alert. */
  lemma DownloadNeverSilent(content: string, fileName: string, env: Environment)
    ensures var o := DownloadAsDocx(content, fileName, env);
      o.Saved? || (o.Alerted? && o.message != "")
  {
    assert |DocxMissingAlert| > 0 && |SaverMissingAlert| > 0 && |PackFailedAlert| > 0;
  }

  /** Empty content gives one empty paragraph, not an empty document. */
  lemma EmptyContentOneParagraph()
    ensures ExportParagraphs("") == [""]
  {
    var lines := Split("", "\n");
    SplitSingle("", "\n");
    assert lines == [""];
    assert Trim("") == "";
  }

  /**
   * Lines keep their order and none is dropped: when no line has white space
   * around it, joining the paragraphs with newlines gives the content back,
   * `$$` delimiters and empty lines included.
   */
  lemma ParagraphsRejoin(content: string)
    requires forall i :: 0 <= i < |Split(content, "\n")| ==> Trim(Split(content, "\n")[i]) == Split(content, "\n")[i]
    ensures Join(ExportParagraphs(content), "\n") == content
  {
    assert ExportParagraphs(content) == Split(content, "\n");
    JoinSplit(content, "\n");
  }

  /** A paragraph that already has no surrounding white space is the line itself. */
  lemma ParagraphIsLine(content: string, i: nat)
    requires i < |Split(content, "\n")|
    requires var line := Split(content, "\n")[i];
      line == [] || (!IsWhiteSpace(line[0]) && !IsWhiteSpace(line[|line| - 1]))
    ensures ExportParagraphs(content)[i] == Split(content, "\n")[i]
  {
    TrimIdentity(Split(content, "\n")[i]);
  }
}
