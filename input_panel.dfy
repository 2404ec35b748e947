/**
 * The input panel's state: the chosen tab, the pasted text, the chosen file
 * and the error line under the form.  A file selection goes through the
 * 10 MiB guard; a submission validates the active tab and yields the input
 * handed to the generation, if any.  Reading the file's contents is foreign
 * code: the model takes what the readers produce as an input.
 */
module InputPanel {
  import opened Wrappers
  import opened Types
  import opened JsText
  import FileParser
  import GeminiService

  /** The largest accepted file, in bytes (10 MiB). */
  const MaxFileSize: nat := 10 * 1024 * 1024

  const FileTooLargeMessage: string := "Kích thước file không được vượt quá 10MB."
  const EmptyTextMessage: string := "Vui lòng nhập nội dung đề thi."
  const ParseFailedMessage: string := "Không thể xử lý file này."
  const NoInputMessage: string := "Vui lòng chọn file hoặc nhập nội dung."

  /** The four state fields of the panel. */
  datatype Panel = Panel(mode: InputMode, textInput: string, file: Option<FileInfo>, fileError: string)

  /** The state the panel is mounted in. */
  const InitialPanel: Panel := Panel(InputMode.Upload, "", None, "")

  /** The chosen file, if any, is within the size limit. */
  predicate Bounded(p: Panel) {
    p.file.Some? ==> p.file.value.size <= MaxFileSize
  }

  /**
   * The new state after `handleFileChange(selected)`, `None` standing for
   * `null`.  A file within the limit is taken and clears the error line; a
   * larger one sets the size error and keeps the file chosen before; `null`
   * changes nothing, an existing error included.  So a selection changes only
   * the file and the error line, never the tab or the text, and no selection
   * lets a file over the limit in.
   */
  function FileChange(p: Panel, selected: Option<FileInfo>): (q: Panel)
    ensures selected.Some? && selected.value.size <= MaxFileSize ==> q == p.(file := selected, fileError := "")
    ensures selected.Some? && selected.value.size > MaxFileSize ==> q == p.(fileError := FileTooLargeMessage)
    ensures q.mode == p.mode && q.textInput == p.textInput
    ensures selected.None? ==> q == p
    ensures q.file != p.file ==> q.file == selected && q.fileError == ""
    ensures Bounded(p) ==> Bounded(q)
  {
    match selected
    case None => p
    case Some(f) =>
      if f.size > MaxFileSize then p.(fileError := FileTooLargeMessage)
      else p.(file := selected, fileError := "")
  }

  /** How a submission ends: the input handed to `onGenerate`, if any, and the error line. */
  datatype Submission = Submission(generated: Option<InputContent>, fileError: string)

  /**
   * What `handleSubmit` does, given the readers' results for the chosen file.
   * While a generation runs it only clears the error line; whatever it hands
   * on is a text or an image input, with the error line cleared.
   */
  function Submit(p: Panel, isLoading: bool, libs: FileParser.Libraries, contents: FileParser.FileContents): (s: Submission)
    ensures isLoading ==> s == Submission(None, "")
    ensures s.generated.Some? ==> !s.generated.value.Unrecognized? && s.fileError == ""
  {
    if isLoading then Submission(None, "")
    else if p.mode == InputMode.Text then
      if Trim(p.textInput) == "" then Submission(None, EmptyTextMessage)
      else Submission(Some(InputContent.Text(p.textInput)), "")
    else
      match p.file
      case None => Submission(None, NoInputMessage)
      case Some(f) =>
        match FileParser.ParseFile(f, libs, contents)
        case Ok(parsed) => Submission(Some(parsed), "")
        case Err(e) => Submission(None, MessageOr(e, ParseFailedMessage))
  }

  class InputPanelState {
    var mode: InputMode
    var textInput: string
    var file: Option<FileInfo>
    var fileError: string

    function State(): Panel
      reads this
    {
      Panel(mode, textInput, file, fileError)
    }

    predicate Valid()
      reads this
    {
      Bounded(State())
    }

    constructor ()
      ensures Valid() && State() == InitialPanel
    {
      mode := InputMode.Upload;
      textInput := "";
      file := None;
      fileError := "";
    }

    /** A click on one of the two tabs. */
    method SetMode(m: InputMode)
      requires Valid()
      modifies this
      ensures Valid()
      ensures State() == old(State()).(mode := m)
    {
      mode := m;
    }

    /** An edit of the text area. */
    method SetTextInput(t: string)
      requires Valid()
      modifies this
      ensures Valid()
      ensures State() == old(State()).(textInput := t)
    {
      textInput := t;
    }

    /** `handleFileChange(selected)`. */
    method HandleFileChange(selected: Option<FileInfo>)
      requires Valid()
      modifies this
      ensures Valid()
      ensures State() == FileChange(old(State()), selected)
    {
      if selected.None? {
        return;
      }
      fileError := "";
      if selected.value.size > MaxFileSize {
        fileError := FileTooLargeMessage;
        return;
      }
      file := selected;
    }

    /** `handleSubmit()`: returns the input passed to `onGenerate`, if it is called. */
    method HandleSubmit(isLoading: bool, libs: FileParser.Libraries, contents: FileParser.FileContents)
      returns (generated: Option<InputContent>)
      requires Valid()
      modifies this
      ensures Valid()
      ensures var s := Submit(old(State()), isLoading, libs, contents);
        generated == s.generated && State() == old(State()).(fileError := s.fileError)
    {
      fileError := "";
      generated := None;
      if isLoading {
        return;
      }
      if mode == InputMode.Text {
        if Trim(textInput) == "" {
          fileError := EmptyTextMessage;
          return;
        }
        generated := Some(InputContent.Text(textInput));
      } else if file.Some? {
        var parsed := FileParser.ParseFile(file.value, libs, contents);
        match parsed {
          case Ok(content) =>
            generated := Some(content);
          case Err(e) =>
            fileError := MessageOr(e, ParseFailedMessage);
        }
      } else {
        fileError := NoInputMessage;
      }
    }
  }

  /**
   * The size guard: a file of exactly 10 MiB is taken and clears the error
   * line; one byte more sets the size error and keeps the file chosen before.
   */
  lemma SizeLimitBoundary(p: Panel, name: string, mimeType: string)
    ensures FileChange(p, Some(FileInfo(name, mimeType, 10485760)))
         == p.(file := Some(FileInfo(name, mimeType, 10485760)), fileError := "")
    ensures FileChange(p, Some(FileInfo(name, mimeType, 10485761)))
         == p.(fileError := FileTooLargeMessage)
  {
  }

  /**
   * On the text tab, text made of white space only is refused with the
   * "enter content" error; any other text is handed on as typed, untrimmed.
   */
  lemma TextTabSubmission(p: Panel, libs: FileParser.Libraries, contents: FileParser.FileContents)
    requires p.mode == InputMode.Text
    ensures var s := Submit(p, false, libs, contents);
      && (s.generated.None? <==> AllWhiteSpace(p.textInput))
      && (AllWhiteSpace(p.textInput) ==> s.fileError == EmptyTextMessage)
      && (!AllWhiteSpace(p.textInput) ==> s == Submission(Some(InputContent.Text(p.textInput)), ""))
  {
    TrimEmptyIffBlank(p.textInput);
  }

  /**
   * On the upload tab: with no file the "choose a file" error is set; with a
   * file, the parsed input is handed on, or the parser's error message (the
   * fallback for a non-`Error`) is shown and nothing is handed on.
   */
  lemma UploadTabSubmission(p: Panel, libs: FileParser.Libraries, contents: FileParser.FileContents)
    requires p.mode == InputMode.Upload
    ensures var s := Submit(p, false, libs, contents);
      && (p.file.None? ==> s == Submission(None, NoInputMessage))
      && (p.file.Some? ==>
            match FileParser.ParseFile(p.file.value, libs, contents)
            case Ok(parsed) => s == Submission(Some(parsed), "")
            case Err(e) => s == Submission(None, MessageOr(e, ParseFailedMessage)))
  {
  }

  /**
   * A failed read of an image ends in an error event, not an `Error`, so the
   * panel shows its own fallback message and hands nothing on.
   */
  lemma FailedImageReadShowsFallback(p: Panel, libs: FileParser.Libraries, contents: FileParser.FileContents)
    requires p.mode == InputMode.Upload && p.file.Some?
    requires StartsWith(p.file.value.mimeType, FileParser.ImageMimePrefix)
    requires contents.dataUrl.ReadFailed?
    ensures Submit(p, false, libs, contents) == Submission(None, ParseFailedMessage)
  {
  }

  /**
   * Whatever the panel hands on is a text or an image input, so the
   * generation service never answers it with its invalid-input error.
   */
  lemma SubmittedInputIsValid(p: Panel, isLoading: bool, libs: FileParser.Libraries, contents: FileParser.FileContents,
                              backend: GeminiService.Request -> GeminiService.Reply)
    ensures var s := Submit(p, isLoading, libs, contents);
      && (s.generated.Some? ==> !s.generated.value.Unrecognized? && s.fileError == "")
      && (s.generated.Some? ==>
            GeminiService.GenerateSimilarQuestions(s.generated.value, backend)
            != Err(ErrorObject(GeminiService.InvalidInputMessage)))
  {
    var s := Submit(p, isLoading, libs, contents);
    if s.generated.Some? {
      assert GeminiService.BackendFailureMessage != GeminiService.InvalidInputMessage by {
        assert |GeminiService.InvalidInputMessage| == 18;
      }
    }
  }
}
