/**
 * The page component's generation state (`handleGenerate`): whether a
 * generation is running, the generated exam and the error line.  A
 * generation is two steps here, its start and its completion, with the
 * service call in between; the start clears both outputs and the completion
 * fills exactly one of them, whatever state the page was in before.
 */
module App {
  import opened Wrappers
  import opened Types
  import GeminiService
  import OutputPanel

  /** The text put in front of every error message shown to the user. */
  const ErrorPrefix: string := "Lỗi: "

  /** The message shown when the thrown value is not an `Error`. */
  const UnknownErrorMessage: string := "Đã xảy ra lỗi không xác định. Vui lòng thử lại."

  /** The three state fields, as the page hands them to the output panel. */
  datatype Snapshot = Snapshot(isLoading: bool, generatedContent: string, error: string)

  /** The state before the first generation. */
  const InitialSnapshot: Snapshot := Snapshot(false, "", "")

  /** The state while the service call is outstanding. */
  const LoadingSnapshot: Snapshot := Snapshot(true, "", "")

  /** The error line for a failed generation: the prefix, then the message or the fallback. */
  function ErrorText(e: Thrown): (m: string)
    ensures |m| >= |ErrorPrefix| && m[..|ErrorPrefix|] == ErrorPrefix
    ensures e.ErrorObject? ==> m[|ErrorPrefix|..] == e.message
    ensures e.NonError? ==> m[|ErrorPrefix|..] == UnknownErrorMessage
    ensures m != ""
  {
    ErrorPrefix + MessageOr(e, UnknownErrorMessage)
  }

  /**
   * The state a generation ends in, by how the service call ended: no longer
   * loading, and the result with no error line or the error line with no
   * result, never both.
   */
  function Completed(outcome: Result<string, Thrown>): (s: Snapshot)
    ensures !s.isLoading
    ensures outcome.Ok? ==> s.generatedContent == outcome.value && s.error == ""
    ensures outcome.Err? ==> s.error == ErrorText(outcome.error) && s.generatedContent == ""
    ensures s.error == "" || s.generatedContent == ""
  {
    match outcome
    case Ok(text) => Snapshot(false, text, "")
    case Err(e) => Snapshot(false, "", ErrorText(e))
  }

  class AppState {
    var isLoading: bool
    var generatedContent: string
    var error: string

    function State(): Snapshot
      reads this
    {
      Snapshot(isLoading, generatedContent, error)
    }

    constructor ()
      ensures State() == InitialSnapshot
    {
      isLoading := false;
      generatedContent := "";
      error := "";
    }

    /** The three updates before the service is called. */
    method StartGeneration()
      modifies this
      ensures State() == LoadingSnapshot
    {
      isLoading := true;
      error := "";
      generatedContent := "";
    }

    /** The `try` body's or the `catch` clause's update, then the `finally` clause's. */
    method CompleteGeneration(outcome: Result<string, Thrown>)
      modifies this
      ensures !isLoading
      ensures generatedContent == if outcome.Ok? then outcome.value else old(generatedContent)
      ensures error == if outcome.Err? then ErrorText(outcome.error) else old(error)
    {
      match outcome {
        case Ok(text) =>
          generatedContent := text;
        case Err(e) =>
          error := ErrorText(e);
      }
      isLoading := false;
    }

    /** `handleGenerate(input)`, with `backend` standing for the SDK call. */
    method HandleGenerate(input: InputContent, backend: GeminiService.Request -> GeminiService.Reply)
      modifies this
      ensures State() == Completed(GeminiService.GenerateSimilarQuestions(input, backend))
    {
      StartGeneration();
      var outcome := GeminiService.GenerateSimilarQuestions(input, backend);
      CompleteGeneration(outcome);
    }
  }

  /** A failure always leaves a non-empty error line. */
  lemma FailureAlwaysShown(e: Thrown)
    ensures Completed(Err(e)).error != ""
    ensures e.NonError? ==> Completed(Err(e)).error == ErrorPrefix + UnknownErrorMessage
  {
    assert |ErrorPrefix| > 0;
  }

  /**
   * With the real service, exactly one output is non-empty after a
   * generation: the service succeeds only with non-empty text, and every
   * failure leaves an error line.
   */
  lemma ServiceLeavesExactlyOneOutput(input: InputContent, backend: GeminiService.Request -> GeminiService.Reply)
    ensures var outcome := GeminiService.GenerateSimilarQuestions(input, backend);
      var s := Completed(outcome);
      && (s.generatedContent != "" <==> outcome.Ok?)
      && (s.error != "" <==> outcome.Err?)
  {
    var outcome := GeminiService.GenerateSimilarQuestions(input, backend);
    if outcome.Err? {
      FailureAlwaysShown(outcome.error);
    }
  }

  /**
   * What the output panel shows: the placeholder before any generation, the
   * spinner while one runs, and after it the error or the result, never the
   * placeholder again since the service succeeds only with text.
   */
  lemma PanelViews(input: InputContent, backend: GeminiService.Request -> GeminiService.Reply)
    ensures OutputPanel.RenderContent(InitialSnapshot.generatedContent, InitialSnapshot.isLoading, InitialSnapshot.error)
         == OutputPanel.PlaceholderView
    ensures OutputPanel.RenderContent(LoadingSnapshot.generatedContent, LoadingSnapshot.isLoading, LoadingSnapshot.error)
         == OutputPanel.LoadingView
    ensures var outcome := GeminiService.GenerateSimilarQuestions(input, backend);
      var s := Completed(outcome);
      var v := OutputPanel.RenderContent(s.generatedContent, s.isLoading, s.error);
      && (outcome.Err? ==> v == OutputPanel.ErrorView(ErrorText(outcome.error)))
      && (outcome.Ok? ==> v.ResultView? && v.blocks == OutputPanel.RenderPlainText(outcome.value))
  {
    ServiceLeavesExactlyOneOutput(input, backend);
  }
}
