/**
 * The generation service (`generateSimilarQuestions`): the input variant
 * picks the model and the request's shape, the prompt is the template with
 * its `{CONTEXT}` slot replaced by `String.prototype.replace`, and whatever
 * goes wrong after the request is built surfaces as one generic error.  The
 * SDK client is foreign code: the model takes the backend as a function
 * from the request to what the call ends in.
 */
module GeminiService {
  import opened Wrappers
  import opened JsText
  import opened Types

  const TextModel: string := "gemini-3-flash-preview"
  const ImageModel: string := "gemini 2.5 Pro"

  /** The slot the input is substituted into. */
  const Slot: string := "{CONTEXT}"

  /** The context sent with an image, in place of its text (two halves). */
  const ImagePlaceholder: string := "Nội dung được cung cấp " + "trong hình ảnh đính kèm."

  const InvalidInputMessage: string := "Invalid input type"
  const EmptyResponseMessage: string := "Không nhận được nội dung từ AI. Phản hồi có thể đã bị chặn hoặc trống."
  const BackendFailureMessage: string := "Lỗi khi giao tiếp với Gemini API. Vui lòng thử lại sau."

  // ---------------------------------------------------------------------------
  // The prompt template, cut into pieces of 25 characters, each with its own
  // lemma that it holds no `{`; in order, the pieces concatenate to the
  // template's text before and after the slot.
  // ---------------------------------------------------------------------------

  /** Piece `k` of the template's text before the slot. */
  function PrefixPiece(k: int): string {
    match k
    case 0 => "Bạn là một trợ lý AI chuy"
    case 1 => "ên gia dành cho giáo viên"
    case 2 => " Việt Nam. Nhiệm vụ của b"
    case 3 => "ạn là tạo ra một bộ câu h"
    case 4 => "ỏi thi mới có format, độ "
    case 5 => "khó và chủ đề tương tự vớ"
    case 6 => "i đề thi gốc được cung cấ"
    case 7 => "p. Hãy đảm bảo các câu hỏ"
    case 8 => "i mới phải khác biệt, khô"
    case 9 => "ng chỉ là diễn đạt lại câ"
    case 10 => "u chữ từ đề gốc.\n\nDưới đâ"
    case 11 => "y là nội dung đề thi gốc:"
    case 12 => "\n---\n"
    case _ => ""
  }

  /** Piece `k` of the template's text after the slot. */
  function SuffixPiece(k: int): string {
    match k
    case 0 => "\n---\n\nHãy tạo ra một bộ c"
    case 1 => "âu hỏi tương tự dựa trên "
    case 2 => "nội dung trên.\n\nYÊU CẦU C"
    case 3 => "ỰC KỲ QUAN TRỌNG:\n1.  **N"
    case 4 => "gôn ngữ phải là Tiếng Việ"
    case 5 => "t có đầy đủ dấu.** Ví dụ:"
    case 6 => " viết \"Câu 10. Nếu đường "
    case 7 => "thẳng d tiếp xúc với đườn"
    case 8 => "g tròn\" thay vì \"Cau 10. "
    case 9 => "Neu duong thang d tiep xu"
    case 10 => "c voi duong tron\".\n2.  **"
    case 11 => "Đầu ra phải là văn bản th"
    case 12 => "uần túy (plain text).** M"
    case 13 => "ọi công thức toán học phả"
    case 14 => "i được đặt trong dấu `$$`"
    case 15 => ", ví dụ: `$$x^2-2x+1=0$$`"
    case 16 => ".\n3.  **Không sử dụng bất"
    case 17 => " kỳ định dạng Markdown nà"
    case 18 => "o khác** như tiêu đề (`#`"
    case 19 => "), in đậm (`**`), hay dan"
    case 20 => "h sách (`*`, `-`)."
    case _ => ""
  }

  function TemplatePrefixPieces(): seq<string> {
    seq(13, PrefixPiece)
  }

  function TemplateSuffixPieces(): seq<string> {
    seq(21, SuffixPiece)
  }

  /** The template's text before the slot. */
  const TemplatePrefix: string := Concat(TemplatePrefixPieces())

  /** The template's text after the slot. */
  const TemplateSuffix: string := Concat(TemplateSuffixPieces())

  /** `PROMPT_TEMPLATE`: instructions around a single `{CONTEXT}` slot. */
  const Template: string := TemplatePrefix + Slot + TemplateSuffix

  lemma PrefixPiece0HasNoBrace() ensures '{' !in PrefixPiece(0) { }
  lemma PrefixPiece1HasNoBrace() ensures '{' !in PrefixPiece(1) { }
  lemma PrefixPiece2HasNoBrace() ensures '{' !in PrefixPiece(2) { }
  lemma PrefixPiece3HasNoBrace() ensures '{' !in PrefixPiece(3) { }
  lemma PrefixPiece4HasNoBrace() ensures '{' !in PrefixPiece(4) { }
  lemma PrefixPiece5HasNoBrace() ensures '{' !in PrefixPiece(5) { }
  lemma PrefixPiece6HasNoBrace() ensures '{' !in PrefixPiece(6) { }
  lemma PrefixPiece7HasNoBrace() ensures '{' !in PrefixPiece(7) { }
  lemma PrefixPiece8HasNoBrace() ensures '{' !in PrefixPiece(8) { }
  lemma PrefixPiece9HasNoBrace() ensures '{' !in PrefixPiece(9) { }
  lemma PrefixPiece10HasNoBrace() ensures '{' !in PrefixPiece(10) { }
  lemma PrefixPiece11HasNoBrace() ensures '{' !in PrefixPiece(11) { }
  lemma PrefixPiece12HasNoBrace() ensures '{' !in PrefixPiece(12) { }

  lemma SuffixPiece0HasNoBrace() ensures '{' !in SuffixPiece(0) { }
  lemma SuffixPiece1HasNoBrace() ensures '{' !in SuffixPiece(1) { }
  lemma SuffixPiece2HasNoBrace() ensures '{' !in SuffixPiece(2) { }
  lemma SuffixPiece3HasNoBrace() ensures '{' !in SuffixPiece(3) { }
  lemma SuffixPiece4HasNoBrace() ensures '{' !in SuffixPiece(4) { }
  lemma SuffixPiece5HasNoBrace() ensures '{' !in SuffixPiece(5) { }
  lemma SuffixPiece6HasNoBrace() ensures '{' !in SuffixPiece(6) { }
  lemma SuffixPiece7HasNoBrace() ensures '{' !in SuffixPiece(7) { }
  lemma SuffixPiece8HasNoBrace() ensures '{' !in SuffixPiece(8) { }
  lemma SuffixPiece9HasNoBrace() ensures '{' !in SuffixPiece(9) { }
  lemma SuffixPiece10HasNoBrace() ensures '{' !in SuffixPiece(10) { }
  lemma SuffixPiece11HasNoBrace() ensures '{' !in SuffixPiece(11) { }
  lemma SuffixPiece12HasNoBrace() ensures '{' !in SuffixPiece(12) { }
  lemma SuffixPiece13HasNoBrace() ensures '{' !in SuffixPiece(13) { }
  lemma SuffixPiece14HasNoBrace() ensures '{' !in SuffixPiece(14) { }
  lemma SuffixPiece15HasNoBrace() ensures '{' !in SuffixPiece(15) { }
  lemma SuffixPiece16HasNoBrace() ensures '{' !in SuffixPiece(16) { }
  lemma SuffixPiece17HasNoBrace() ensures '{' !in SuffixPiece(17) { }
  lemma SuffixPiece18HasNoBrace() ensures '{' !in SuffixPiece(18) { }
  lemma SuffixPiece19HasNoBrace() ensures '{' !in SuffixPiece(19) { }
  lemma SuffixPiece20HasNoBrace() ensures '{' !in SuffixPiece(20) { }

  lemma PrefixPieceHasNoBrace(k: int)
    ensures '{' !in PrefixPiece(k)
  {
    match k
    case 0 => PrefixPiece0HasNoBrace();
    case 1 => PrefixPiece1HasNoBrace();
    case 2 => PrefixPiece2HasNoBrace();
    case 3 => PrefixPiece3HasNoBrace();
    case 4 => PrefixPiece4HasNoBrace();
    case 5 => PrefixPiece5HasNoBrace();
    case 6 => PrefixPiece6HasNoBrace();
    case 7 => PrefixPiece7HasNoBrace();
    case 8 => PrefixPiece8HasNoBrace();
    case 9 => PrefixPiece9HasNoBrace();
    case 10 => PrefixPiece10HasNoBrace();
    case 11 => PrefixPiece11HasNoBrace();
    case 12 => PrefixPiece12HasNoBrace();
    case _ =>
  }

  lemma SuffixPieceHasNoBrace(k: int)
    ensures '{' !in SuffixPiece(k)
  {
    match k
    case 0 => SuffixPiece0HasNoBrace();
    case 1 => SuffixPiece1HasNoBrace();
    case 2 => SuffixPiece2HasNoBrace();
    case 3 => SuffixPiece3HasNoBrace();
    case 4 => SuffixPiece4HasNoBrace();
    case 5 => SuffixPiece5HasNoBrace();
    case 6 => SuffixPiece6HasNoBrace();
    case 7 => SuffixPiece7HasNoBrace();
    case 8 => SuffixPiece8HasNoBrace();
    case 9 => SuffixPiece9HasNoBrace();
    case 10 => SuffixPiece10HasNoBrace();
    case 11 => SuffixPiece11HasNoBrace();
    case 12 => SuffixPiece12HasNoBrace();
    case 13 => SuffixPiece13HasNoBrace();
    case 14 => SuffixPiece14HasNoBrace();
    case 15 => SuffixPiece15HasNoBrace();
    case 16 => SuffixPiece16HasNoBrace();
    case 17 => SuffixPiece17HasNoBrace();
    case 18 => SuffixPiece18HasNoBrace();
    case 19 => SuffixPiece19HasNoBrace();
    case 20 => SuffixPiece20HasNoBrace();
    case _ =>
  }

  lemma PrefixHasNoBrace()
    ensures '{' !in TemplatePrefix
  {
    forall k | 0 <= k < |TemplatePrefixPieces()| ensures '{' !in TemplatePrefixPieces()[k] {
      PrefixPieceHasNoBrace(k);
    }
    NotInConcat('{', TemplatePrefixPieces());
  }

  lemma SuffixHasNoBrace()
    ensures '{' !in TemplateSuffix
  {
    forall k | 0 <= k < |TemplateSuffixPieces()| ensures '{' !in TemplateSuffixPieces()[k] {
      SuffixPieceHasNoBrace(k);
    }
    NotInConcat('{', TemplateSuffixPieces());
  }

  // ---------------------------------------------------------------------------
  // Filling the slot
  // ---------------------------------------------------------------------------

  /** `template.replace('{CONTEXT}', context)`. */
  function FillSlot(template: string, context: string): (r: string)
    ensures Free(template, Slot) ==> r == template
  {
    ReplaceFirst(template, Slot, context)
  }

  /** `PROMPT_TEMPLATE.replace('{CONTEXT}', context)`. */
  function Prompt(context: string): string {
    FillSlot(Template, context)
  }

  /**
   * When the text before a slot holds no `{`, that slot is the first
   * occurrence: the context's substitution replaces it and nothing else.
   */
  lemma FillFirstSlot(p: string, q: string, context: string)
    requires '{' !in p
    ensures FillSlot(p + Slot + q, context) == p + Substitution(context, p, Slot, q) + q
  {
    var t := p + Slot + q;
    forall j | 0 <= j < |p| ensures t[j] != Slot[0] {
      assert t[j] == p[j];
    }
    NoOccurrenceBefore(t, Slot, |p|);
    ReplaceFirstAt(p, Slot, q, context);
  }

  /** With no `{` on either side, a text holds the slot exactly once. */
  lemma SplitOnSingleSlot(p: string, q: string)
    requires '{' !in p && '{' !in q
    ensures Split(p + Slot + q, Slot) == [p, q]
  {
    var t := p + Slot + q;
    forall j | 0 <= j < |p| ensures t[j] != Slot[0] {
      assert t[j] == p[j];
    }
    NoOccurrenceBefore(t, Slot, |p|);
    assert t[|p|..|p| + |Slot|] == Slot;
    IndexOfIs(t, Slot, |p|);
    assert t[..|p|] == p;
    assert t[|p| + |Slot|..] == q;
    NoOccurrenceBefore(q, Slot, |q|);
    SplitSingle(q, Slot);
  }

  /** `$$` pairs in the context each become one `$`. */
  lemma FillDollarPairs(p: string, q: string, x: string)
    requires '{' !in p && '$' !in x
    ensures FillSlot(p + Slot + q, "$$" + x + "$$") == p + "$" + x + "$" + q
  {
    FillFirstSlot(p, q, "$$" + x + "$$");
    SubstitutionDollarPairs(x, p, Slot, q);
  }

  /** `$&` in the context stands for the matched slot itself. */
  lemma FillMatchPattern(p: string, q: string, a: string, b: string)
    requires '{' !in p && '$' !in a && '$' !in b
    ensures FillSlot(p + Slot + q, a + "$&" + b) == p + a + Slot + b + q
  {
    FillFirstSlot(p, q, a + "$&" + b);
    SubstitutionMatchPattern(a, b, p, Slot, q);
  }

  /** The prompt is the prefix, the substitution of the context, and the suffix. */
  lemma PromptShape(context: string)
    ensures Prompt(context)
         == TemplatePrefix + Substitution(context, TemplatePrefix, Slot, TemplateSuffix) + TemplateSuffix
  {
    PrefixHasNoBrace();
    FillFirstSlot(TemplatePrefix, TemplateSuffix, context);
  }

  /** The template has exactly one slot: splitting on it gives the prefix and the suffix. */
  lemma TemplateHasOneSlot()
    ensures Split(Template, Slot) == [TemplatePrefix, TemplateSuffix]
  {
    PrefixHasNoBrace();
    SuffixHasNoBrace();
    SplitOnSingleSlot(TemplatePrefix, TemplateSuffix);
  }

  /** A context without `$` is inserted verbatim. */
  lemma PromptOfLiteralContext(context: string)
    requires '$' !in context
    ensures Prompt(context) == TemplatePrefix + context + TemplateSuffix
  {
    PromptShape(context);
    SubstitutionLiteral(context, TemplatePrefix, Slot, TemplateSuffix);
  }

  /**
   * `$$` in the context is a replacement pattern for one `$`: a formula
   * `$$x$$` of the uploaded exam reaches the model as `$x$`.
   */
  lemma PromptCollapsesDollarPairs(x: string)
    requires '$' !in x
    ensures Prompt("$$" + x + "$$") == TemplatePrefix + "$" + x + "$" + TemplateSuffix
  {
    PrefixHasNoBrace();
    FillDollarPairs(TemplatePrefix, TemplateSuffix, x);
  }

  /** `$&` in the context is replaced by the slot text: `{CONTEXT}` reaches the model. */
  lemma PromptOfMatchPattern(a: string, b: string)
    requires '$' !in a && '$' !in b
    ensures Prompt(a + "$&" + b) == TemplatePrefix + a + Slot + b + TemplateSuffix
  {
    PrefixHasNoBrace();
    FillMatchPattern(TemplatePrefix, TemplateSuffix, a, b);
  }

  /** The prompt sent with an image: the template with the placeholder in its slot. */
  const ImagePrompt: string := TemplatePrefix + ImagePlaceholder + TemplateSuffix

  /** The image prompt is what `replace` makes of the placeholder. */
  lemma ImagePromptIsFixed()
    ensures Prompt(ImagePlaceholder) == ImagePrompt
  {
    assert '$' !in "Nội dung được cung cấp " && '$' !in "trong hình ảnh đính kèm.";
    PromptOfLiteralContext(ImagePlaceholder);
  }

  // ---------------------------------------------------------------------------
  // Requests and replies
  // ---------------------------------------------------------------------------

  /** One element of a multi-part request. */
  datatype Part = TextPart(text: string) | InlineData(mimeType: string, data: string)

  /** The request's `contents`: a bare prompt string, or a list of parts. */
  datatype Contents = PromptText(prompt: string) | Parts(parts: seq<Part>)

  datatype Request = Request(model: string, contents: Contents)

  /**
   * How `generateContent` ends: a response whose `text` may be absent, or a
   * rejection with what was thrown.
   */
  datatype Reply = Replied(text: Option<string>) | Failed(error: Thrown)

  /** The request built for an input, or the error thrown for an unrecognised one. */
  function BuildRequest(input: InputContent): (r: Result<Request, Thrown>)
    ensures r.Err? <==> input.Unrecognized?
    ensures r.Err? ==> r.error == ErrorObject(InvalidInputMessage)
    ensures input.Text? ==> r == Ok(Request(TextModel, PromptText(Prompt(input.content))))
    ensures input.Image? ==>
      r == Ok(Request(ImageModel, Parts([TextPart(ImagePrompt), InlineData(input.mimeType, input.data)])))
  {
    match input
    case Text(content) => Ok(Request(TextModel, PromptText(Prompt(content))))
    case Image(mimeType, data) =>
      Ok(Request(ImageModel, Parts([TextPart(ImagePrompt), InlineData(mimeType, data)])))
    case Unrecognized(_) => Err(ErrorObject(InvalidInputMessage))
  }

  /** The body of the `try`: a non-empty text is the result, else the empty-response error. */
  function TryReply(reply: Reply): (r: Result<string, Thrown>)
    ensures r.Ok? <==> reply.Replied? && reply.text.Some? && reply.text.value != ""
    ensures r.Ok? ==> r.value == reply.text.value
    ensures reply.Replied? && !r.Ok? ==> r == Err(ErrorObject(EmptyResponseMessage))
    ensures reply.Failed? ==> r == Err(reply.error)
  {
    match reply
    case Failed(e) => Err(e)
    case Replied(text) =>
      if text.Some? && text.value != "" then Ok(text.value)
      else Err(ErrorObject(EmptyResponseMessage))
  }

  /** The `catch`: every error of the `try` is replaced by the generic one. */
  function ClassifyReply(reply: Reply): (r: Result<string, Thrown>)
    ensures r.Ok? <==> TryReply(reply).Ok?
    ensures r.Ok? ==> r == TryReply(reply)
    ensures r.Err? ==> r.error == ErrorObject(BackendFailureMessage)
  {
    match TryReply(reply)
    case Ok(text) => Ok(text)
    case Err(_) => Err(ErrorObject(BackendFailureMessage))
  }

  /** `generateSimilarQuestions(input)`, with `backend` standing for the SDK call. */
  function GenerateSimilarQuestions(input: InputContent, backend: Request -> Reply): (r: Result<string, Thrown>)
    ensures input.Unrecognized? ==> r == Err(ErrorObject(InvalidInputMessage))
    ensures !input.Unrecognized? ==> r == ClassifyReply(backend(BuildRequest(input).value))
  {
    match BuildRequest(input)
    case Err(e) => Err(e)
    case Ok(request) => ClassifyReply(backend(request))
  }

  /** A text input without `$` is sent to the text model as the filled template. */
  lemma TextRequest(content: string)
    requires '$' !in content
    ensures BuildRequest(InputContent.Text(content))
         == Ok(Request(TextModel, PromptText(TemplatePrefix + content + TemplateSuffix)))
  {
    PromptOfLiteralContext(content);
  }

  /**
   * An image input goes to the image model as exactly two parts: first the
   * prompt `replace` makes of the placeholder, the same for every image, then
   * the image's MIME type and data unchanged.
   */
  lemma ImageRequest(mimeType: string, data: string)
    ensures var r := BuildRequest(Image(mimeType, data));
      && r.Ok? && r.value.model == ImageModel && r.value.contents.Parts?
      && |r.value.contents.parts| == 2
      && r.value.contents.parts[0] == TextPart(Prompt(ImagePlaceholder))
      && r.value.contents.parts[1] == InlineData(mimeType, data)
  {
    ImagePromptIsFixed();
  }

  /** A non-empty response text is returned unchanged. */
  lemma ReplyTextReturned(input: InputContent, backend: Request -> Reply, text: string)
    requires !input.Unrecognized?
    requires backend(BuildRequest(input).value) == Replied(Some(text)) && text != ""
    ensures GenerateSimilarQuestions(input, backend) == Ok(text)
  {
  }

  /**
   * An absent or empty response text and a failed call end in the same
   * generic error: the empty-response message never reaches the caller.
   */
  lemma EmptyReplyLikeFailure(input: InputContent, backend: Request -> Reply)
    requires !input.Unrecognized?
    requires var reply := backend(BuildRequest(input).value);
      reply.Failed? || reply.text.None? || reply.text.value == ""
    ensures GenerateSimilarQuestions(input, backend) == Err(ErrorObject(BackendFailureMessage))
  {
  }

  /** Whatever the backend does, the caller never sees the empty-response message. */
  lemma EmptyResponseMessageHidden(input: InputContent, backend: Request -> Reply)
    ensures GenerateSimilarQuestions(input, backend) != Err(ErrorObject(EmptyResponseMessage))
  {
    assert |InvalidInputMessage| < |EmptyResponseMessage|;
    assert |BackendFailureMessage| < |EmptyResponseMessage|;
  }

  /**
   * An unrecognised input is rejected before the backend is called, whatever
   * it would answer, and its error is not replaced by the generic one.
   */
  lemma InvalidInputNotRewrapped(typeTag: string, b1: Request -> Reply, b2: Request -> Reply)
    ensures GenerateSimilarQuestions(Unrecognized(typeTag), b1)
         == GenerateSimilarQuestions(Unrecognized(typeTag), b2)
         == Err(ErrorObject(InvalidInputMessage))
    ensures InvalidInputMessage != BackendFailureMessage
  {
    assert |InvalidInputMessage| < |BackendFailureMessage|;
  }
}
