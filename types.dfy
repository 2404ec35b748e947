/** The values shared by the services and the components. */
module Types {

  /**
   * The canonical input of one generation: pasted or extracted text, or an
   * image as its MIME type and base64 data.  `Unrecognized` stands for a
   * runtime value whose `type` tag is neither 'text' nor 'image'; the static
   * type excludes it, but the generation service checks for it.
   */
  datatype InputContent =
    | Text(content: string)
    | Image(mimeType: string, data: string)
    | Unrecognized(typeTag: string)

  /** The two tabs of the input panel. */
  datatype InputMode = Upload | Text

  /** The parts of a browser `File` that the application reads. */
  datatype FileInfo = FileInfo(name: string, mimeType: string, size: nat)

  /**
   * A value caught by a `catch` clause: an `Error` object with its message,
   * or anything else (`e instanceof Error` is false).
   */
  datatype Thrown = ErrorObject(message: string) | NonError

  /** `e instanceof Error ? e.message : fallback`. */
  function MessageOr(e: Thrown, fallback: string): (m: string)
    ensures e.ErrorObject? ==> m == e.message
    ensures e.NonError? ==> m == fallback
  {
    match e
    case ErrorObject(message) => message
    case NonError => fallback
  }
}
