/** Values shared by the server route and the page. */
module Types {

  type Bytes = seq<bv8>

  /** An uploaded file: its name and its raw content. */
  datatype File = File(name: string, content: Bytes)

  /** What a failed step throws: an `Error` carrying a message, or some
      other value (for which `err instanceof Error` is false). */
  datatype Thrown = ErrorValue(message: string) | OtherValue

  /** The outcome of a step that may throw. */
  datatype Attempt<T> = Ok(value: T) | Fail(thrown: Thrown)

  datatype Option<T> = None | Some(value: T)

  /** `err instanceof Error ? err.message : fallback`. */
  function MessageOf(t: Thrown, fallback: string): (m: string)
    ensures t.ErrorValue? ==> m == t.message
    ensures t.OtherValue? ==> m == fallback
  {
    match t
    case ErrorValue(message) => message
    case OtherValue => fallback
  }

  /** One row of the ranking: `{ filename, score, strengths, gaps, summary, error? }`. */
  datatype CandidateResult = CandidateResult(
    filename: string,
    score: int,
    strengths: seq<string>,
    gaps: seq<string>,
    summary: string,
    error: Option<string>)

  /** `result.error` is truthy: present and not the empty string. */
  predicate IsError(r: CandidateResult) {
    r.error.Some? && r.error.value != ""
  }

  /** The error variant: score 0, no strengths, gaps or summary. */
  function ErrorResult(filename: string, message: string): (r: CandidateResult)
    ensures r.filename == filename && r.error == Some(message)
    ensures r.score == 0 && r.strengths == [] && r.gaps == [] && r.summary == ""
  {
    CandidateResult(filename, 0, [], [], "", Some(message))
  }

  /** A multipart form, as the values appended under each of the three keys
      the route reads, in the order they were appended. */
  datatype FormData = FormData(jd: seq<string>, jdFile: seq<File>, cvs: seq<File>)

  const EmptyForm: FormData := FormData([], [], [])
}
