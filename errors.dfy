/** The caller-facing error kinds of the service (the exception classes of app/exceptions.py). */
module Errors {

  /** Why a submitted URL was refused; every one of these is a 400 response. */
  datatype UrlProblem =
    | MissingUrl                        // empty input
    | NotYoutubeUrl                     // neither `youtube.com` nor `youtu.be` in it
    | UnextractableUrl(url: string)     // no extractor tier found an id
    | MalformedVideoId(videoId: string) // the extracted id is not 11 id characters

  datatype AppError =
    | InvalidUrl(problem: UrlProblem)
    | TranscriptNotFound(videoId: string, language: string)
    | TranscriptDisabled(videoId: string)
    | VideoNotFound(videoId: string)
    | Internal(detail: string)          // anything that reaches the generic 500 handler
}
