/**
 * The transcript endpoints (app/routers/transcript.py): the per-language
 * fallback over the transcript library, and the two endpoints that shape its
 * result and map the library's exceptions to the service's errors.
 */
module TranscriptRouter {
  import opened Wrappers
  import opened Text
  import opened Errors
  import opened Captions
  import Dependencies

  /** The exceptions the transcript library raises, the ones the endpoints name and any other. */
  datatype LibraryError =
    | TranscriptsDisabled
    | NoTranscriptFound
    | VideoUnavailable
    | OtherFailure(message: string)

  /** A transcript the library lists: its language code and what fetching it yields. */
  datatype ListedTranscript = ListedTranscript(languageCode: string, fetched: Result<seq<Item>, LibraryError>)

  /** How the fallback ends without a transcript: a library exception escaping, or the service's own error. */
  datatype Failure = Escaped(cause: LibraryError) | Raised(error: AppError)

  /**
   * The outcome of the per-language loop and the listing fallback after it, for
   * the languages still to try. `fetch(language)` is the library's answer for
   * one language; `listing` is the library's transcript list, or its failure.
   */
  function Fallback(
    videoId: string, preferred: string, languages: seq<string>,
    fetch: string -> Result<seq<Item>, LibraryError>,
    listing: Result<seq<ListedTranscript>, LibraryError>): Result<(seq<Item>, string), Failure>
  {
    if languages != [] then
      match fetch(languages[0])
      case Ok(items) => Ok((items, languages[0]))
      case Err(NoTranscriptFound) => Fallback(videoId, preferred, languages[1..], fetch, listing)
      case Err(e) => Err(Escaped(e))
    else if listing.Ok? && listing.value != [] && listing.value[0].fetched.Ok? then
      Ok((listing.value[0].fetched.value, listing.value[0].languageCode))
    else
      Err(Raised(TranscriptNotFound(videoId, preferred)))
  }

  /**
   * `get_transcript_with_fallback` of the router. `tried` lists the languages
   * it asked the library for, in order.
   */
  method GetTranscriptWithFallback(
    videoId: string, preferred: string, fallbacks: seq<string>,
    fetch: string -> Result<seq<Item>, LibraryError>,
    listing: Result<seq<ListedTranscript>, LibraryError>)
    returns (r: Result<(seq<Item>, string), Failure>, tried: seq<string>)
    ensures r == Fallback(videoId, preferred, [preferred] + fallbacks, fetch, listing)
    ensures tried <= [preferred] + fallbacks
    ensures forall i :: 0 <= i < |tried| - 1 ==> fetch(tried[i]) == Err(NoTranscriptFound)
    ensures |tried| < |[preferred] + fallbacks| ==> tried != [] && fetch(tried[|tried| - 1]) != Err(NoTranscriptFound)
  {
    var languagesToTry := [preferred] + fallbacks;
    tried := [];
    for k := 0 to |languagesToTry|
      invariant tried == languagesToTry[..k]
      invariant forall i :: 0 <= i < k ==> fetch(languagesToTry[i]) == Err(NoTranscriptFound)
      invariant Fallback(videoId, preferred, languagesToTry, fetch, listing) ==
                Fallback(videoId, preferred, languagesToTry[k..], fetch, listing)
    {
      var language := languagesToTry[k];
      tried := tried + [language];
      assert languagesToTry[k..][1..] == languagesToTry[k + 1..];
      var attempt := fetch(language);
      if attempt.Ok? {
        return Ok((attempt.value, language)), tried;
      } else if attempt.error != NoTranscriptFound {
        return Err(Escaped(attempt.error)), tried;
      }
    }
    if listing.Ok? && listing.value != [] {
      var first := listing.value[0];
      if first.fetched.Ok? {
        return Ok((first.fetched.value, first.languageCode)), tried;
      }
    }
    r := Err(Raised(TranscriptNotFound(videoId, preferred)));
  }

  /**
   * The first language whose fetch does not report a missing transcript
   * decides: its transcript is returned with it, or its exception escapes.
   */
  lemma {:induction false} FirstAnswerDecides(
    videoId: string, preferred: string, languages: seq<string>,
    fetch: string -> Result<seq<Item>, LibraryError>,
    listing: Result<seq<ListedTranscript>, LibraryError>, i: nat)
    requires i < |languages|
    requires forall j :: 0 <= j < i ==> fetch(languages[j]) == Err(NoTranscriptFound)
    requires fetch(languages[i]) != Err(NoTranscriptFound)
    ensures Fallback(videoId, preferred, languages, fetch, listing) ==
      match fetch(languages[i])
      case Ok(items) => Ok((items, languages[i]))
      case Err(e) => Err(Escaped(e))
    decreases i
  {
    if i > 0 {
      FirstAnswerDecides(videoId, preferred, languages[1..], fetch, listing, i - 1);
    }
  }

  /**
   * When every language reports a missing transcript, the first listed
   * transcript is returned with its code; an empty or failed listing, or a
   * failed fetch of that transcript, is a missing transcript in the preferred language.
   */
  lemma {:induction false} AllMissingUsesListing(
    videoId: string, preferred: string, languages: seq<string>,
    fetch: string -> Result<seq<Item>, LibraryError>,
    listing: Result<seq<ListedTranscript>, LibraryError>)
    requires forall j :: 0 <= j < |languages| ==> fetch(languages[j]) == Err(NoTranscriptFound)
    ensures Fallback(videoId, preferred, languages, fetch, listing) ==
      if listing.Ok? && listing.value != [] && listing.value[0].fetched.Ok?
      then Ok((listing.value[0].fetched.value, listing.value[0].languageCode))
      else Err(Raised(TranscriptNotFound(videoId, preferred)))
    decreases |languages|
  {
    if languages != [] {
      AllMissingUsesListing(videoId, preferred, languages[1..], fetch, listing);
    }
  }

  /**
   * `NoTranscriptFound` never leaves the fallback: it either advances the loop
   * or is absorbed by the listing step. A returned language is a tried one or
   * the code of the first listed transcript.
   */
  lemma {:induction false} FallbackOutcomes(
    videoId: string, preferred: string, languages: seq<string>,
    fetch: string -> Result<seq<Item>, LibraryError>,
    listing: Result<seq<ListedTranscript>, LibraryError>)
    ensures Fallback(videoId, preferred, languages, fetch, listing) != Err(Escaped(NoTranscriptFound))
    ensures Fallback(videoId, preferred, languages, fetch, listing).Ok? ==>
      var language := Fallback(videoId, preferred, languages, fetch, listing).value.1;
      language in languages || (listing.Ok? && listing.value != [] && language == listing.value[0].languageCode)
    ensures Fallback(videoId, preferred, languages, fetch, listing).Err? &&
            Fallback(videoId, preferred, languages, fetch, listing).error.Raised? ==>
      Fallback(videoId, preferred, languages, fetch, listing).error.error == TranscriptNotFound(videoId, preferred)
    decreases |languages|
  {
    if languages != [] {
      FallbackOutcomes(videoId, preferred, languages[1..], fetch, listing);
    }
  }

  /*
   * The endpoints.
   */

  /** The settings the endpoints read. */
  datatype Settings = Settings(defaultLanguage: string, fallbackLanguages: seq<string>)

  /** A request: the URL and the optional language. */
  datatype TranscriptRequest = TranscriptRequest(youtubeUrl: string, language: Option<string>)

  datatype TranscriptResponse = TranscriptResponse(
    videoId: string, language: string, transcript: seq<Item>, totalItems: nat, duration: real)

  datatype TranscriptTextResponse = TranscriptTextResponse(videoId: string, language: string, text: string)

  /** The language asked for: the request's when it is a non-empty string, else the configured default. */
  function TargetLanguage(request: TranscriptRequest, settings: Settings): (language: string)
    ensures request.language.Some? && request.language.value != [] ==> language == request.language.value
    ensures request.language.None? || request.language.value == [] ==> language == settings.defaultLanguage
  {
    if request.language.Some? && request.language.value != [] then request.language.value else settings.defaultLanguage
  }

  /**
   * The error an endpoint answers with for a failure of the fallback: the three
   * named library exceptions map to the service's errors, the service's own
   * error passes through, and any other exception reaches the generic handler.
   */
  function EndpointError(failure: Failure, videoId: string, target: string): AppError {
    match failure
    case Raised(error) => error
    case Escaped(TranscriptsDisabled) => TranscriptDisabled(videoId)
    case Escaped(VideoUnavailable) => VideoNotFound(videoId)
    case Escaped(NoTranscriptFound) => TranscriptNotFound(videoId, target)
    case Escaped(OtherFailure(message)) => Internal(message)
  }

  /** The endpoints answer every failure of the fallback for the target language with an error about that video. */
  lemma EndpointErrorsAboutVideo(
    videoId: string, target: string, languages: seq<string>,
    fetch: string -> Result<seq<Item>, LibraryError>,
    listing: Result<seq<ListedTranscript>, LibraryError>)
    ensures var r := Fallback(videoId, target, languages, fetch, listing);
      r.Err? ==>
        var e := EndpointError(r.error, videoId, target);
        e == TranscriptDisabled(videoId) || e == VideoNotFound(videoId) ||
        e == TranscriptNotFound(videoId, target) || (e.Internal? && r.error.Escaped? && r.error.cause.OtherFailure?)
  {
    FallbackOutcomes(videoId, target, languages, fetch, listing);
  }

  /**
   * The `POST /transcript/` endpoint: the validated video id, the transcript
   * of the language the fallback settled on, its item count and its duration.
   */
  method GetTranscript(
    request: TranscriptRequest, settings: Settings,
    fetch: string -> Result<seq<Item>, LibraryError>,
    listing: Result<seq<ListedTranscript>, LibraryError>)
    returns (r: Result<TranscriptResponse, AppError>)
    ensures Dependencies.ValidateYoutubeUrl(request.youtubeUrl).Err? ==>
      r == Err(Dependencies.ValidateYoutubeUrl(request.youtubeUrl).error)
    ensures Dependencies.ValidateYoutubeUrl(request.youtubeUrl).Ok? ==>
      var videoId := Dependencies.ValidateYoutubeUrl(request.youtubeUrl).value;
      var target := TargetLanguage(request, settings);
      var outcome := Fallback(videoId, target, [target] + settings.fallbackLanguages, fetch, listing);
      && (outcome.Err? ==> r == Err(EndpointError(outcome.error, videoId, target)))
      && (outcome.Ok? ==> r.Ok? && r.value.videoId == videoId && r.value.language == outcome.value.1 &&
                          r.value.transcript == outcome.value.0)
    ensures r.Ok? ==> ConsistentResponse(r.value)
  {
    var validated := Dependencies.ValidateYoutubeUrl(request.youtubeUrl);
    if validated.Err? {
      return Err(validated.error);
    }
    r := RespondWithTranscript(validated.value, TargetLanguage(request, settings), settings.fallbackLanguages, fetch, listing);
  }

  /**
   * A response's count is the number of its items, and its duration is the
   * latest end of an item (0.0 for no items).
   */
  predicate ConsistentResponse(response: TranscriptResponse) {
    var items := response.transcript;
    && response.totalItems == |items|
    && (items == [] ==> response.duration == 0.0)
    && (forall i :: 0 <= i < |items| ==> End(items[i]) <= response.duration)
    && (items != [] ==> exists i :: 0 <= i < |items| && End(items[i]) == response.duration)
  }

  /** The transcript endpoint once the video id is known: the fallback's outcome, with the item count and the duration. */
  method RespondWithTranscript(
    videoId: string, target: string, fallbacks: seq<string>,
    fetch: string -> Result<seq<Item>, LibraryError>,
    listing: Result<seq<ListedTranscript>, LibraryError>)
    returns (r: Result<TranscriptResponse, AppError>)
    ensures var outcome := Fallback(videoId, target, [target] + fallbacks, fetch, listing);
      && (outcome.Err? ==> r == Err(EndpointError(outcome.error, videoId, target)))
      && (outcome.Ok? ==> r.Ok? && r.value.videoId == videoId && r.value.language == outcome.value.1 &&
                          r.value.transcript == outcome.value.0)
    ensures r.Ok? ==> ConsistentResponse(r.value)
  {
    var outcome, _ := GetTranscriptWithFallback(videoId, target, fallbacks, fetch, listing);
    if outcome.Err? {
      return Err(EndpointError(outcome.error, videoId, target));
    }
    var (transcript, actualLanguage) := outcome.value;
    var totalDuration := TotalDuration(transcript);
    r := Ok(TranscriptResponse(videoId, actualLanguage, transcript, |transcript|, totalDuration));
  }

  /** The `POST /transcript/text` endpoint: the texts joined by single spaces, in order. */
  method GetTranscriptText(
    request: TranscriptRequest, settings: Settings,
    fetch: string -> Result<seq<Item>, LibraryError>,
    listing: Result<seq<ListedTranscript>, LibraryError>)
    returns (r: Result<TranscriptTextResponse, AppError>)
    ensures Dependencies.ValidateYoutubeUrl(request.youtubeUrl).Err? ==>
      r == Err(Dependencies.ValidateYoutubeUrl(request.youtubeUrl).error)
    ensures Dependencies.ValidateYoutubeUrl(request.youtubeUrl).Ok? ==>
      var videoId := Dependencies.ValidateYoutubeUrl(request.youtubeUrl).value;
      var target := TargetLanguage(request, settings);
      var outcome := Fallback(videoId, target, [target] + settings.fallbackLanguages, fetch, listing);
      && (outcome.Err? ==> r == Err(EndpointError(outcome.error, videoId, target)))
      && (outcome.Ok? ==> r == Ok(TranscriptTextResponse(videoId, outcome.value.1, Join(Texts(outcome.value.0), " "))))
  {
    var validated := Dependencies.ValidateYoutubeUrl(request.youtubeUrl);
    if validated.Err? {
      return Err(validated.error);
    }
    var videoId := validated.value;
    var target := TargetLanguage(request, settings);
    var outcome, _ := GetTranscriptWithFallback(videoId, target, settings.fallbackLanguages, fetch, listing);
    if outcome.Err? {
      return Err(EndpointError(outcome.error, videoId, target));
    }
    var (transcript, actualLanguage) := outcome.value;
    r := Ok(TranscriptTextResponse(videoId, actualLanguage, JoinTexts(transcript)));
  }

  /** The text is the transcript's texts in order, one space between neighbours. */
  lemma TextEndpointJoin(items: seq<Item>, more: seq<Item>)
    ensures JoinTexts(items) == Join(Texts(items), " ")
    ensures items != [] && more != [] ==> JoinTexts(items + more) == JoinTexts(items) + " " + JoinTexts(more)
  {
    if items != [] && more != [] {
      TextsAppend(items, more);
      JoinAppend(Texts(items), Texts(more), " ");
    }
  }
}
