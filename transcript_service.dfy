/**
 * The caption service (app/services/transcript.py): the primary yt-dlp
 * provider with the optional transcription backend behind it, the
 * classification of a failure by its message, and the helpers that shape
 * the captions for the endpoints.
 */
module TranscriptService {
  import opened Wrappers
  import opened Text
  import opened Errors
  import opened Captions
  import opened VideoInfo
  import opened YtDlp

  /*
   * Classifying a failure by its message.
   */

  /** The error a failed fetch becomes, decided by keywords of its lower-cased message, in this order. */
  function ClassifyFailure(message: string, videoId: string, preferred: string): AppError {
    var m := Lower(message);
    if Contains(m, "private") || Contains(m, "unavailable") then VideoNotFound(videoId)
    else if Contains(m, "no subtitles") || Contains(m, "no subtitle") then TranscriptNotFound(videoId, preferred)
    else if Contains(m, "disabled") then TranscriptDisabled(videoId)
    else TranscriptNotFound(videoId, preferred)
  }

  /** The `no subtitles` test is subsumed by the `no subtitle` one. */
  lemma NoSubtitlesSubsumed(m: string)
    ensures Contains(m, "no subtitles") ==> Contains(m, "no subtitle")
  {
    if Contains(m, "no subtitles") {
      var i: nat :| i <= |m| && PrefixAt(m, i, "no subtitles");
      assert m[i..i + 11] == m[i..i + 12][..11];
      assert PrefixAt(m, i, "no subtitle");
    }
  }

  /**
   * The three outcomes of the classification and their precedence: a
   * `private`/`unavailable` message is a missing video whatever else it says;
   * `disabled` counts only without those and without `no subtitle`; every
   * other message is a missing transcript in the preferred language.
   */
  lemma ClassificationPrecedence(message: string, videoId: string, preferred: string)
    ensures var m := Lower(message);
      && (ClassifyFailure(message, videoId, preferred) == VideoNotFound(videoId) <==>
            Contains(m, "private") || Contains(m, "unavailable"))
      && (ClassifyFailure(message, videoId, preferred) == TranscriptDisabled(videoId) <==>
            !Contains(m, "private") && !Contains(m, "unavailable") && !Contains(m, "no subtitle") && Contains(m, "disabled"))
      && (ClassifyFailure(message, videoId, preferred) == TranscriptNotFound(videoId, preferred) <==>
            !Contains(m, "private") && !Contains(m, "unavailable") && (Contains(m, "no subtitle") || !Contains(m, "disabled")))
  {
    NoSubtitlesSubsumed(Lower(message));
  }

  /*
   * The two-tier fetch.
   */

  /** The language sent to the transcription backend: the video's own `language` when the probe finds a non-empty one. */
  function DetectedLanguage(probe: Result<Option<string>, string>, preferred: string): string {
    if probe.Ok? && probe.value.Some? && probe.value.value != "" then probe.value.value else preferred
  }

  /**
   * `get_transcript_with_fallback`. The primary provider is the yt-dlp wrapper
   * (its info dict and download); `transcribeApiUrl` is the configured backend
   * address, empty when unset; `probe` is the `language` field of a second info
   * lookup, or its failure; `transcribe` is the backend. `backendCalls` records
   * every request made to the backend.
   */
  method GetTranscriptWithFallback(
    videoId: string, preferred: string, fallbacks: seq<string>,
    info: Result<InfoDict, string>, download: (string, string, bool) -> Result<Json3, string>,
    transcribeApiUrl: string, probe: Result<Option<string>, string>,
    transcribe: (string, string) -> Result<seq<Item>, string>)
    returns (r: Result<(seq<Item>, string), AppError>, backendCalls: seq<(string, string)>)
    ensures var primary := Subtitles(info, videoId, [preferred] + fallbacks, download);
      && (primary.Ok? ==> r == Ok(primary.value) && backendCalls == [])
      && (primary.Err? && transcribeApiUrl == "" ==>
            backendCalls == [] && r == Err(ClassifyFailure(primary.error, videoId, preferred)))
      && (primary.Err? && transcribeApiUrl != "" ==>
            var language := DetectedLanguage(probe, preferred);
            && backendCalls == [(videoId, language)]
            && r == match transcribe(videoId, language)
                    case Ok(entries) => Ok((entries, language))
                    case Err(_) => Err(ClassifyFailure(primary.error, videoId, preferred)))
  {
    backendCalls := [];
    var primary := GetSubtitles(info, videoId, preferred, fallbacks, download);
    if primary.Ok? {
      return Ok(primary.value), backendCalls;
    }
    if transcribeApiUrl != "" {
      var detectedLanguage := preferred;
      if probe.Ok? {
        detectedLanguage := probe.value.GetOr("");
        if detectedLanguage == "" {
          detectedLanguage := preferred;
        }
      }
      backendCalls := backendCalls + [(videoId, detectedLanguage)];
      var secondary := transcribe(videoId, detectedLanguage);
      if secondary.Ok? {
        return Ok((secondary.value, detectedLanguage)), backendCalls;
      }
    }
    r := Err(ClassifyFailure(primary.error, videoId, preferred));
  }

  /**
   * The wrapper's own error for a video without any caption track becomes a
   * missing transcript, except that the video id is part of that message: an id
   * that spells `private` or `unavailable` in any letter case turns it into a
   * missing video.
   */
  lemma NoTracksClassification(
    info: InfoDict, videoId: string, preferred: string, languages: seq<string>,
    download: (string, string, bool) -> Result<Json3, string>)
    requires info.subtitles == [] && info.automaticCaptions == []
    ensures Subtitles(Ok(info), videoId, languages, download) == Err(NO_SUBTITLES + videoId)
    ensures ClassifyFailure(NO_SUBTITLES + videoId, videoId, preferred) ==
      if Contains(Lower(videoId), "private") || Contains(Lower(videoId), "unavailable")
      then VideoNotFound(videoId) else TranscriptNotFound(videoId, preferred)
  {
    ChosenTrackExists(info, videoId, languages);
    WrapperMessageKeywords(videoId);
  }

  /** The keywords the classification finds in the wrapper's no-track message. */
  lemma WrapperMessageKeywords(videoId: string)
    ensures var m := Lower(NO_SUBTITLES + videoId);
      && Contains(m, "no subtitle")
      && (Contains(m, "private") <==> Contains(Lower(videoId), "private"))
      && (Contains(m, "unavailable") <==> Contains(Lower(videoId), "unavailable"))
  {
    var prefix := Lower(NO_SUBTITLES);
    LowerAppend(NO_SUBTITLES, videoId);
    LowerMessagePrefix();
    MessagePrefixKeywords(prefix);
    var m := prefix + Lower(videoId);
    ContainsAfterSeparator(prefix, Lower(videoId), "private");
    ContainsAfterSeparator(prefix, Lower(videoId), "unavailable");
    if Contains(Lower(videoId), "private") {
      ContainsInSuffix(prefix, Lower(videoId), "private");
    }
    if Contains(Lower(videoId), "unavailable") {
      ContainsInSuffix(prefix, Lower(videoId), "unavailable");
    }
    assert m[..11] == prefix[..11];
    assert PrefixAt(m, 0, "no subtitle");
  }

  lemma LowerMessagePrefix()
    ensures Lower(NO_SUBTITLES) == "no subtitles available for video "
  {
  }

  lemma MessagePrefixKeywords(prefix: string)
    requires prefix == "no subtitles available for video "
    ensures prefix[..11] == "no subtitle" && prefix[|prefix| - 1] !in "private" && prefix[|prefix| - 1] !in "unavailable"
    ensures !Contains(prefix, "private") && !Contains(prefix, "unavailable")
  {
    MissingCharNotContained(prefix, "private", 0);
    PrefixLacksUnavailable(prefix);
  }

  lemma PrefixLacksUnavailable(prefix: string)
    requires prefix == "no subtitles available for video "
    ensures !Contains(prefix, "unavailable")
  {
    forall i: nat | i <= |prefix|
      ensures !PrefixAt(prefix, i, "unavailable")
    {
      if i + 11 <= |prefix| {
        assert prefix[i..i + 11][0] == prefix[i];
        assert prefix[i..i + 11][1] == prefix[i + 1];
        assert prefix[i] != 'u' || prefix[i + 1] == 'b';
      }
    }
  }

  /*
   * The language listing.
   */

  /** How a failed listing surfaces: as one of the service's errors, or as the original failure re-raised. */
  datatype ListingFailure = Classified(error: AppError) | Reraised(message: string)

  /** The classification `get_available_languages` applies: only the missing-video and disabled keywords are recognised. */
  function ClassifyListingFailure(message: string, videoId: string): ListingFailure {
    var m := Lower(message);
    if Contains(m, "private") || Contains(m, "unavailable") then Classified(VideoNotFound(videoId))
    else if Contains(m, "disabled") then Classified(TranscriptDisabled(videoId))
    else Reraised(message)
  }

  /**
   * A listing failure is never a missing transcript; it is re-raised unchanged
   * exactly when it has none of the keywords; and whenever it is classified, it
   * gets the error a failed fetch with the same message gets, unless that
   * message also mentions `no subtitle`.
   */
  lemma ListingClassification(message: string, videoId: string, preferred: string)
    ensures ClassifyListingFailure(message, videoId) == Reraised(message) <==>
      var m := Lower(message);
      !Contains(m, "private") && !Contains(m, "unavailable") && !Contains(m, "disabled")
    ensures ClassifyListingFailure(message, videoId).Classified? ==>
      !ClassifyListingFailure(message, videoId).error.TranscriptNotFound? &&
      (!Contains(Lower(message), "no subtitle") ==>
        ClassifyListingFailure(message, videoId).error == ClassifyFailure(message, videoId, preferred))
  {
    ClassificationPrecedence(message, videoId, preferred);
  }

  /** `get_available_languages`, given the wrapper's info dict or its failure. */
  method GetAvailableLanguages(info: Result<InfoDict, string>, videoId: string)
    returns (r: Result<seq<Language>, ListingFailure>)
    ensures info.Ok? ==> r == Ok(Listing(info.value))
    ensures info.Err? ==> r == Err(ClassifyListingFailure(info.error, videoId))
  {
    if info.Err? {
      return Err(ClassifyListingFailure(info.error, videoId));
    }
    var languages := ListAvailableSubtitles(info.value);
    r := Ok(languages);
  }

  /*
   * Shaping the captions.
   */

  /**
   * A caption entry as a provider hands it over: a mapping already in the
   * item shape, or a snippet object whose attributes may be missing.
   */
  datatype RawItem = Mapping(item: Item) | Snippet(text: Option<string>, start: Option<real>, duration: Option<real>)

  /** `_to_dict`: a mapping is kept, a snippet's missing attributes default to `''`, 0 and 0. */
  function ToDict(raw: RawItem): Item {
    match raw
    case Mapping(item) => item
    case Snippet(text, start, duration) => Item(text.GetOr(""), start.GetOr(0.0), duration.GetOr(0.0))
  }

  /** Converting is idempotent, and a snippet with every attribute converts to the mapping with the same values. */
  lemma ToDictNormalises(raw: RawItem, item: Item)
    ensures ToDict(Mapping(ToDict(raw))) == ToDict(raw)
    ensures ToDict(Snippet(Some(item.text), Some(item.start), Some(item.duration))) == ToDict(Mapping(item))
    ensures ToDict(Snippet(None, None, None)) == Item("", 0.0, 0.0)
  {
  }

  function ToDicts(raws: seq<RawItem>): seq<Item> {
    seq(|raws|, i requires 0 <= i < |raws| => ToDict(raws[i]))
  }

  /**
   * `process_transcript_data`: the converted items, one per entry in order,
   * and the total duration, the latest end of any item or 0 without items.
   */
  function ProcessTranscriptData(raws: seq<RawItem>): (r: (seq<Item>, real))
    ensures |r.0| == |raws| && forall i :: 0 <= i < |raws| ==> r.0[i] == ToDict(raws[i])
    ensures raws == [] ==> r.1 == 0.0
    ensures forall i :: 0 <= i < |raws| ==> End(r.0[i]) <= r.1
    ensures raws != [] ==> exists i :: 0 <= i < |raws| && End(r.0[i]) == r.1
  {
    var items := ToDicts(raws);
    (items, TotalDuration(items))
  }

  /** What the video lookup reports: the title and the chapters, `(None, [])` when the lookup fails. */
  datatype VideoDetails = VideoDetails(title: Option<string>, chapters: seq<Chapter>)

  const LOOKUP_FAILED: VideoDetails := VideoDetails(None, [])

  /**
   * `generate_text_output`: plain text (the texts joined by single spaces) or,
   * with chapters requested, the Markdown of the video's chapters, together
   * with the title and whether there are chapters.
   */
  method GenerateTextOutput(transcript: seq<Item>, details: VideoDetails, includeChapters: bool)
    returns (fullText: string, title: Option<string>, hasChapters: bool)
    ensures !includeChapters ==> fullText == Join(Texts(transcript), " ") && title == None && !hasChapters
    ensures includeChapters ==> title == details.title && (hasChapters <==> details.chapters != [])
    ensures includeChapters && details.chapters == [] ==> fullText == Join(Texts(transcript), " ") + "\n"
    ensures includeChapters && details.chapters != [] ==>
      var sorted := SortByStart(details.chapters);
      fullText == Join(SectionLines(sorted, Buckets(sorted, transcript)), "\n")
  {
    title := None;
    hasChapters := false;
    if includeChapters {
      title := details.title;
      var chapters := details.chapters;
      hasChapters := |chapters| > 0;
      fullText := GenerateMarkdown(title, chapters, transcript);
    } else {
      var texts := seq(|transcript|, i requires 0 <= i < |transcript| => ToDict(Mapping(transcript[i])).text);
      TextsInOrder(transcript);
      assert texts == Texts(transcript);
      fullText := Join(texts, " ");
    }
  }
}
