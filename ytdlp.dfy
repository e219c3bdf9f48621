/**
 * The caption logic of the yt-dlp wrapper (app/services/yt_dlp_wrapper.py):
 * the language listing, the choice of a caption track, and the normalisation
 * of a downloaded json3 caption file. The info dict and the download are inputs.
 */
module YtDlp {
  import opened Wrappers
  import opened Text
  import opened Captions

  /**
   * What the wrapper reads from yt-dlp's info dict: the language keys of
   * `subtitles` (uploaded tracks) and of `automatic_captions` (generated
   * tracks), in dictionary order. A missing table is an empty one.
   */
  datatype InfoDict = InfoDict(subtitles: seq<string>, automaticCaptions: seq<string>)

  /** One entry of the language listing. */
  datatype Language = Language(code: string, name: string, isGenerated: bool, isTranslatable: bool)

  predicate Distinct<T(==)>(s: seq<T>) {
    forall i, j :: 0 <= i < j < |s| ==> s[i] != s[j]
  }

  /*
   * The language listing.
   */

  function Codes(languages: seq<Language>): (codes: seq<string>)
    ensures |codes| == |languages|
    ensures forall i :: 0 <= i < |languages| ==> codes[i] == languages[i].code
  {
    seq(|languages|, i requires 0 <= i < |languages| => languages[i].code)
  }

  /** An entry for an uploaded track: `name` repeats the code, and it is not generated. */
  function Uploaded(codes: seq<string>): seq<Language> {
    seq(|codes|, i requires 0 <= i < |codes| => Language(codes[i], codes[i], false, true))
  }

  /** An entry for a generated track. */
  function Generated(codes: seq<string>): seq<Language> {
    seq(|codes|, i requires 0 <= i < |codes| => Language(codes[i], codes[i], true, true))
  }

  /** The generated codes, in order, that are neither uploaded codes nor repeats of an earlier one. */
  function AddedCodes(automatic: seq<string>, uploaded: seq<string>): seq<string> {
    if automatic == [] then []
    else
      var prior := AddedCodes(automatic[..|automatic| - 1], uploaded);
      var code := automatic[|automatic| - 1];
      if code in uploaded + prior then prior else prior + [code]
  }

  /** The listing the wrapper returns: every uploaded track, then the generated ones not yet listed. */
  function Listing(info: InfoDict): seq<Language> {
    Uploaded(info.subtitles) + Generated(AddedCodes(info.automaticCaptions, info.subtitles))
  }

  /** `any(l['code'] == code for l in languages)`. */
  predicate Listed(languages: seq<Language>, code: string) {
    exists i :: 0 <= i < |languages| && languages[i].code == code
  }

  lemma ListedCodes(languages: seq<Language>, code: string)
    ensures Listed(languages, code) <==> code in Codes(languages)
  {
    if code in Codes(languages) {
      var i :| 0 <= i < |languages| && Codes(languages)[i] == code;
    }
  }

  lemma CodesOfEntries(uploaded: seq<string>, generated: seq<string>)
    ensures Codes(Uploaded(uploaded) + Generated(generated)) == uploaded + generated
  {
  }

  /** `list_available_subtitles`, given the info dict. */
  method ListAvailableSubtitles(info: InfoDict) returns (languages: seq<Language>)
    ensures languages == Listing(info)
  {
    var subtitles := info.subtitles;
    var automaticCaptions := info.automaticCaptions;
    languages := [];
    for i := 0 to |subtitles|
      invariant languages == Uploaded(subtitles[..i])
    {
      languages := languages + [Language(subtitles[i], subtitles[i], false, true)];
    }
    assert subtitles[..|subtitles|] == subtitles;
    for i := 0 to |automaticCaptions|
      invariant languages == Uploaded(subtitles) + Generated(AddedCodes(automaticCaptions[..i], subtitles))
    {
      var code := automaticCaptions[i];
      ghost var prior := AddedCodes(automaticCaptions[..i], subtitles);
      assert automaticCaptions[..i + 1][..i] == automaticCaptions[..i];
      CodesOfEntries(subtitles, prior);
      ListedCodes(languages, code);
      if !Listed(languages, code) {
        languages := languages + [Language(code, code, true, true)];
      }
    }
    assert automaticCaptions[..|automaticCaptions|] == automaticCaptions;
  }

  lemma {:induction false} AddedCodesMembers(automatic: seq<string>, uploaded: seq<string>)
    ensures forall c :: c in AddedCodes(automatic, uploaded) <==> c in automatic && c !in uploaded
    ensures Distinct(AddedCodes(automatic, uploaded))
    decreases |automatic|
  {
    if automatic != [] {
      var front := automatic[..|automatic| - 1];
      AddedCodesMembers(front, uploaded);
      assert automatic == front + [automatic[|automatic| - 1]];
    }
  }

  /** Generated codes met earlier keep their place: the listing of a prefix is a prefix of the listing. */
  lemma {:induction false} AddedCodesPrefix(automatic: seq<string>, uploaded: seq<string>, k: nat)
    requires k <= |automatic|
    ensures AddedCodes(automatic[..k], uploaded) <= AddedCodes(automatic, uploaded)
    decreases |automatic|
  {
    if k < |automatic| {
      var front := automatic[..|automatic| - 1];
      assert front[..k] == automatic[..k];
      AddedCodesPrefix(front, uploaded, k);
    } else {
      assert automatic[..k] == automatic;
    }
  }

  /**
   * The shape of the listing: the uploaded tracks come first, in order, marked
   * not generated; after them only generated codes that are not uploaded; every
   * entry is named by its code and is translatable.
   */
  lemma ListingShape(info: InfoDict)
    ensures |Listing(info)| >= |info.subtitles|
    ensures forall i :: 0 <= i < |info.subtitles| ==> Listing(info)[i].code == info.subtitles[i]
    ensures forall i :: 0 <= i < |Listing(info)| ==> (Listing(info)[i].isGenerated <==> i >= |info.subtitles|)
    ensures forall i :: |info.subtitles| <= i < |Listing(info)| ==>
      Listing(info)[i].code in info.automaticCaptions && Listing(info)[i].code !in info.subtitles
    ensures forall i :: 0 <= i < |Listing(info)| ==>
      Listing(info)[i].name == Listing(info)[i].code && Listing(info)[i].isTranslatable
  {
    var added := AddedCodes(info.automaticCaptions, info.subtitles);
    AddedCodesMembers(info.automaticCaptions, info.subtitles);
    forall i | |info.subtitles| <= i < |Listing(info)|
      ensures Listing(info)[i].code in info.automaticCaptions && Listing(info)[i].code !in info.subtitles
    {
      assert Listing(info)[i].code == added[i - |info.subtitles|];
    }
  }

  /** A code is listed exactly when it names an uploaded or a generated track. */
  lemma ListingCovers(info: InfoDict)
    ensures forall c :: c in Codes(Listing(info)) <==> c in info.subtitles || c in info.automaticCaptions
  {
    var added := AddedCodes(info.automaticCaptions, info.subtitles);
    AddedCodesMembers(info.automaticCaptions, info.subtitles);
    CodesOfEntries(info.subtitles, added);
  }

  /** With distinct uploaded keys (as in a dictionary), no code is listed twice. */
  lemma ListingDistinct(info: InfoDict)
    requires Distinct(info.subtitles)
    ensures Distinct(Codes(Listing(info)))
  {
    var added := AddedCodes(info.automaticCaptions, info.subtitles);
    AddedCodesMembers(info.automaticCaptions, info.subtitles);
    CodesOfEntries(info.subtitles, added);
    var codes := info.subtitles + added;
    forall i, j | 0 <= i < j < |codes|
      ensures codes[i] != codes[j]
    {
      if j >= |info.subtitles| && i < |info.subtitles| {
        assert codes[j] == added[j - |info.subtitles|];
        assert codes[j] !in info.subtitles;
      }
    }
  }

  /*
   * Choosing the caption track.
   */

  /** The track chosen: a language key and whether it is a generated one. */
  datatype Track = Track(language: string, isAuto: bool)

  const NO_SUBTITLES: string := "No subtitles available for video "

  /** The first requested language with a track, the uploaded one preferred. */
  function FirstAvailable(languages: seq<string>, info: InfoDict): Option<Track> {
    if languages == [] then None
    else if languages[0] in info.subtitles then Some(Track(languages[0], false))
    else if languages[0] in info.automaticCaptions then Some(Track(languages[0], true))
    else FirstAvailable(languages[1..], info)
  }

  /** The track `get_subtitles` downloads for the languages tried, or its error message. */
  function ChooseTrack(info: InfoDict, videoId: string, languages: seq<string>): Result<Track, string> {
    match FirstAvailable(languages, info)
    case Some(track) => Ok(track)
    case None =>
      if info.subtitles != [] then Ok(Track(info.subtitles[0], false))
      else if info.automaticCaptions != [] then Ok(Track(info.automaticCaptions[0], true))
      else Err(NO_SUBTITLES + videoId)
  }

  /** The selection part of `get_subtitles`. */
  method SelectTrack(info: InfoDict, videoId: string, preferred: string, fallbacks: seq<string>)
    returns (r: Result<Track, string>)
    ensures r == ChooseTrack(info, videoId, [preferred] + fallbacks)
  {
    var languagesToTry := [preferred] + fallbacks;
    var subtitles := info.subtitles;
    var automaticCaptions := info.automaticCaptions;
    var selected: Option<string> := None;
    var isAuto := false;
    var i := 0;
    while i < |languagesToTry|
      invariant 0 <= i <= |languagesToTry|
      invariant selected.None? ==> !isAuto
      invariant selected.None? ==> FirstAvailable(languagesToTry, info) == FirstAvailable(languagesToTry[i..], info)
      invariant selected.Some? ==> FirstAvailable(languagesToTry, info) == Some(Track(selected.value, isAuto))
    {
      var lang := languagesToTry[i];
      assert languagesToTry[i..][1..] == languagesToTry[i + 1..];
      if lang in subtitles {
        selected := Some(lang);
        break;
      } else if lang in automaticCaptions {
        selected := Some(lang);
        isAuto := true;
        break;
      }
      i := i + 1;
    }
    if selected.None? {
      if subtitles != [] {
        selected := Some(subtitles[0]);
      } else if automaticCaptions != [] {
        selected := Some(automaticCaptions[0]);
        isAuto := true;
      } else {
        return Err(NO_SUBTITLES + videoId);
      }
    }
    r := Ok(Track(selected.value, isAuto));
  }

  /**
   * The earliest requested language that has any track decides, and its
   * uploaded track is preferred to its generated one; a later language is
   * never reached, even when it has an uploaded track.
   */
  lemma {:induction false} EarliestAvailableWins(info: InfoDict, videoId: string, languages: seq<string>, i: nat)
    requires i < |languages|
    requires languages[i] in info.subtitles || languages[i] in info.automaticCaptions
    requires forall j :: 0 <= j < i ==> languages[j] !in info.subtitles && languages[j] !in info.automaticCaptions
    ensures ChooseTrack(info, videoId, languages) == Ok(Track(languages[i], languages[i] !in info.subtitles))
    ensures FirstAvailable(languages, info) == Some(Track(languages[i], languages[i] !in info.subtitles))
    decreases i
  {
    if i > 0 {
      EarliestAvailableWins(info, videoId, languages[1..], i - 1);
    }
  }

  /** When no requested language has a track, the first uploaded key is taken, else the first generated key, else the error. */
  lemma {:induction false} NothingRequestedAvailable(info: InfoDict, videoId: string, languages: seq<string>)
    requires forall j :: 0 <= j < |languages| ==> languages[j] !in info.subtitles && languages[j] !in info.automaticCaptions
    ensures info.subtitles != [] ==> ChooseTrack(info, videoId, languages) == Ok(Track(info.subtitles[0], false))
    ensures info.subtitles == [] && info.automaticCaptions != [] ==>
      ChooseTrack(info, videoId, languages) == Ok(Track(info.automaticCaptions[0], true))
    ensures info.subtitles == [] && info.automaticCaptions == [] ==>
      ChooseTrack(info, videoId, languages) == Err(NO_SUBTITLES + videoId)
    decreases |languages|
  {
    if languages != [] {
      NothingRequestedAvailable(info, videoId, languages[1..]);
    }
  }

  lemma {:induction false} FirstAvailableSound(languages: seq<string>, info: InfoDict)
    ensures FirstAvailable(languages, info).Some? ==>
      var t := FirstAvailable(languages, info).value;
      t.language in languages &&
      (t.isAuto ==> t.language in info.automaticCaptions && t.language !in info.subtitles) &&
      (!t.isAuto ==> t.language in info.subtitles)
    decreases |languages|
  {
    if languages != [] {
      FirstAvailableSound(languages[1..], info);
    }
  }

  /**
   * The chosen key exists in the table its flag names, and a generated track is
   * chosen only when the language has no uploaded one; the only error is the
   * absence of every track, and a language that was not requested is the first
   * key of a table.
   */
  lemma ChosenTrackExists(info: InfoDict, videoId: string, languages: seq<string>)
    ensures ChooseTrack(info, videoId, languages).Err? <==> info.subtitles == [] && info.automaticCaptions == []
    ensures ChooseTrack(info, videoId, languages).Err? ==> ChooseTrack(info, videoId, languages).error == NO_SUBTITLES + videoId
    ensures ChooseTrack(info, videoId, languages).Ok? ==>
      var t := ChooseTrack(info, videoId, languages).value;
      (t.isAuto <==> t.language !in info.subtitles) &&
      (t.isAuto ==> t.language in info.automaticCaptions) &&
      (t.language !in languages ==>
        if info.subtitles != [] then t.language == info.subtitles[0] else t.language == info.automaticCaptions[0])
  {
    FirstAvailableSound(languages, info);
  }

  /*
   * The json3 caption file.
   */

  /** A json3 segment: its `utf8` text, when present. */
  datatype Segment = Segment(utf8: Option<string>)

  /** A json3 event: its segments and its start and length in milliseconds, when present. */
  datatype Event = Event(segs: seq<Segment>, tStartMs: Option<int>, dDurationMs: Option<int>)

  /** A json3 file: its `events`, the empty list when absent. */
  datatype Json3 = Json3(events: seq<Event>)

  /** The concatenated text of the segments; a segment without `utf8` adds nothing. */
  function SegmentsText(segs: seq<Segment>): string {
    if segs == [] then [] else segs[0].utf8.GetOr([]) + SegmentsText(segs[1..])
  }

  /** A time in milliseconds as seconds. */
  function Seconds(ms: int): real {
    ms as real / 1000.0
  }

  /** Non-blank text with no white space at either end, as `str.strip` leaves it. */
  predicate Trimmed(text: string) {
    text != [] && !IsSpace(text[0]) && !IsSpace(text[|text| - 1])
  }

  /** The caption item an event yields, or None for an event that is skipped. */
  function EventItem(event: Event): Option<Item> {
    if event.segs == [] then None
    else
      var text := Strip(SegmentsText(event.segs));
      if text == [] then None
      else Some(Item(text, Seconds(event.tStartMs.GetOr(0)), Seconds(event.dDurationMs.GetOr(0))))
  }

  /**
   * An event is skipped exactly when its text is blank once stripped; otherwise its
   * item holds the stripped text and the start and length converted to seconds.
   */
  lemma EventItemMeaning(event: Event)
    ensures EventItem(event).None? <==> Strip(SegmentsText(event.segs)) == []
    ensures EventItem(event).Some? ==>
      var item := EventItem(event).value;
      Trimmed(item.text) && item.text == Strip(SegmentsText(event.segs)) &&
      item.start * 1000.0 == event.tStartMs.GetOr(0) as real &&
      item.duration * 1000.0 == event.dDurationMs.GetOr(0) as real
  {
    if event.segs == [] {
      assert SegmentsText(event.segs) == [];
    }
  }

  /** The items of a json3 file's events, in event order. */
  function Json3Items(events: seq<Event>): seq<Item> {
    if events == [] then []
    else
      var prior := Json3Items(events[..|events| - 1]);
      match EventItem(events[|events| - 1])
      case None => prior
      case Some(item) => prior + [item]
  }

  lemma Json3ItemsPrefixStep(events: seq<Event>, n: nat)
    requires n < |events|
    ensures Json3Items(events[..n + 1]) ==
      if EventItem(events[n]).Some? then Json3Items(events[..n]) + [EventItem(events[n]).value] else Json3Items(events[..n])
  {
    assert events[..n + 1][..n] == events[..n];
  }

  /** `_parse_json3`. */
  method ParseJson3(data: Json3) returns (items: seq<Item>)
    ensures items == Json3Items(data.events)
  {
    var events := data.events;
    items := [];
    for n := 0 to |events|
      invariant items == Json3Items(events[..n])
    {
      var event := events[n];
      Json3ItemsPrefixStep(events, n);
      var segs := event.segs;
      if segs == [] {
        assert EventItem(event) == None;
        continue;
      }
      var text := Strip(SegmentsText(segs));
      if text == [] {
        assert EventItem(event) == None;
        continue;
      }
      var startMs := event.tStartMs.GetOr(0);
      var durationMs := event.dDurationMs.GetOr(0);
      var item := Item(text, Seconds(startMs), Seconds(durationMs));
      assert EventItem(event) == Some(item);
      items := items + [item];
    }
    assert events[..|events|] == events;
  }

  /** Items keep the order of their events: the items of two runs of events are the two runs' items in turn. */
  lemma {:induction false} Json3ItemsAppend(events: seq<Event>, more: seq<Event>)
    ensures Json3Items(events + more) == Json3Items(events) + Json3Items(more)
    decreases |more|
  {
    if more == [] {
      assert events + more == events;
    } else {
      var front := more[..|more| - 1];
      var last := more[|more| - 1];
      assert (events + more)[..|events + more| - 1] == events + front;
      assert (events + more)[|events + more| - 1] == last;
      Json3ItemsAppend(events, front);
    }
  }

  /** There are at most as many items as events, and exactly as many when no event is blank. */
  lemma {:induction false} Json3ItemsCount(events: seq<Event>)
    ensures |Json3Items(events)| <= |events|
    ensures (forall j :: 0 <= j < |events| ==> EventItem(events[j]).Some?) ==> |Json3Items(events)| == |events|
    decreases |events|
  {
    if events != [] {
      Json3ItemsCount(events[..|events| - 1]);
    }
  }

  /** Every item has non-blank text with no white space at either end. */
  lemma {:induction false} Json3ItemsClean(events: seq<Event>)
    ensures forall i :: 0 <= i < |Json3Items(events)| ==> Trimmed(Json3Items(events)[i].text)
    decreases |events|
  {
    if events != [] {
      var front := events[..|events| - 1];
      Json3ItemsClean(front);
      EventItemMeaning(events[|events| - 1]);
      var items := Json3Items(events);
      var prior := Json3Items(front);
      forall i | 0 <= i < |items| ensures Trimmed(items[i].text) {
        if i < |prior| {
          assert items[i] == prior[i];
        }
      }
    }
  }

  /** Every item is the item of one of the events. */
  lemma {:induction false} Json3ItemsFromEvents(events: seq<Event>)
    ensures forall i :: 0 <= i < |Json3Items(events)| ==>
      exists j :: 0 <= j < |events| && EventItem(events[j]) == Some(Json3Items(events)[i])
  {
    var items := Json3Items(events);
    forall i | 0 <= i < |items|
      ensures exists j :: 0 <= j < |events| && EventItem(events[j]) == Some(items[i])
    {
      var j := Json3ItemSource(events, i);
    }
  }

  /** The index of the event that item `i` comes from. */
  lemma {:induction false} Json3ItemSource(events: seq<Event>, i: nat) returns (j: nat)
    requires i < |Json3Items(events)|
    ensures j < |events| && EventItem(events[j]) == Some(Json3Items(events)[i])
    decreases |events|
  {
    var front := events[..|events| - 1];
    var prior := Json3Items(front);
    if i < |prior| {
      assert Json3Items(events)[i] == prior[i];
      j := Json3ItemSource(front, i);
      assert events[j] == front[j];
    } else {
      j := |events| - 1;
    }
  }

  /*
   * `get_subtitles` as a whole.
   */

  /**
   * The outcome of `get_subtitles`, given what yt-dlp reports for the video
   * and what the download of a track yields (a json3 file or an error message).
   */
  function Subtitles(
    info: Result<InfoDict, string>, videoId: string, languages: seq<string>,
    download: (string, string, bool) -> Result<Json3, string>): Result<(seq<Item>, string), string>
  {
    if info.Err? then Err(info.error)
    else match ChooseTrack(info.value, videoId, languages)
      case Err(message) => Err(message)
      case Ok(track) =>
        match download(videoId, track.language, track.isAuto)
        case Err(message) => Err(message)
        case Ok(data) => Ok((Json3Items(data.events), track.language))
  }

  method GetSubtitles(
    info: Result<InfoDict, string>, videoId: string, preferred: string, fallbacks: seq<string>,
    download: (string, string, bool) -> Result<Json3, string>)
    returns (r: Result<(seq<Item>, string), string>)
    ensures r == Subtitles(info, videoId, [preferred] + fallbacks, download)
  {
    if info.Err? {
      return Err(info.error);
    }
    var chosen := SelectTrack(info.value, videoId, preferred, fallbacks);
    if chosen.Err? {
      return Err(chosen.error);
    }
    var track := chosen.value;
    var data := download(videoId, track.language, track.isAuto);
    if data.Err? {
      return Err(data.error);
    }
    var items := ParseJson3(data.value);
    r := Ok((items, track.language));
  }

  /**
   * What `get_subtitles` returns is the language of the chosen track with the
   * parsed items of that track's file, which are all non-blank.
   */
  lemma SubtitlesFromChosenTrack(
    info: Result<InfoDict, string>, videoId: string, languages: seq<string>,
    download: (string, string, bool) -> Result<Json3, string>)
    ensures Subtitles(info, videoId, languages, download).Ok? ==>
      info.Ok? && ChooseTrack(info.value, videoId, languages).Ok? &&
      var track := ChooseTrack(info.value, videoId, languages).value;
      Subtitles(info, videoId, languages, download).value.1 == track.language &&
      download(videoId, track.language, track.isAuto).Ok? &&
      Subtitles(info, videoId, languages, download).value.0 == Json3Items(download(videoId, track.language, track.isAuto).value.events) &&
      forall i :: 0 <= i < |Subtitles(info, videoId, languages, download).value.0| ==>
        Trimmed(Subtitles(info, videoId, languages, download).value.0[i].text)
  {
    if info.Ok? && ChooseTrack(info.value, videoId, languages).Ok? {
      var track := ChooseTrack(info.value, videoId, languages).value;
      if download(videoId, track.language, track.isAuto).Ok? {
        Json3ItemsClean(download(videoId, track.language, track.isAuto).value.events);
      }
    }
  }
}
