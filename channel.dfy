/**
 * Channel listings: the `H:M:S` duration parser and the record extractor of
 * app/services/channel.py, and the collection loop of the channel videos
 * endpoint (app/routers/channel.py), whose `parse_duration` is the same parser.
 */
module Channel {
  import opened Wrappers
  import opened Text
  import opened PyInt
  import opened Errors
  import opened Scraped

  /*
   * Durations.
   */

  /** `_parse_duration`: `M:S` or `H:M:S` in seconds; empty text, another number of parts or a part `int` refuses gives None. */
  function ParseDuration(text: string): Option<int> {
    if text == [] then None else DurationOfParts(Split(text, ':'))
  }

  /** The seconds the parts between the colons stand for. */
  function DurationOfParts(parts: seq<string>): Option<int> {
    if |parts| == 2 then MinutesAndSeconds(ParseInt(parts[0]), ParseInt(parts[1]))
    else if |parts| == 3 then HoursMinutesAndSeconds(ParseInt(parts[0]), ParseInt(parts[1]), ParseInt(parts[2]))
    else None
  }

  function MinutesAndSeconds(minutes: Option<int>, seconds: Option<int>): Option<int> {
    if minutes.Some? && seconds.Some? then Some(minutes.value * 60 + seconds.value) else None
  }

  function HoursMinutesAndSeconds(hours: Option<int>, minutes: Option<int>, seconds: Option<int>): Option<int> {
    if hours.Some? && minutes.Some? && seconds.Some?
    then Some(hours.value * 3600 + minutes.value * 60 + seconds.value)
    else None
  }

  /** Two parts that parse as `M` and `S`. */
  lemma TwoParsedParts(minutes: Option<int>, seconds: Option<int>, m: int, s: int)
    requires minutes == Some(m) && seconds == Some(s)
    ensures MinutesAndSeconds(minutes, seconds) == Some(60 * m + s)
  {
  }

  /** Three parts that parse as `H`, `M` and `S`. */
  lemma ThreeParsedParts(hours: Option<int>, minutes: Option<int>, seconds: Option<int>, h: int, m: int, s: int)
    requires hours == Some(h) && minutes == Some(m) && seconds == Some(s)
    ensures HoursMinutesAndSeconds(hours, minutes, seconds) == Some(3600 * h + 60 * m + s)
  {
  }

  lemma SplitTwo(a: string, b: string)
    requires ':' !in a && ':' !in b
    ensures Split(a + ":" + b, ':') == [a, b]
  {
    assert Join([a, b], ":") == a + ":" + b by {
      assert [a, b][1..] == [b];
    }
    SplitJoin([a, b], ':');
  }

  lemma SplitThree(a: string, b: string, c: string)
    requires ':' !in a && ':' !in b && ':' !in c
    ensures Split(a + ":" + b + ":" + c, ':') == [a, b, c]
  {
    assert Join([a, b, c], ":") == a + ":" + b + ":" + c by {
      assert [a, b, c][1..] == [b, c];
      assert [b, c][1..] == [c];
      assert Join([b, c], ":") == b + ":" + c;
      assert Join([a, b, c], ":") == a + ":" + (b + ":" + c);
    }
    SplitJoin([a, b, c], ':');
  }

  lemma DigitsLackColon(n: nat)
    ensures ':' !in ShowNat(n)
  {
    var s := ShowNat(n);
    forall i | 0 <= i < |s|
      ensures s[i] != ':'
    {
      assert IsDigit(s[i]);
    }
  }

  /** `"M:S"` is `60·M + S` seconds. */
  lemma MinutesSeconds(m: nat, s: nat)
    ensures ParseDuration(ShowNat(m) + ":" + ShowNat(s)) == Some(60 * m + s)
  {
    var minutes, seconds := ShowNat(m), ShowNat(s);
    DigitsLackColon(m);
    DigitsLackColon(s);
    SplitTwo(minutes, seconds);
    ParseShowNat(m);
    ParseShowNat(s);
    TwoParsedParts(ParseInt(minutes), ParseInt(seconds), m, s);
  }

  /** `"H:M:S"` is `3600·H + 60·M + S` seconds. */
  lemma HoursMinutesSeconds(h: nat, m: nat, s: nat)
    ensures ParseDuration(ShowNat(h) + ":" + ShowNat(m) + ":" + ShowNat(s)) == Some(3600 * h + 60 * m + s)
  {
    var hours, minutes, seconds := ShowNat(h), ShowNat(m), ShowNat(s);
    DigitsLackColon(h);
    DigitsLackColon(m);
    DigitsLackColon(s);
    SplitThree(hours, minutes, seconds);
    ParseShowNat(h);
    ParseShowNat(m);
    ParseShowNat(s);
    ThreeParsedParts(ParseInt(hours), ParseInt(minutes), ParseInt(seconds), h, m, s);
  }

  /** A bare number of seconds, or four or more parts, is refused, as is a part without digits. */
  lemma OtherShapesRefused(text: string, n: nat)
    ensures ParseDuration(ShowNat(n)) == None
    ensures |Split(text, ':')| != 2 && |Split(text, ':')| != 3 ==> ParseDuration(text) == None
    ensures |Split(text, ':')| == 2 && (forall i :: 0 <= i < |Split(text, ':')[1]| ==> !IsDigit(Split(text, ':')[1][i])) ==>
      ParseDuration(text) == None
  {
    DigitsLackColon(n);
    var parts := Split(text, ':');
    if |parts| == 2 && forall i :: 0 <= i < |parts[1]| ==> !IsDigit(parts[1][i]) {
      NoDigitNoInt(parts[1]);
    }
  }

  /*
   * Records.
   */

  /** One entry of a channel's video list. */
  datatype ChannelVideo = ChannelVideo(
    videoId: string, title: string, publishDate: Option<string>, duration: Option<int>,
    thumbnailUrl: Option<string>, viewCount: Option<int>)

  /**
   * `extract_video_info`: None for a record without a video id, else its fields.
   * `viewCount` stands for `_parse_view_count`.
   */
  function ExtractVideoInfo(record: VideoRecord, viewCount: string -> Option<int>): (r: Option<ChannelVideo>)
    ensures r.None? <==> !HasVideoId(record)
    ensures r.Some? ==>
      && r.value.videoId == record.videoId.value
      && r.value.publishDate == record.publishedTimeText
      && r.value.duration == ParseDuration(record.lengthText.GetOr(""))
      && r.value.title == FirstRunText(record.titleRuns)
      && r.value.thumbnailUrl == LastThumbnailUrl(record.thumbnailUrls)
      && r.value.viewCount == viewCount(record.viewCountText.GetOr(""))
  {
    if !HasVideoId(record) then None
    else
      Some(ChannelVideo(
        record.videoId.value,
        FirstRunText(record.titleRuns),
        record.publishedTimeText,
        ParseDuration(record.lengthText.GetOr("")),
        LastThumbnailUrl(record.thumbnailUrls),
        viewCount(record.viewCountText.GetOr(""))))
  }

  /** The entry the endpoint builds for a record with a video id; a missing publish text becomes `''`. */
  function RouterVideo(record: VideoRecord, viewCount: string -> Option<int>): ChannelVideo
    requires HasVideoId(record)
  {
    ChannelVideo(
      record.videoId.value,
      FirstRunText(record.titleRuns),
      Some(record.publishedTimeText.GetOr("")),
      ParseDuration(record.lengthText.GetOr("")),
      LastThumbnailUrl(record.thumbnailUrls),
      viewCount(record.viewCountText.GetOr("")))
  }

  /** The endpoint and the service extractor agree on every field but the publish text, which the endpoint defaults to `''`. */
  lemma RouterAgreesWithExtractor(record: VideoRecord, viewCount: string -> Option<int>)
    requires HasVideoId(record)
    ensures ExtractVideoInfo(record, viewCount) ==
      Some(RouterVideo(record, viewCount).(publishDate := record.publishedTimeText))
    ensures record.publishedTimeText.Some? ==> ExtractVideoInfo(record, viewCount) == Some(RouterVideo(record, viewCount))
  {
  }

  function RouterVideos(kept: seq<VideoRecord>, viewCount: string -> Option<int>): (videos: seq<ChannelVideo>)
    requires forall i :: 0 <= i < |kept| ==> HasVideoId(kept[i])
    ensures |videos| == |kept|
    ensures forall i :: 0 <= i < |kept| ==> videos[i] == RouterVideo(kept[i], viewCount)
  {
    seq(|kept|, i requires 0 <= i < |kept| => RouterVideo(kept[i], viewCount))
  }

  /** One more record from the generator adds at most one entry to the endpoint's list. */
  lemma RouterVideosStep(records: seq<VideoRecord>, k: nat, viewCount: string -> Option<int>)
    requires k < |records|
    ensures RouterVideos(KeptRecords(records[..k + 1]), viewCount) ==
      if HasVideoId(records[k])
      then RouterVideos(KeptRecords(records[..k]), viewCount) + [RouterVideo(records[k], viewCount)]
      else RouterVideos(KeptRecords(records[..k]), viewCount)
  {
    KeptRecordsStep(records, k);
  }

  /*
   * The channel videos endpoint.
   */

  datatype ChannelVideosResponse = ChannelVideosResponse(channelId: string, videos: seq<ChannelVideo>, count: int)

  /**
   * `get_channel_videos`. `records` is what the scrapetube generator yields;
   * `failure` is the message of the exception it raises when asked for one
   * more record, if it does. The loop stops, before taking a record, once it
   * holds `limit` entries, and skips records without a video id.
   */
  method GetChannelVideos(
    channelId: string, limit: int, records: seq<VideoRecord>, failure: Option<string>,
    viewCount: string -> Option<int>)
    returns (r: Result<ChannelVideosResponse, AppError>)
    ensures r.Err? <==> failure.Some? && forall k :: 0 <= k < |records| ==> !StopsAt(records, limit, k)
    ensures r.Err? ==> r.error == Internal(failure.value)
    ensures r.Ok? ==>
      && r.value.channelId == channelId
      && r.value.videos == RouterVideos(Take(KeptRecords(records), limit), viewCount)
      && r.value.count == |r.value.videos|
  {
    var videos, k, stopped := CollectVideos(limit, records, viewCount);
    if stopped {
      FirstStopTakesLimit(records, limit, k);
    } else {
      if failure.Some? {
        return Err(Internal(failure.value));
      }
      NoStopTakesAll(records, limit);
    }
    r := Ok(ChannelVideosResponse(channelId, videos, |videos|));
  }

  /**
   * The collection loop of `get_channel_videos`: it converts the records with a
   * video id until it has `limit` entries (`stopped`, before record `k`) or the
   * records run out (`k` is their number).
   */
  method CollectVideos(limit: int, records: seq<VideoRecord>, viewCount: string -> Option<int>)
    returns (videos: seq<ChannelVideo>, k: nat, stopped: bool)
    ensures k <= |records| && videos == RouterVideos(KeptRecords(records[..k]), viewCount)
    ensures forall j :: 0 <= j < k ==> !StopsAt(records, limit, j)
    ensures stopped ==> StopsAt(records, limit, k)
    ensures !stopped ==> k == |records| && records[..k] == records
  {
    videos := [];
    k := 0;
    stopped := false;
    while k < |records|
      invariant 0 <= k <= |records|
      invariant videos == RouterVideos(KeptRecords(records[..k]), viewCount)
      invariant forall j :: 0 <= j < k ==> !StopsAt(records, limit, j)
      invariant stopped ==> StopsAt(records, limit, k)
      decreases |records| - k, if stopped then 0 else 1
    {
      if |videos| >= limit {
        stopped := true;
        break;
      }
      var video := records[k];
      CollectVideosStep(records, limit, k, viewCount, videos);
      if !HasVideoId(video) {
        k := k + 1;
        continue;
      }
      var videoId := video.videoId.value;
      var publishText := video.publishedTimeText.GetOr("");
      var thumbnailUrl := LastThumbnailUrl(video.thumbnailUrls);
      var title := FirstRunText(video.titleRuns);
      var duration := ParseDuration(video.lengthText.GetOr(""));
      var viewCountValue := viewCount(video.viewCountText.GetOr(""));
      videos := videos + [ChannelVideo(videoId, title, Some(publishText), duration, thumbnailUrl, viewCountValue)];
      k := k + 1;
    }
    if !stopped {
      assert records[..k] == records;
    }
  }

  /** One pass of the collection loop below its limit: a record with a video id adds its entry at the end. */
  lemma CollectVideosStep(
    records: seq<VideoRecord>, limit: int, k: nat, viewCount: string -> Option<int>, videos: seq<ChannelVideo>)
    requires k < |records| && videos == RouterVideos(KeptRecords(records[..k]), viewCount) && |videos| < limit
    requires forall j :: 0 <= j < k ==> !StopsAt(records, limit, j)
    ensures forall j :: 0 <= j < k + 1 ==> !StopsAt(records, limit, j)
    ensures RouterVideos(KeptRecords(records[..k + 1]), viewCount) ==
      if HasVideoId(records[k]) then videos + [RouterVideo(records[k], viewCount)] else videos
  {
    RouterVideosStep(records, k, viewCount);
    assert !StopsAt(records, limit, k);
  }

  /**
   * The endpoint's list never exceeds `limit`, holds exactly the first `limit`
   * records with a video id (all of them when there are fewer), in the order
   * they were yielded, and only records with a video id.
   */
  lemma CollectedVideos(records: seq<VideoRecord>, limit: int, viewCount: string -> Option<int>)
    ensures var videos := RouterVideos(Take(KeptRecords(records), limit), viewCount);
      && |videos| <= (if limit <= 0 then 0 else limit)
      && |videos| == (if limit <= 0 then 0 else if limit < |KeptRecords(records)| then limit else |KeptRecords(records)|)
      && forall i :: 0 <= i < |videos| ==>
           videos[i] == RouterVideo(KeptRecords(records)[i], viewCount) &&
           exists j :: 0 <= j < |records| && records[j] == KeptRecords(records)[i]
  {
    var kept := KeptRecords(records);
    forall i | 0 <= i < |Take(kept, limit)|
      ensures exists j :: 0 <= j < |records| && records[j] == kept[i]
    {
      assert kept[i] in records;
    }
  }
}
