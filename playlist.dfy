/**
 * Playlist listings: the record extractor of app/services/playlist.py and the
 * collection loop of the playlist videos endpoint (app/routers/playlist.py),
 * which numbers the entries it keeps.
 */
module Playlist {
  import opened Wrappers
  import opened Errors
  import opened Scraped
  import Channel

  /** One entry of a playlist's video list. */
  datatype PlaylistVideo = PlaylistVideo(
    videoId: string, title: string, position: int, channelId: Option<string>,
    channelName: Option<string>, duration: Option<int>, thumbnailUrl: Option<string>)

  /** The entry for a record with a video id at the given position. */
  function PlaylistEntry(record: VideoRecord, position: int): PlaylistVideo
    requires HasVideoId(record)
  {
    var runs := record.bylineRuns;
    PlaylistVideo(
      record.videoId.value,
      FirstRunText(record.titleRuns),
      position,
      if runs == [] then None else runs[0].browseId,
      if runs == [] then None else Some(runs[0].text.GetOr("")),
      Channel.ParseDuration(record.lengthText.GetOr("")),
      LastThumbnailUrl(record.thumbnailUrls))
  }

  /**
   * `extract_playlist_video_info`: None for a record without a video id; else
   * the entry, with the position echoed, the channel parser's duration, and
   * the channel name and id taken from the first byline run when there is one.
   */
  function ExtractPlaylistVideoInfo(record: VideoRecord, position: int): (r: Option<PlaylistVideo>)
    ensures r.None? <==> !HasVideoId(record)
    ensures r.Some? ==>
      && r.value.videoId == record.videoId.value
      && r.value.position == position
      && r.value.duration == Channel.ParseDuration(record.lengthText.GetOr(""))
      && (r.value.channelName.None? <==> record.bylineRuns == [])
      && (record.bylineRuns == [] ==> r.value.channelId == None)
      && (record.bylineRuns != [] ==> r.value.channelId == record.bylineRuns[0].browseId)
      && (record.bylineRuns != [] ==> r.value.channelName == Some(record.bylineRuns[0].text.GetOr("")))
      && r.value.title == FirstRunText(record.titleRuns)
      && r.value.thumbnailUrl == LastThumbnailUrl(record.thumbnailUrls)
  {
    if !HasVideoId(record) then None else Some(PlaylistEntry(record, position))
  }

  /** The entries of the kept records, numbered from 1 in order. */
  function NumberedEntries(kept: seq<VideoRecord>): (videos: seq<PlaylistVideo>)
    requires forall i :: 0 <= i < |kept| ==> HasVideoId(kept[i])
    ensures |videos| == |kept|
    ensures forall i :: 0 <= i < |kept| ==> videos[i] == PlaylistEntry(kept[i], i + 1)
  {
    seq(|kept|, i requires 0 <= i < |kept| => PlaylistEntry(kept[i], i + 1))
  }

  /** Numbering one more kept record appends its entry at the next position. */
  lemma NumberedEntriesSnoc(kept: seq<VideoRecord>, record: VideoRecord)
    requires forall i :: 0 <= i < |kept| ==> HasVideoId(kept[i])
    requires HasVideoId(record)
    ensures NumberedEntries(kept + [record]) == NumberedEntries(kept) + [PlaylistEntry(record, |kept| + 1)]
  {
    var longer := NumberedEntries(kept + [record]);
    var shorter := NumberedEntries(kept);
    assert forall i :: 0 <= i < |kept| ==> (kept + [record])[i] == kept[i];
    assert longer[|kept|] == PlaylistEntry(record, |kept| + 1);
  }

  /** One more record from the generator numbers at most one more entry. */
  lemma NumberedStep(records: seq<VideoRecord>, k: nat)
    requires k < |records|
    ensures NumberedEntries(KeptRecords(records[..k + 1])) ==
      if HasVideoId(records[k])
      then NumberedEntries(KeptRecords(records[..k])) + [PlaylistEntry(records[k], |KeptRecords(records[..k])| + 1)]
      else NumberedEntries(KeptRecords(records[..k]))
  {
    KeptRecordsStep(records, k);
    if HasVideoId(records[k]) {
      NumberedEntriesSnoc(KeptRecords(records[..k]), records[k]);
    }
  }

  /** One pass of the collection loop below its limit: the record's entry, if any, goes at the next position. */
  lemma CollectStep(records: seq<VideoRecord>, limit: int, k: nat, videos: seq<PlaylistVideo>)
    requires k < |records| && videos == NumberedEntries(KeptRecords(records[..k])) && |videos| < limit
    requires forall j :: 0 <= j < k ==> !StopsAt(records, limit, j)
    ensures forall j :: 0 <= j < k + 1 ==> !StopsAt(records, limit, j)
    ensures var info := ExtractPlaylistVideoInfo(records[k], |videos| + 1);
      NumberedEntries(KeptRecords(records[..k + 1])) == if info.Some? then videos + [info.value] else videos
  {
    NumberedStep(records, k);
    assert !StopsAt(records, limit, k);
  }

  datatype PlaylistVideosResponse = PlaylistVideosResponse(playlistId: string, videos: seq<PlaylistVideo>, count: int)

  /**
   * `get_playlist_videos`. `records` is what the scrapetube generator yields;
   * `failure` is the message of the exception it raises when asked for one
   * more record, if it does. The position counter advances only when an entry is kept.
   */
  method GetPlaylistVideos(playlistId: string, limit: int, records: seq<VideoRecord>, failure: Option<string>)
    returns (r: Result<PlaylistVideosResponse, AppError>)
    ensures r.Err? <==> failure.Some? && forall k :: 0 <= k < |records| ==> !StopsAt(records, limit, k)
    ensures r.Err? ==> r.error == Internal(failure.value)
    ensures r.Ok? ==>
      && r.value.playlistId == playlistId
      && r.value.videos == NumberedEntries(Take(KeptRecords(records), limit))
      && r.value.count == |r.value.videos|
  {
    var videos, k, stopped := CollectEntries(limit, records);
    if stopped {
      FirstStopTakesLimit(records, limit, k);
    } else {
      if failure.Some? {
        return Err(Internal(failure.value));
      }
      NoStopTakesAll(records, limit);
    }
    r := Ok(PlaylistVideosResponse(playlistId, videos, |videos|));
  }

  /**
   * The collection loop of `get_playlist_videos`: it numbers the records with a
   * video id until it has `limit` entries (`stopped`, before record `k`) or the
   * records run out (`k` is their number).
   */
  method CollectEntries(limit: int, records: seq<VideoRecord>) returns (videos: seq<PlaylistVideo>, k: nat, stopped: bool)
    ensures k <= |records| && videos == NumberedEntries(KeptRecords(records[..k]))
    ensures forall j :: 0 <= j < k ==> !StopsAt(records, limit, j)
    ensures stopped ==> StopsAt(records, limit, k)
    ensures !stopped ==> k == |records| && records[..k] == records
  {
    videos := [];
    var position := 1;
    k := 0;
    stopped := false;
    while k < |records|
      invariant 0 <= k <= |records|
      invariant videos == NumberedEntries(KeptRecords(records[..k]))
      invariant position == |videos| + 1
      invariant forall j :: 0 <= j < k ==> !StopsAt(records, limit, j)
      invariant stopped ==> StopsAt(records, limit, k)
      decreases |records| - k, if stopped then 0 else 1
    {
      if |videos| >= limit {
        stopped := true;
        break;
      }
      var videoData := records[k];
      CollectStep(records, limit, k, videos);
      var info := ExtractPlaylistVideoInfo(videoData, position);
      if info.None? {
        k := k + 1;
        continue;
      }
      videos := videos + [info.value];
      position := position + 1;
      k := k + 1;
    }
    if !stopped {
      assert records[..k] == records;
    }
  }

  /**
   * The endpoint numbers its entries 1, 2, …, n in order; the i-th entry is
   * what the extractor makes of the i-th record with a video id at position i,
   * so a skipped record takes no position; and there are never more than `limit`.
   */
  lemma NumberedCollection(records: seq<VideoRecord>, limit: int)
    ensures var videos := NumberedEntries(Take(KeptRecords(records), limit));
      && |videos| <= (if limit <= 0 then 0 else limit)
      && forall i :: 0 <= i < |videos| ==>
           videos[i].position == i + 1 &&
           Some(videos[i]) == ExtractPlaylistVideoInfo(KeptRecords(records)[i], i + 1)
  {
  }

  /** Records without a video id between two kept ones do not change the numbering. */
  lemma SkippedRecordsTakeNoPosition(records: seq<VideoRecord>, skipped: seq<VideoRecord>, more: seq<VideoRecord>)
    requires forall i :: 0 <= i < |skipped| ==> !HasVideoId(skipped[i])
    ensures NumberedEntries(KeptRecords(records + skipped + more)) == NumberedEntries(KeptRecords(records + more))
  {
    assert KeptRecords(records + skipped + more) == KeptRecords(records + more) by {
      KeptRecordsAppend(records + skipped, more);
      KeptRecordsAppend(records, skipped);
      KeptRecordsAppend(records, more);
      NothingKept(skipped);
    }
  }

  lemma {:induction false} NothingKept(skipped: seq<VideoRecord>)
    requires forall i :: 0 <= i < |skipped| ==> !HasVideoId(skipped[i])
    ensures KeptRecords(skipped) == []
    decreases |skipped|
  {
    if skipped != [] {
      NothingKept(skipped[..|skipped| - 1]);
    }
  }
}
