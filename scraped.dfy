/**
 * The video records scrapetube yields for a channel or a playlist, reduced to
 * the fields the service reads, and the lookups shared by the channel and
 * playlist extractors (app/services/channel.py, app/services/playlist.py and
 * their routers).
 */
module Scraped {
  import opened Wrappers

  /** One text run: its `text` and the `navigationEndpoint.browseEndpoint.browseId` behind it, each when present. */
  datatype Run = Run(text: Option<string>, browseId: Option<string>)

  /**
   * A scraped video record. A missing nested object reads as empty: a missing
   * `thumbnail` or `title` is an empty list of thumbnails or runs, a missing
   * `lengthText` is an absent `simpleText`.
   */
  datatype VideoRecord = VideoRecord(
    videoId: Option<string>,
    publishedTimeText: Option<string>,
    thumbnailUrls: seq<Option<string>>,
    titleRuns: seq<Run>,
    lengthText: Option<string>,
    viewCountText: Option<string>,
    bylineRuns: seq<Run>)

  /** A record is used only when its `videoId` is present and non-empty. */
  predicate HasVideoId(record: VideoRecord) {
    record.videoId.Some? && record.videoId.value != []
  }

  /** The URL of the last (largest) thumbnail, or None without thumbnails. */
  function LastThumbnailUrl(urls: seq<Option<string>>): (url: Option<string>)
    ensures urls == [] ==> url == None
    ensures urls != [] ==> url == urls[|urls| - 1]
  {
    if urls == [] then None else urls[|urls| - 1]
  }

  /** The text of the first title run, or `''` without runs or text. */
  function FirstRunText(runs: seq<Run>): (text: string)
    ensures runs == [] ==> text == []
    ensures runs != [] ==> text == runs[0].text.GetOr([])
  {
    if runs == [] then [] else runs[0].text.GetOr([])
  }

  /** The records with a video id, in the order they were yielded. */
  function KeptRecords(records: seq<VideoRecord>): (kept: seq<VideoRecord>)
    ensures |kept| <= |records|
    ensures forall i :: 0 <= i < |kept| ==> HasVideoId(kept[i]) && kept[i] in records
  {
    if records == [] then []
    else
      var prior := KeptRecords(records[..|records| - 1]);
      var last := records[|records| - 1];
      if HasVideoId(last) then prior + [last] else prior
  }

  /** Filtering keeps order: the records kept from two runs are the two runs' kept records in turn. */
  lemma {:induction false} KeptRecordsAppend(records: seq<VideoRecord>, more: seq<VideoRecord>)
    ensures KeptRecords(records + more) == KeptRecords(records) + KeptRecords(more)
    decreases |more|
  {
    if more == [] {
      assert records + more == records;
    } else {
      var front := more[..|more| - 1];
      assert (records + more)[..|records + more| - 1] == records + front;
      KeptRecordsAppend(records, front);
    }
  }

  /** Only records without a video id are dropped. */
  lemma {:induction false} KeptRecordsComplete(records: seq<VideoRecord>)
    ensures forall i :: 0 <= i < |records| && HasVideoId(records[i]) ==> records[i] in KeptRecords(records)
    ensures (forall i :: 0 <= i < |records| ==> HasVideoId(records[i])) ==> KeptRecords(records) == records
    decreases |records|
  {
    if records != [] {
      var front := records[..|records| - 1];
      KeptRecordsComplete(front);
      assert records == front + [records[|records| - 1]];
      forall i | 0 <= i < |records| && HasVideoId(records[i])
        ensures records[i] in KeptRecords(records)
      {
        if i < |front| {
          assert records[i] == front[i];
        }
      }
    }
  }

  /** Processing one more record adds at most one kept record. */
  lemma KeptRecordsStep(records: seq<VideoRecord>, k: nat)
    requires k < |records|
    ensures KeptRecords(records[..k + 1]) ==
      if HasVideoId(records[k]) then KeptRecords(records[..k]) + [records[k]] else KeptRecords(records[..k])
  {
    assert records[..k + 1][..k] == records[..k];
  }

  /** At most `limit` elements from the front (none for a limit below one). */
  function Take<T>(s: seq<T>, limit: int): (r: seq<T>)
    ensures r <= s
    ensures |r| == if limit <= 0 then 0 else if limit < |s| then limit else |s|
  {
    if limit <= 0 then [] else if limit < |s| then s[..limit] else s
  }

  /** The loop stops before record `k` when it has already kept `limit` records. */
  predicate StopsAt(records: seq<VideoRecord>, limit: int, k: nat) {
    k < |records| && |KeptRecords(records[..k])| >= limit
  }

  /**
   * When the loop first stops at record `k`, what it kept is exactly the first
   * `limit` kept records of all the records.
   */
  lemma {:induction false} FirstStopTakesLimit(records: seq<VideoRecord>, limit: int, k: nat)
    requires StopsAt(records, limit, k)
    requires forall j :: 0 <= j < k ==> !StopsAt(records, limit, j)
    ensures KeptRecords(records[..k]) == Take(KeptRecords(records), limit)
  {
    assert records == records[..k] + records[k..];
    KeptRecordsAppend(records[..k], records[k..]);
    if k > 0 {
      KeptRecordsStep(records, k - 1);
      assert !StopsAt(records, limit, k - 1);
    }
  }

  /** When the loop never stops early, it kept every kept record, and at most `limit` of them. */
  lemma NoStopTakesAll(records: seq<VideoRecord>, limit: int)
    requires forall j :: 0 <= j < |records| ==> !StopsAt(records, limit, j)
    ensures KeptRecords(records) == Take(KeptRecords(records), limit)
  {
    if records == [] {
      if limit <= 0 {
        assert KeptRecords(records) == [];
      }
    } else {
      var k := |records| - 1;
      KeptRecordsStep(records, k);
      assert !StopsAt(records, limit, k);
      assert records[..k + 1] == records;
    }
  }
}
