/**
 * The stricter id extractor, chapter bucketing and Markdown rendering of
 * app/services/video_info.py.
 */
module VideoInfo {
  import opened Wrappers
  import opened Text
  import opened Patterns
  import opened Captions

  /*
   * Id extraction: four patterns tried in order, the first that matches anywhere
   * wins. The first three are alternations of literals followed by exactly eleven
   * id characters; the fourth is the anchored `^([a-zA-Z0-9_-]{11})$`.
   */

  /** The literal alternatives of the first three patterns, in the order they are tried. */
  const ID_PATTERNS: seq<seq<string>> := [["v=", "/v/", "youtu.be/"], ["embed/"], ["live/"]]

  /** `re.search(r'^([a-zA-Z0-9_-]{11})$', url)`: `$` also matches just before a final newline. */
  function WholeId(url: string): (r: Option<string>)
    ensures r.Some? <==> IsVideoId(url) || (|url| == 12 && IsVideoId(url[..11]) && url[11] == '\n')
    ensures r.Some? ==> IsVideoId(r.value) && r.value == url[..11]
  {
    if |url| == 11 && IsIdString(url) then Some(url)
    else if |url| == 12 && IsIdString(url[..11]) && url[11] == '\n' then Some(url[..11])
    else None
  }

  /** Group 1 of pattern `p` (0 to 3) searched in `url`. */
  function PatternGroup(url: string, p: nat): (r: Option<string>)
    requires p < 4
    ensures r.Some? ==> IsVideoId(r.value)
  {
    if p < 3 then
      match Search(url, ID_PATTERNS[p], Exactly(11))
      case None => None
      case Some(m) => Some(m.group)
    else WholeId(url)
  }

  /** The patterns from `p` on, tried in order. */
  function FirstPatternFrom(url: string, p: nat): (r: Option<string>)
    requires p <= 4
    ensures r.Some? ==> exists q :: p <= q < 4 && PatternGroup(url, q) == r &&
                                    forall e :: p <= e < q ==> PatternGroup(url, e).None?
    ensures r.None? ==> forall q :: p <= q < 4 ==> PatternGroup(url, q).None?
    decreases 4 - p
  {
    if p == 4 then None
    else if PatternGroup(url, p).Some? then PatternGroup(url, p)
    else FirstPatternFrom(url, p + 1)
  }

  /**
   * `extract_video_id`; `None` stands for the `ValueError` it raises. A result is
   * always eleven id characters, namely the group of the first pattern that
   * matches; the error is raised exactly when no pattern matches.
   */
  function ExtractVideoId(url: string): (r: Option<string>)
    ensures r.Some? ==> IsVideoId(r.value)
    ensures r.Some? ==> exists p :: 0 <= p < 4 && PatternGroup(url, p) == r &&
                                    forall e :: 0 <= e < p ==> PatternGroup(url, e).None?
    ensures r.None? <==> forall p :: 0 <= p < 4 ==> PatternGroup(url, p).None?
  {
    FirstPatternFrom(url, 0)
  }

  /** Every alternative of the first three patterns holds a character outside the id class. */
  lemma PatternsNeedPunctuation(p: nat)
    requires p < 3
    ensures forall k :: 0 <= k < |ID_PATTERNS[p]| ==> !IsIdString(ID_PATTERNS[p][k])
  {
    assert !IsIdChar('=') && !IsIdChar('/') && !IsIdChar('.');
    assert !IsIdString("v=") by { assert "v="[1] == '='; }
    assert !IsIdString("/v/") by { assert "/v/"[0] == '/'; }
    assert !IsIdString("youtu.be/") by { assert "youtu.be/"[5] == '.'; }
    assert !IsIdString("embed/") by { assert "embed/"[5] == '/'; }
    assert !IsIdString("live/") by { assert "live/"[4] == '/'; }
  }

  /** A bare id, with or without one trailing newline, is accepted as itself by the last pattern. */
  lemma BareIdAccepted(id: string, newline: bool)
    requires IsVideoId(id)
    ensures ExtractVideoId(if newline then id + "\n" else id) == Some(id)
  {
    var url := if newline then id + "\n" else id;
    assert url[..11] == id;
    forall p | 0 <= p < 3 ensures PatternGroup(url, p).None? {
      PatternsNeedPunctuation(p);
      if newline {
        assert forall k :: 0 <= k < |ID_PATTERNS[p]| ==> |ID_PATTERNS[p][k]| > 0;
        forall j, k | 0 <= j <= |url| && 0 <= k < |ID_PATTERNS[p]|
          ensures !AltAt(url, j, ID_PATTERNS[p][k], Exactly(11))
        {
        }
      } else {
        NoMatchInIdString(url, ID_PATTERNS[p], Exactly(11));
      }
    }
  }

  /**
   * When an alternative of the first pattern starts at `p0` with eleven id
   * characters after it, and no alternative matches earlier, those eleven
   * characters are the result.
   */
  lemma FirstPatternAt(url: string, p0: nat, k: nat, id: string)
    requires k < 3 && PrefixAt(url, p0, ID_PATTERNS[0][k])
    requires IsVideoId(id)
    requires p0 + |ID_PATTERNS[0][k]| + 11 <= |url|
    requires url[p0 + |ID_PATTERNS[0][k]|..p0 + |ID_PATTERNS[0][k]| + 11] == id
    requires forall j :: 0 <= j < p0 ==> !AnyAltAt(url, j, ID_PATTERNS[0], Exactly(11))
    ensures ExtractVideoId(url) == Some(id)
  {
    var alts := ID_PATTERNS[0];
    var q := p0 + |alts[k]|;
    assert AltAt(url, p0, alts[k], Exactly(11)) by {
      assert forall m :: q <= m < q + 11 ==> url[m] == id[m - q];
    }
    var m := FirstPatternSearch(url, p0, k);
    FirstPatternWins(url, m);
  }

  /** The leftmost place where an alternative of the first pattern applies gives the search's match. */
  lemma FirstPatternSearch(url: string, p0: nat, k: nat) returns (m: Match)
    requires k < 3 && AltAt(url, p0, ID_PATTERNS[0][k], Exactly(11))
    requires forall j :: 0 <= j < p0 ==> !AnyAltAt(url, j, ID_PATTERNS[0], Exactly(11))
    ensures m == Match(p0, k, Group(url, p0 + |ID_PATTERNS[0][k]|, Exactly(11)))
    ensures Search(url, ID_PATTERNS[0], Exactly(11)) == Some(m)
  {
    var alts := ID_PATTERNS[0];
    m := Match(p0, k, Group(url, p0 + |alts[k]|, Exactly(11)));
    FirstAlternativeDecided(url, p0, k);
    LeftmostFromFinds(url, alts, Exactly(11), 0, p0);
    SearchFromParts(url, alts, Exactly(11), p0, k);
  }

  /** A match of the first pattern decides the result: its group. */
  lemma FirstPatternWins(url: string, m: Match)
    requires Search(url, ID_PATTERNS[0], Exactly(11)) == Some(m)
    ensures ExtractVideoId(url) == Some(m.group)
  {
    assert PatternGroup(url, 0) == Some(m.group);
  }

  /** The alternatives of the first pattern start with different characters, so at most one applies. */
  lemma FirstAlternativeDecided(url: string, p0: nat, k: nat)
    requires k < 3 && AltAt(url, p0, ID_PATTERNS[0][k], Exactly(11))
    ensures FirstAltAt(url, p0, ID_PATTERNS[0], Exactly(11), 0) == Some(k)
  {
    var alts := ID_PATTERNS[0];
    assert alts[0][0] == 'v' && alts[1][0] == '/' && alts[2][0] == 'y';
    assert url[p0] == alts[k][0];
    forall j | 0 <= j < k ensures !AltAt(url, p0, alts[j], Exactly(11)) {
      assert alts[j][0] != alts[k][0];
    }
  }

  /** No alternative of the first pattern starts on a character other than `v`, `/` or `y`. */
  lemma FirstPatternLeads(url: string, j: nat)
    requires j < |url| && url[j] != 'v' && url[j] != '/' && url[j] != 'y'
    ensures !AnyAltAt(url, j, ID_PATTERNS[0], Exactly(11))
  {
    var alts := ID_PATTERNS[0];
    assert alts[0][0] == 'v' && alts[1][0] == '/' && alts[2][0] == 'y';
  }

  /**
   * The character at `j` of `pre` cannot begin an alternative of the first
   * pattern: a `v` is not followed by `=`, a `y` is not followed by `outu.`,
   * and a `/` is followed by something other than `v` (or ends `pre`).
   */
  predicate LeadStopped(pre: string, j: nat)
    requires j < |pre|
  {
    && (pre[j] == 'v' ==> j + 1 < |pre| && pre[j + 1] != '=')
    && (pre[j] == '/' ==> j + 1 == |pre| || pre[j + 1] != 'v')
    && (pre[j] == 'y' ==> j + 5 < |pre| && pre[j + 5] != '.')
  }

  predicate StopsEveryLead(pre: string) {
    forall j :: 0 <= j < |pre| ==> LeadStopped(pre, j)
  }

  /**
   * Such a prefix holds no match of the first pattern, whatever follows it,
   * as long as a final `/` is not followed by `v`.
   */
  lemma NoFirstPatternIn(pre: string, tail: string)
    requires StopsEveryLead(pre)
    requires pre != [] && pre[|pre| - 1] == '/' ==> tail != [] && tail[0] != 'v'
    ensures forall j :: 0 <= j < |pre| ==> !AnyAltAt(pre + tail, j, ID_PATTERNS[0], Exactly(11))
  {
    var url := pre + tail;
    var alts := ID_PATTERNS[0];
    forall j | 0 <= j < |pre| ensures !AnyAltAt(url, j, alts, Exactly(11)) {
      assert url[j] == pre[j];
      assert LeadStopped(pre, j);
      if url[j] == 'v' || url[j] == '/' || url[j] == 'y' {
        forall k | 0 <= k < 3 ensures !PrefixAt(url, j, alts[k]) {
          if k == 0 && url[j] == 'v' {
            assert url[j + 1] == pre[j + 1];
          } else if k == 1 && url[j] == '/' {
            if j + 1 < |pre| {
              assert url[j + 1] == pre[j + 1];
            } else {
              assert url[j + 1] == tail[0];
            }
          } else if k == 2 && url[j] == 'y' {
            assert url[j + 5] == pre[j + 5];
          }
        }
      } else {
        FirstPatternLeads(url, j);
      }
    }
  }

  /** Pieces of the links of the test suite. */
  const SCHEME: string := "https://"
  const WWW_HOST: string := "www.youtube.com"
  const BARE_HOST: string := "youtube.com"
  const WATCH_PATH: string := "/watch?"

  /** Joining two clean pieces stays clean unless a final `/` meets a `v`. */
  lemma StopsConcat(a: string, b: string)
    requires StopsEveryLead(a) && StopsEveryLead(b)
    requires a != [] && a[|a| - 1] == '/' ==> b != [] && b[0] != 'v'
    ensures StopsEveryLead(a + b)
  {
    var s := a + b;
    forall j | 0 <= j < |s| ensures LeadStopped(s, j) {
      if j < |a| {
        assert LeadStopped(a, j);
        if j + 1 < |a| {
          assert s[j + 1] == a[j + 1];
        } else if b != [] {
          assert s[j + 1] == b[0];
        }
        if j + 5 < |a| {
          assert s[j + 5] == a[j + 5];
        }
      } else {
        assert LeadStopped(b, j - |a|);
        assert forall m :: |a| <= m < |s| ==> s[m] == b[m - |a|];
      }
    }
  }

  lemma SchemeStops()
    ensures StopsEveryLead(SCHEME)
  {
    forall j | 0 <= j < |SCHEME| ensures LeadStopped(SCHEME, j) {
    }
  }

  lemma HostsStop()
    ensures StopsEveryLead(WWW_HOST) && StopsEveryLead(BARE_HOST)
  {
    forall j | 0 <= j < |WWW_HOST| ensures LeadStopped(WWW_HOST, j) {
    }
    forall j | 0 <= j < |BARE_HOST| ensures LeadStopped(BARE_HOST, j) {
    }
  }

  lemma WatchPathStops()
    ensures StopsEveryLead(WATCH_PATH)
  {
    forall j | 0 <= j < |WATCH_PATH| ensures LeadStopped(WATCH_PATH, j) {
    }
  }

  /** The links of the test suite that the first pattern recognises, each followed by the id. */
  const LINK_FORMS: seq<string> := [
    SCHEME + WWW_HOST + WATCH_PATH + "v=",
    SCHEME + "youtu.be/",
    SCHEME + WWW_HOST + "/v/",
    SCHEME + BARE_HOST + WATCH_PATH + "v="
  ]

  /** Each link form is a clean prefix followed by an alternative of the first pattern. */
  lemma LinkSpelling(f: nat) returns (pre: string, k: nat)
    requires f < |LINK_FORMS|
    ensures k < 3 && LINK_FORMS[f] == pre + ID_PATTERNS[0][k] && StopsEveryLead(pre)
    ensures pre != [] && pre[|pre| - 1] == '/' ==> ID_PATTERNS[0][k][0] != 'v'
  {
    SchemeStops();
    HostsStop();
    WatchPathStops();
    if f == 0 || f == 2 {
      StopsConcat(SCHEME, WWW_HOST);
      if f == 0 {
        StopsConcat(SCHEME + WWW_HOST, WATCH_PATH);
        pre, k := SCHEME + WWW_HOST + WATCH_PATH, 0;
      } else {
        pre, k := SCHEME + WWW_HOST, 1;
      }
    } else if f == 1 {
      pre, k := SCHEME, 2;
    } else {
      StopsConcat(SCHEME, BARE_HOST);
      StopsConcat(SCHEME + BARE_HOST, WATCH_PATH);
      pre, k := SCHEME + BARE_HOST + WATCH_PATH, 0;
    }
  }

  /** Each link form yields the id that follows it, whatever comes after the id. */
  lemma LinkFormsExtracted(f: nat, id: string, rest: string)
    requires f < |LINK_FORMS|
    requires IsVideoId(id)
    ensures ExtractVideoId(LINK_FORMS[f] + id + rest) == Some(id)
  {
    var pre, k := LinkSpelling(f);
    var alt := ID_PATTERNS[0][k];
    var tail := alt + id + rest;
    var url := pre + tail;
    assert LINK_FORMS[f] + id + rest == url;
    NoFirstPatternIn(pre, tail);
    assert url[|pre|..|pre| + |alt|] == alt;
    assert url[|pre| + |alt|..|pre| + |alt| + 11] == id;
    FirstPatternAt(url, |pre|, k, id);
  }

  /** Eleven id characters must follow an alternative, so nothing matches within the last twelve positions. */
  lemma NoMatchNearEnd(url: string, p: nat, j: nat)
    requires p < 3 && forall k :: 0 <= k < |ID_PATTERNS[p]| ==> |url| < j + |ID_PATTERNS[p][k]| + 11
    ensures !AnyAltAt(url, j, ID_PATTERNS[p], Exactly(11))
  {
  }

  /** Every `c` in `pre` is followed, within `pre`, by something other than `d`. */
  predicate PairStopped(pre: string, c: char, d: char) {
    forall j :: 0 <= j < |pre| ==> PairStoppedAt(pre, j, c, d)
  }

  predicate PairStoppedAt(pre: string, j: nat, c: char, d: char)
    requires j < |pre|
  {
    pre[j] == c ==> j + 1 < |pre| && pre[j + 1] != d
  }

  /** A single-alternative pattern cannot match inside such a prefix. */
  lemma NoSingleAltIn(pre: string, tail: string, p: nat)
    requires 0 < p < 3
    requires PairStopped(pre, ID_PATTERNS[p][0][0], ID_PATTERNS[p][0][1])
    ensures forall j :: 0 <= j < |pre| ==> !AnyAltAt(pre + tail, j, ID_PATTERNS[p], Exactly(11))
  {
    var alt := ID_PATTERNS[p][0];
    forall j | 0 <= j < |pre| ensures !AnyAltAt(pre + tail, j, ID_PATTERNS[p], Exactly(11)) {
      assert PairStoppedAt(pre, j, alt[0], alt[1]);
      if pre[j] == alt[0] {
        assert (pre + tail)[j + 1] == pre[j + 1];
      }
    }
  }

  /** Joining two pieces in which every `c` is followed by something other than `d` keeps that so. */
  lemma PairConcat(a: string, b: string, c: char, d: char)
    requires PairStopped(a, c, d) && PairStopped(b, c, d)
    ensures PairStopped(a + b, c, d)
  {
    var s := a + b;
    forall j | 0 <= j < |s| ensures PairStoppedAt(s, j, c, d) {
      if j < |a| {
        assert PairStoppedAt(a, j, c, d);
      } else {
        assert PairStoppedAt(b, j - |a|, c, d);
        assert s[j] == b[j - |a|];
      }
    }
  }

  /** Neither `e` then `m` nor `l` then `i` occurs in the scheme and host of the later forms. */
  lemma LaterHostPairs()
    ensures PairStopped(SCHEME + WWW_HOST + "/", 'e', 'm') && PairStopped(SCHEME + WWW_HOST + "/", 'l', 'i')
  {
    forall j | 0 <= j < |SCHEME| ensures PairStoppedAt(SCHEME, j, 'e', 'm') && PairStoppedAt(SCHEME, j, 'l', 'i') {
    }
    forall j | 0 <= j < |WWW_HOST| ensures PairStoppedAt(WWW_HOST, j, 'e', 'm') && PairStoppedAt(WWW_HOST, j, 'l', 'i') {
    }
    assert PairStoppedAt("/", 0, 'e', 'm') && PairStoppedAt("/", 0, 'l', 'i');
    PairConcat(SCHEME, WWW_HOST, 'e', 'm');
    PairConcat(SCHEME + WWW_HOST, "/", 'e', 'm');
    PairConcat(SCHEME, WWW_HOST, 'l', 'i');
    PairConcat(SCHEME + WWW_HOST, "/", 'l', 'i');
  }

  /**
   * The embedded-player and live links `https://www.youtube.com/embed/` and
   * `https://www.youtube.com/live/`, which only the second and third patterns recognise.
   */
  const LATER_FORMS: seq<string> := [SCHEME + WWW_HOST + "/" + ID_PATTERNS[1][0], SCHEME + WWW_HOST + "/" + ID_PATTERNS[2][0]]

  lemma LaterSpelling(f: nat) returns (host: string, name: string)
    requires f < |LATER_FORMS|
    ensures LATER_FORMS[f] == host + ID_PATTERNS[f + 1][0] && ID_PATTERNS[f + 1][0] == name + "/"
    ensures PairStopped(host, ID_PATTERNS[f + 1][0][0], ID_PATTERNS[f + 1][0][1])
    ensures StopsEveryLead(host + name) && PairStopped(host, 'e', 'm')
  {
    host := SCHEME + WWW_HOST + "/";
    name := if f == 0 then "embed" else "live";
    LaterFormSplits(f, host, name);
    LaterHostPairs();
    HostAndNameStop(name);
  }

  lemma LaterFormSplits(f: nat, host: string, name: string)
    requires f < |LATER_FORMS| && host == SCHEME + WWW_HOST + "/"
    requires name == if f == 0 then "embed" else "live"
    ensures LATER_FORMS[f] == host + ID_PATTERNS[f + 1][0] && ID_PATTERNS[f + 1][0] == name + "/"
  {
    assert ID_PATTERNS[f + 1][0] == name + "/";
  }

  lemma HostAndNameStop(name: string)
    requires name == "embed" || name == "live"
    ensures StopsEveryLead(SCHEME + WWW_HOST + "/" + name)
  {
    SchemeStops();
    HostsStop();
    StopsConcat(SCHEME, WWW_HOST);
    assert LeadStopped("/", 0);
    StopsConcat(SCHEME + WWW_HOST, "/");
    forall j | 0 <= j < |name| ensures LeadStopped(name, j) {
    }
    StopsConcat(SCHEME + WWW_HOST + "/", name);
  }

  /** The first pattern finds nothing in a later-form link followed by exactly an id. */
  lemma LaterFormMissesFirst(host: string, name: string, id: string)
    requires StopsEveryLead(host + name) && IsVideoId(id)
    ensures PatternGroup(host + name + "/" + id, 0).None?
  {
    var url := host + name + "/" + id;
    assert url == (host + name) + ("/" + id);
    NoFirstPatternIn(host + name, "/" + id);
    forall j | |host + name| <= j <= |url| ensures !AnyAltAt(url, j, ID_PATTERNS[0], Exactly(11)) {
      assert forall k :: 0 <= k < 3 ==> |ID_PATTERNS[0][k]| >= 2;
      NoMatchNearEnd(url, 0, j);
    }
  }

  /** The alternative of a later pattern, followed by an id, matches right after `host`. */
  lemma LaterFormMatches(host: string, p: nat, id: string)
    requires 0 < p < 3 && IsVideoId(id)
    ensures AltAt(host + ID_PATTERNS[p][0] + id, |host|, ID_PATTERNS[p][0], Exactly(11))
    ensures Group(host + ID_PATTERNS[p][0] + id, |host| + |ID_PATTERNS[p][0]|, Exactly(11)) == id
  {
    var alt := ID_PATTERNS[p][0];
    var url := host + alt + id;
    var q := |host| + |alt|;
    assert url[|host|..q] == alt;
    assert url[q..q + 11] == id;
    assert forall m :: q <= m < q + 11 ==> url[m] == id[m - q];
  }

  /** The later pattern of a form finds the id right after its alternative. */
  lemma LaterFormFound(host: string, p: nat, id: string)
    requires 0 < p < 3 && IsVideoId(id)
    requires PairStopped(host, ID_PATTERNS[p][0][0], ID_PATTERNS[p][0][1])
    ensures PatternGroup(host + ID_PATTERNS[p][0] + id, p) == Some(id)
  {
    var alt := ID_PATTERNS[p][0];
    var url := host + alt + id;
    assert ID_PATTERNS[p] == [alt];
    LaterFormMatches(host, p, id);
    assert url == host + (alt + id);
    NoSingleAltIn(host, alt + id, p);
    SearchOnlyAlternative(url, ID_PATTERNS[p], Exactly(11), |host|);
  }

  /** The `embed/` pattern finds nothing in a live link followed by exactly an id. */
  lemma LiveFormMissesEmbed(host: string, id: string)
    requires PairStopped(host, 'e', 'm') && IsVideoId(id)
    ensures PatternGroup(host + "live/" + id, 1).None?
  {
    var url := host + "live/" + id;
    assert url == host + ("live/" + id);
    assert ID_PATTERNS[1][0] == "embed/";
    NoSingleAltIn(host, "live/" + id, 1);
    assert !PrefixAt(url, |host|, ID_PATTERNS[1][0]) by {
      assert url[|host|] == 'l';
    }
    forall j | |host| < j <= |url| ensures !AnyAltAt(url, j, ID_PATTERNS[1], Exactly(11)) {
      assert |ID_PATTERNS[1][0]| == 6;
      NoMatchNearEnd(url, 1, j);
    }
  }

  /**
   * An `embed/` or `live/` link followed by exactly an id is not matched by the
   * first pattern, so the later pattern for that form supplies the id.
   */
  lemma LaterFormsExtracted(f: nat, id: string)
    requires f < |LATER_FORMS|
    requires IsVideoId(id)
    ensures ExtractVideoId(LATER_FORMS[f] + id) == Some(id)
  {
    var host, name := LaterSpelling(f);
    var url := host + name + "/" + id;
    assert LATER_FORMS[f] + id == url;
    LaterFormMissesFirst(host, name, id);
    if f == 1 {
      LiveFormMissesEmbed(host, id);
    }
    LaterFormFound(host, f + 1, id);
    assert url == host + ID_PATTERNS[f + 1][0] + id;
  }

  /** Every alternative of the first three patterns ends in `=` or `/`. */
  lemma AlternativesEndInPunctuation(p: nat, k: nat)
    requires p < 3 && k < |ID_PATTERNS[p]|
    ensures |ID_PATTERNS[p][k]| > 0
    ensures ID_PATTERNS[p][k][|ID_PATTERNS[p][k]| - 1] in "=/"
  {
  }

  /**
   * Text with no `/` and no `=` that is neither eleven nor twelve characters long
   * matches no pattern, so extraction raises; `not_a_url` is such a text.
   */
  lemma NoPunctuationRejected(url: string)
    requires '/' !in url && '=' !in url
    requires |url| != 11 && |url| != 12
    ensures ExtractVideoId(url) == None
  {
    forall p | 0 <= p < 3 ensures PatternGroup(url, p).None? {
      forall j, k | 0 <= j <= |url| && 0 <= k < |ID_PATTERNS[p]|
        ensures !AltAt(url, j, ID_PATTERNS[p][k], Exactly(11))
      {
        AlternativesEndInPunctuation(p, k);
      }
    }
  }

  lemma NotAUrlRejected()
    ensures ExtractVideoId("not_a_url") == None
  {
    NoPunctuationRejected("not_a_url");
  }

  /*
   * Chapters: `sorted(chapters, key=start_seconds)`, then each snippet goes to
   * the last chapter, in that order, whose start is at most the snippet's start.
   */

  predicate SortedByStart(cs: seq<Chapter>) {
    forall i, j :: 0 <= i < j < |cs| ==> cs[i].startSeconds <= cs[j].startSeconds
  }

  /** A chapter that starts no later than the head of a sorted list keeps it sorted in front. */
  lemma SortedCons(c: Chapter, cs: seq<Chapter>)
    requires SortedByStart(cs)
    requires cs != [] ==> c.startSeconds <= cs[0].startSeconds
    ensures SortedByStart([c] + cs)
  {
    var r := [c] + cs;
    forall i, j | 0 <= i < j < |r| ensures r[i].startSeconds <= r[j].startSeconds {
      if i == 0 && j > 1 {
        assert cs[0].startSeconds <= cs[j - 1].startSeconds;
      }
    }
  }

  /** Inserts `c` before the first chapter that does not start earlier, as a stable sort does. */
  function InsertByStart(c: Chapter, cs: seq<Chapter>): (r: seq<Chapter>)
    requires SortedByStart(cs)
    ensures |r| == |cs| + 1
    ensures SortedByStart(r)
    ensures multiset(r) == multiset(cs) + multiset{c}
    ensures r[0] == c || (cs != [] && r[0] == cs[0])
  {
    if cs == [] || c.startSeconds <= cs[0].startSeconds then
      SortedCons(c, cs);
      [c] + cs
    else
      var rest := InsertByStart(c, cs[1..]);
      assert multiset(cs) == multiset{cs[0]} + multiset(cs[1..]) by {
        assert cs == [cs[0]] + cs[1..];
      }
      SortedCons(cs[0], rest);
      [cs[0]] + rest
  }

  /** `sorted(chapters, key=lambda x: x['start_seconds'])`: ascending starts, same chapters. */
  function SortByStart(cs: seq<Chapter>): (r: seq<Chapter>)
    ensures |r| == |cs|
    ensures SortedByStart(r)
    ensures multiset(r) == multiset(cs)
  {
    if cs == [] then []
    else
      assert cs == [cs[0]] + cs[1..];
      InsertByStart(cs[0], SortByStart(cs[1..]))
  }

  /**
   * How many chapters, from the front, start no later than `t`: the inner loop
   * of the bucketing keeps moving while this holds and breaks at the first that does not.
   */
  function LeadCount(cs: seq<Chapter>, t: real): (n: nat)
    ensures n <= |cs|
    ensures forall i :: 0 <= i < n ==> cs[i].startSeconds <= t
    ensures n < |cs| ==> t < cs[n].startSeconds
  {
    if cs == [] || t < cs[0].startSeconds then 0 else 1 + LeadCount(cs[1..], t)
  }

  /** The chapter a snippet starting at `t` goes to: the last one counted, or the first if none is. */
  function OwnerIndex(cs: seq<Chapter>, t: real): (i: nat)
    requires cs != []
    ensures i < |cs|
  {
    var n := LeadCount(cs, t);
    if n == 0 then 0 else n - 1
  }

  function OwnerTitle(cs: seq<Chapter>, t: real): string
    requires cs != []
  {
    cs[OwnerIndex(cs, t)].title
  }

  /** The snippets, in transcript order, whose owning chapter is titled `title`. */
  function Owned(cs: seq<Chapter>, items: seq<Item>, title: string): seq<Item>
    requires cs != []
  {
    if items == [] then []
    else
      var last := items[|items| - 1];
      Owned(cs, items[..|items| - 1], title) + if OwnerTitle(cs, last.start) == title then [last] else []
  }

  function Titles(cs: seq<Chapter>): set<string> {
    set c | c in cs :: c.title
  }

  /** The dictionary of buckets: one key per distinct title, each holding the snippets it owns. */
  function Buckets(cs: seq<Chapter>, items: seq<Item>): map<string, seq<Item>>
    requires cs != []
  {
    map title | title in Titles(cs) :: Owned(cs, items, title)
  }

  /** One more snippet is appended to exactly the bucket of its owning chapter. */
  lemma BucketsSnoc(cs: seq<Chapter>, items: seq<Item>, x: Item)
    requires cs != []
    ensures OwnerTitle(cs, x.start) in Buckets(cs, items)
    ensures Buckets(cs, items + [x]) ==
              Buckets(cs, items)[OwnerTitle(cs, x.start) := Buckets(cs, items)[OwnerTitle(cs, x.start)] + [x]]
  {
    var owner := OwnerTitle(cs, x.start);
    assert cs[OwnerIndex(cs, x.start)] in cs;
    assert owner in Titles(cs);
    assert (items + [x])[..|items|] == items;
    var before := Buckets(cs, items);
    var after := Buckets(cs, items + [x]);
    forall title | title in Titles(cs)
      ensures after[title] == before[owner := before[owner] + [x]][title]
    {
    }
  }

  /** Before any snippet, every bucket is empty. */
  lemma BucketsStartEmpty(cs: seq<Chapter>)
    requires cs != []
    ensures Buckets(cs, []) == map title | title in Titles(cs) :: []
  {
  }

  /**
   * When the inner loop stops at `j` (all chapters before `j` start no later than
   * `t`, and `j` is the end or starts later), the title it holds is the owner's.
   */
  lemma InnerLoopFindsOwner(cs: seq<Chapter>, t: real, j: nat)
    requires cs != [] && j <= |cs|
    requires forall i :: 0 <= i < j ==> cs[i].startSeconds <= t
    requires j < |cs| ==> t < cs[j].startSeconds
    ensures OwnerTitle(cs, t) == cs[if j == 0 then 0 else j - 1].title
  {
    assert LeadCount(cs, t) == j;
  }

  /** Appending snippet `n` to its owner's bucket keeps the dictionary equal to the buckets of the first `n + 1` snippets. */
  lemma BucketStep(cs: seq<Chapter>, transcript: seq<Item>, n: nat, buckets: map<string, seq<Item>>, title: string)
    requires cs != [] && n < |transcript| && buckets == Buckets(cs, transcript[..n])
    requires title == OwnerTitle(cs, transcript[n].start)
    ensures title in buckets
    ensures buckets[title := buckets[title] + [transcript[n]]] == Buckets(cs, transcript[..n + 1])
  {
    assert transcript[..n + 1] == transcript[..n] + [transcript[n]];
    BucketsSnoc(cs, transcript[..n], transcript[n]);
  }

  /**
   * `assign_transcript_to_chapters`: with no chapters, the single bucket `''`
   * holding the transcript unchanged; otherwise the buckets of the sorted chapters.
   */
  method AssignTranscriptToChapters(transcript: seq<Item>, chapters: seq<Chapter>)
    returns (result: map<string, seq<Item>>)
    ensures chapters == [] ==> result == map["" := transcript]
    ensures chapters != [] ==> result == Buckets(SortByStart(chapters), transcript)
  {
    if chapters == [] {
      return map["" := transcript];
    }
    var sorted := SortByStart(chapters);
    result := map title | title in Titles(sorted) :: [];
    BucketsStartEmpty(sorted);
    assert transcript[..0] == [];
    for n := 0 to |transcript|
      invariant result == Buckets(sorted, transcript[..n])
    {
      var snippet := transcript[n];
      var title := ChapterTitleFor(sorted, snippet.start);
      BucketStep(sorted, transcript, n, result, title);
      result := result[title := result[title] + [snippet]];
    }
    assert transcript[..|transcript|] == transcript;
  }

  /**
   * The inner loop of `assign_transcript_to_chapters`: the title of the last
   * chapter, in order, that starts no later than `t`, or the first chapter's.
   */
  method ChapterTitleFor(sorted: seq<Chapter>, t: real) returns (title: string)
    requires sorted != []
    ensures title == OwnerTitle(sorted, t)
  {
    title := sorted[0].title;
    var j := 0;
    while j < |sorted|
      invariant j <= |sorted|
      invariant forall i :: 0 <= i < j ==> sorted[i].startSeconds <= t
      invariant title == sorted[if j == 0 then 0 else j - 1].title
    {
      if t >= sorted[j].startSeconds {
        title := sorted[j].title;
      } else {
        break;
      }
      j := j + 1;
    }
    InnerLoopFindsOwner(sorted, t, j);
  }

  /**
   * With chapters sorted by start, a snippet's owner is the last chapter that
   * starts no later than it; a snippet earlier than every chapter goes to the first.
   */
  lemma OwnerIsLastStarted(cs: seq<Chapter>, t: real)
    requires cs != [] && SortedByStart(cs)
    ensures (exists k :: 0 <= k < |cs| && cs[k].startSeconds <= t) ==>
              && cs[OwnerIndex(cs, t)].startSeconds <= t
              && forall k :: OwnerIndex(cs, t) < k < |cs| ==> t < cs[k].startSeconds
    ensures (forall k :: 0 <= k < |cs| ==> t < cs[k].startSeconds) ==> OwnerIndex(cs, t) == 0
  {
    var n := LeadCount(cs, t);
    if n < |cs| {
      forall k | n < k < |cs| ensures t < cs[k].startSeconds {
        assert cs[n].startSeconds <= cs[k].startSeconds;
      }
    }
    if n == 0 {
      forall k | 0 <= k < |cs| ensures t < cs[k].startSeconds {
        assert cs[0].startSeconds <= cs[k].startSeconds || k == 0;
      }
    }
  }

  /** Buckets keep transcript order: the bucket of a concatenation is the concatenation of the buckets. */
  lemma {:induction false} OwnedAppend(cs: seq<Chapter>, a: seq<Item>, b: seq<Item>, title: string)
    requires cs != []
    ensures Owned(cs, a + b, title) == Owned(cs, a, title) + Owned(cs, b, title)
  {
    if b == [] {
      assert a + b == a;
    } else {
      var last := b[|b| - 1];
      var init := b[..|b| - 1];
      assert (a + b)[..|a + b| - 1] == a + init;
      OwnedAppend(cs, a, init, title);
    }
  }

  /** A snippet is in a bucket exactly when it is in the transcript and that bucket's title is its owner's. */
  lemma {:induction false} OwnedMembers(cs: seq<Chapter>, items: seq<Item>, title: string, x: Item)
    requires cs != []
    ensures x in Owned(cs, items, title) <==> x in items && OwnerTitle(cs, x.start) == title
  {
    if items != [] {
      var init := items[..|items| - 1];
      OwnedMembers(cs, init, title, x);
      assert items == init + [items[|items| - 1]];
    }
  }

  predicate DistinctTitles(cs: seq<Chapter>) {
    forall i, j :: 0 <= i < j < |cs| ==> cs[i].title != cs[j].title
  }

  /** The sizes of the buckets named by the chapters, added up chapter by chapter. */
  function BucketTotal(buckets: map<string, seq<Item>>, cs: seq<Chapter>): nat {
    if cs == [] then 0
    else (if cs[0].title in buckets then |buckets[cs[0].title]| else 0) + BucketTotal(buckets, cs[1..])
  }

  /** How many chapters carry `title`. */
  function TitleCount(cs: seq<Chapter>, title: string): nat {
    if cs == [] then 0 else (if cs[0].title == title then 1 else 0) + TitleCount(cs[1..], title)
  }

  lemma {:induction false} TitleCountDistinct(cs: seq<Chapter>, k: nat)
    requires DistinctTitles(cs) && k < |cs|
    ensures TitleCount(cs, cs[k].title) == 1
  {
    if k == 0 {
      TitleCountAbsent(cs[1..], cs[0].title);
    } else {
      TitleCountDistinct(cs[1..], k - 1);
    }
  }

  lemma {:induction false} TitleCountAbsent(cs: seq<Chapter>, title: string)
    requires forall i :: 0 <= i < |cs| ==> cs[i].title != title
    ensures TitleCount(cs, title) == 0
  {
    if cs != [] {
      TitleCountAbsent(cs[1..], title);
    }
  }

  /** Appending to one bucket adds one to the total for every chapter carrying its title. */
  lemma {:induction false} BucketTotalUpdate(buckets: map<string, seq<Item>>, cs: seq<Chapter>, title: string, x: Item)
    requires title in buckets
    ensures BucketTotal(buckets[title := buckets[title] + [x]], cs) == BucketTotal(buckets, cs) + TitleCount(cs, title)
  {
    if cs != [] {
      BucketTotalUpdate(buckets, cs[1..], title, x);
    }
  }

  lemma {:induction false} BucketTotalEmpty(buckets: map<string, seq<Item>>, cs: seq<Chapter>)
    requires forall title :: title in buckets ==> buckets[title] == []
    ensures BucketTotal(buckets, cs) == 0
  {
    if cs != [] {
      BucketTotalEmpty(buckets, cs[1..]);
    }
  }

  /**
   * Every snippet lands in exactly one bucket: with pairwise distinct chapter
   * titles, the bucket sizes add up to the length of the transcript.
   */
  lemma {:induction false} BucketSizesSum(chapters: seq<Chapter>, transcript: seq<Item>)
    requires chapters != [] && DistinctTitles(chapters)
    ensures BucketTotal(Buckets(SortByStart(chapters), transcript), chapters) == |transcript|
  {
    var sorted := SortByStart(chapters);
    if transcript == [] {
      BucketsStartEmpty(sorted);
      BucketTotalEmpty(Buckets(sorted, []), chapters);
    } else {
      var init := transcript[..|transcript| - 1];
      var x := transcript[|transcript| - 1];
      assert transcript == init + [x];
      BucketSizesSum(chapters, init);
      BucketsSnoc(sorted, init, x);
      var owner := sorted[OwnerIndex(sorted, x.start)];
      assert owner in multiset(chapters);
      var k :| 0 <= k < |chapters| && chapters[k] == owner;
      TitleCountDistinct(chapters, k);
      BucketTotalUpdate(Buckets(sorted, init), chapters, owner.title, x);
    }
  }

  /*
   * Markdown: one `## title` section per chapter, in ascending start order,
   * for the chapters whose bucket is non-empty; the whole transcript as one
   * paragraph when there are no chapters. The video title is not used.
   */

  /** `chapter_transcripts.get(title, [])`. */
  function BucketOf(buckets: map<string, seq<Item>>, title: string): seq<Item> {
    if title in buckets then buckets[title] else []
  }

  /** `f"## {title}"`. */
  function Heading(title: string): string {
    "## " + title
  }

  /** The lines a chapter contributes: heading, blank, its texts joined by spaces, blank; none for an empty bucket. */
  function Section(title: string, bucket: seq<Item>): seq<string> {
    if bucket == [] then [] else [Heading(title), "", JoinTexts(bucket), ""]
  }

  /** The lines of the chapters `cs`, in order. */
  function SectionLines(cs: seq<Chapter>, buckets: map<string, seq<Item>>): seq<string> {
    if cs == [] then []
    else
      var last := cs[|cs| - 1];
      SectionLines(cs[..|cs| - 1], buckets) + Section(last.title, BucketOf(buckets, last.title))
  }

  lemma SectionLinesSnoc(cs: seq<Chapter>, c: Chapter, buckets: map<string, seq<Item>>)
    ensures SectionLines(cs + [c], buckets) == SectionLines(cs, buckets) + Section(c.title, BucketOf(buckets, c.title))
  {
    assert (cs + [c])[..|cs|] == cs;
  }

  /**
   * One iteration of the rendering loop: chapter `i` adds its heading, a blank
   * line, its paragraph and a blank line when its bucket is not empty, and nothing otherwise.
   */
  lemma SectionLinesStep(cs: seq<Chapter>, i: nat, buckets: map<string, seq<Item>>)
    requires i < |cs|
    ensures var bucket := BucketOf(buckets, cs[i].title);
      SectionLines(cs[..i + 1], buckets) ==
        if bucket == [] then SectionLines(cs[..i], buckets)
        else SectionLines(cs[..i], buckets) + [Heading(cs[i].title)] + [""] + [JoinTexts(bucket)] + [""]
  {
    var bucket := BucketOf(buckets, cs[i].title);
    var before := SectionLines(cs[..i], buckets);
    assert SectionLines(cs[..i + 1], buckets) == before + Section(cs[i].title, bucket) by {
      assert cs[..i + 1] == cs[..i] + [cs[i]];
      SectionLinesSnoc(cs[..i], cs[i], buckets);
    }
    if bucket != [] {
      SectionAppended(before, cs[i].title, bucket);
    }
  }

  /** Appending the four lines of a non-empty bucket one by one appends its section. */
  lemma SectionAppended(lines: seq<string>, title: string, bucket: seq<Item>)
    requires bucket != []
    ensures lines + [Heading(title)] + [""] + [JoinTexts(bucket)] + [""] == lines + Section(title, bucket)
  {
  }

  /** Two lines, the second blank, join to the first and a newline. */
  lemma ParagraphLines(text: string)
    ensures Join([text, ""], "\n") == text + "\n"
  {
    assert [text, ""][1..] == [""];
  }

  /**
   * `generate_markdown`: without chapters, the space-joined texts and a final
   * newline; with chapters, the sections of the sorted chapters joined by newlines.
   * The result does not depend on `title`.
   */
  method GenerateMarkdown(title: Option<string>, chapters: seq<Chapter>, transcript: seq<Item>)
    returns (text: string)
    ensures chapters == [] ==> text == JoinTexts(transcript) + "\n"
    ensures chapters != [] ==>
              text == Join(SectionLines(SortByStart(chapters), Buckets(SortByStart(chapters), transcript)), "\n")
  {
    var lines: seq<string> := [];
    if chapters != [] {
      var chapterTranscripts := AssignTranscriptToChapters(transcript, chapters);
      var sorted := SortByStart(chapters);
      lines := RenderSections(sorted, chapterTranscripts);
    } else {
      var combined := JoinTexts(transcript);
      lines := lines + [combined];
      lines := lines + [""];
      ParagraphLines(combined);
      assert Join(lines, "\n") == combined + "\n";
    }
    text := Join(lines, "\n");
  }

  /**
   * The section loop of the renderer: one heading, a blank line, the bucket's
   * joined text and a blank line per chapter, in the given order, skipping
   * chapters whose bucket is empty.
   */
  method RenderSections(sorted: seq<Chapter>, chapterTranscripts: map<string, seq<Item>>)
    returns (lines: seq<string>)
    ensures lines == SectionLines(sorted, chapterTranscripts)
  {
    lines := [];
    for i := 0 to |sorted|
      invariant lines == SectionLines(sorted[..i], chapterTranscripts)
    {
      var chapterTitle := sorted[i].title;
      var snippets := BucketOf(chapterTranscripts, chapterTitle);
      SectionLinesStep(sorted, i, chapterTranscripts);
      if snippets != [] {
        var heading := Heading(chapterTitle);
        var blank := "";
        lines := lines + [heading];
        lines := lines + [blank];
        var combined := JoinTexts(snippets);
        lines := lines + [combined];
        lines := lines + [blank];
      }
    }
    assert sorted[..|sorted|] == sorted;
  }

  /** Chapters whose buckets are all empty contribute no lines. */
  lemma {:induction false} NoSectionsForEmptyBuckets(cs: seq<Chapter>, buckets: map<string, seq<Item>>)
    requires forall i :: 0 <= i < |cs| ==> BucketOf(buckets, cs[i].title) == []
    ensures SectionLines(cs, buckets) == []
  {
    if cs != [] {
      NoSectionsForEmptyBuckets(cs[..|cs| - 1], buckets);
    }
  }

  /** With chapters but no snippets, every bucket is empty and the Markdown is the empty string. */
  lemma EmptyTranscriptMarkdown(chapters: seq<Chapter>)
    requires chapters != []
    ensures Join(SectionLines(SortByStart(chapters), Buckets(SortByStart(chapters), [])), "\n") == ""
  {
    var sorted := SortByStart(chapters);
    BucketsStartEmpty(sorted);
    NoSectionsForEmptyBuckets(sorted, Buckets(sorted, []));
  }

  /** With a single chapter, every snippet is that chapter's, wherever it starts. */
  lemma {:induction false} SingleChapterOwnsAll(c: Chapter, items: seq<Item>)
    ensures Owned([c], items, c.title) == items
  {
    if items != [] {
      SingleChapterOwnsAll(c, items[..|items| - 1]);
    }
  }

  /**
   * A single chapter and a non-empty transcript give one section: the heading,
   * a blank line, the space-joined texts and a final newline.
   */
  lemma SingleChapterMarkdown(c: Chapter, transcript: seq<Item>)
    requires transcript != []
    ensures Join(SectionLines(SortByStart([c]), Buckets(SortByStart([c]), transcript)), "\n") ==
              "## " + c.title + "\n\n" + JoinTexts(transcript) + "\n"
  {
    SingleChapterLines(c, transcript);
    SectionJoin(c.title, JoinTexts(transcript));
  }

  /** A single chapter owning a non-empty transcript gives its one section. */
  lemma SingleChapterLines(c: Chapter, transcript: seq<Item>)
    requires transcript != []
    ensures SectionLines(SortByStart([c]), Buckets(SortByStart([c]), transcript)) ==
              [Heading(c.title), "", JoinTexts(transcript), ""]
  {
    var b := Buckets([c], transcript);
    assert SortByStart([c]) == [c];
    assert c.title in Titles([c]);
    SingleChapterOwnsAll(c, transcript);
    assert BucketOf(b, c.title) == transcript;
    assert [c][..0] == [];
  }

  /** The four lines of a section join to the heading, a blank line and the paragraph. */
  lemma SectionJoin(title: string, text: string)
    ensures Join([Heading(title), "", text, ""], "\n") == "## " + title + "\n\n" + text + "\n"
  {
    var lines := [Heading(title), "", text, ""];
    assert lines[1..] == ["", text, ""] && lines[1..][1..] == [text, ""];
    ParagraphLines(text);
    assert Join(["", text, ""], "\n") == "" + "\n" + (text + "\n");
    assert Join(lines, "\n") == Heading(title) + "\n" + ("" + "\n" + (text + "\n"));
  }

  /** The `k`-th group of four lines. */
  function SectionAt(lines: seq<string>, k: nat): seq<string>
    requires 4 * k + 4 <= |lines|
  {
    lines[4 * k..4 * k + 4]
  }

  /** How many of the chapters have a non-empty bucket. */
  function NonEmptyCount(cs: seq<Chapter>, buckets: map<string, seq<Item>>): nat {
    if cs == [] then 0
    else NonEmptyCount(cs[..|cs| - 1], buckets) + if BucketOf(buckets, cs[|cs| - 1].title) == [] then 0 else 1
  }

  /** There are four lines per chapter with a non-empty bucket. */
  lemma {:induction false} SectionLinesLength(cs: seq<Chapter>, buckets: map<string, seq<Item>>)
    ensures |SectionLines(cs, buckets)| == 4 * NonEmptyCount(cs, buckets)
  {
    if cs != [] {
      SectionLinesLength(cs[..|cs| - 1], buckets);
    }
  }

  /** Appending a chapter leaves the earlier groups of four lines in place. */
  lemma SectionAtPrefix(prior: seq<string>, tail: seq<string>, k: nat)
    requires 4 * k + 4 <= |prior|
    ensures SectionAt(prior + tail, k) == SectionAt(prior, k)
  {
  }

  /** Each group of four lines is the section of a chapter with a non-empty bucket. */
  lemma SectionsComeFromNonEmptyChapters(cs: seq<Chapter>, buckets: map<string, seq<Item>>, k: nat)
    requires k < NonEmptyCount(cs, buckets)
    ensures |SectionLines(cs, buckets)| == 4 * NonEmptyCount(cs, buckets)
    ensures exists i :: 0 <= i < |cs| && BucketOf(buckets, cs[i].title) != [] &&
                        SectionAt(SectionLines(cs, buckets), k) == Section(cs[i].title, BucketOf(buckets, cs[i].title))
  {
    var i := ChapterOfSection(cs, buckets, k);
  }

  /** The chapter whose section is group `k` of the lines. */
  lemma {:induction false} ChapterOfSection(cs: seq<Chapter>, buckets: map<string, seq<Item>>, k: nat) returns (i: nat)
    requires k < NonEmptyCount(cs, buckets)
    ensures |SectionLines(cs, buckets)| == 4 * NonEmptyCount(cs, buckets)
    ensures i < |cs| && BucketOf(buckets, cs[i].title) != []
    ensures SectionAt(SectionLines(cs, buckets), k) == Section(cs[i].title, BucketOf(buckets, cs[i].title))
    decreases |cs|
  {
    SectionLinesLength(cs, buckets);
    var init := cs[..|cs| - 1];
    var last := cs[|cs| - 1];
    var prior := SectionLines(init, buckets);
    var tail := Section(last.title, BucketOf(buckets, last.title));
    assert SectionLines(cs, buckets) == prior + tail;
    SectionLinesLength(init, buckets);
    if k < NonEmptyCount(init, buckets) {
      i := ChapterOfSection(init, buckets, k);
      SectionAtPrefix(prior, tail, k);
      assert cs[i] == init[i];
    } else {
      i := |cs| - 1;
      SectionAtEnd(prior, tail, k);
    }
  }

  /** The group of four lines right after `prior` is what was appended. */
  lemma SectionAtEnd(prior: seq<string>, tail: seq<string>, k: nat)
    requires |prior| == 4 * k && |tail| == 4
    ensures SectionAt(prior + tail, k) == tail
  {
  }

  /** Every chapter with a non-empty bucket has its section among the lines. */
  lemma NonEmptyChaptersHaveSections(cs: seq<Chapter>, buckets: map<string, seq<Item>>, i: nat)
    requires i < |cs| && BucketOf(buckets, cs[i].title) != []
    ensures |SectionLines(cs, buckets)| == 4 * NonEmptyCount(cs, buckets)
    ensures exists k :: 0 <= k < NonEmptyCount(cs, buckets) &&
                        SectionAt(SectionLines(cs, buckets), k) == Section(cs[i].title, BucketOf(buckets, cs[i].title))
  {
    var k := SectionOfChapter(cs, buckets, i);
  }

  /** The group of four lines that holds the section of chapter `i`. */
  lemma {:induction false} SectionOfChapter(cs: seq<Chapter>, buckets: map<string, seq<Item>>, i: nat) returns (k: nat)
    requires i < |cs| && BucketOf(buckets, cs[i].title) != []
    ensures |SectionLines(cs, buckets)| == 4 * NonEmptyCount(cs, buckets)
    ensures k < NonEmptyCount(cs, buckets)
    ensures SectionAt(SectionLines(cs, buckets), k) == Section(cs[i].title, BucketOf(buckets, cs[i].title))
    decreases |cs|
  {
    SectionLinesLength(cs, buckets);
    var init := cs[..|cs| - 1];
    var last := cs[|cs| - 1];
    var prior := SectionLines(init, buckets);
    var tail := Section(last.title, BucketOf(buckets, last.title));
    assert SectionLines(cs, buckets) == prior + tail;
    SectionLinesLength(init, buckets);
    if i < |cs| - 1 {
      assert cs[i] == init[i];
      k := SectionOfChapter(init, buckets, i);
      SectionAtPrefix(prior, tail, k);
    } else {
      k := NonEmptyCount(init, buckets);
      SectionAtEnd(prior, tail, k);
    }
  }
}
