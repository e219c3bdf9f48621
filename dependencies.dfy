/**
 * Video-id extraction and validation for submitted URLs (app/dependencies.py):
 * two regular expressions tried in order, then a `urlparse`-based fallback,
 * then an anchored 11-character check.
 */
module Dependencies {
  import opened Wrappers
  import opened Text
  import opened Patterns
  import opened UrlParsing
  import opened Errors

  /** The alternation of the first pattern; each alternative is followed by `([a-zA-Z0-9_-]+)`. */
  const SHAPE_PREFIXES: seq<string> :=
    ["youtube.com/watch?v=", "youtu.be/", "youtube.com/embed/", "youtube.com/v/"]

  /** The literal that starts the second pattern `youtube\.com\/watch\?.*v=([a-zA-Z0-9_-]+)`. */
  const WATCH_PREFIX: string := "youtube.com/watch?"

  /** `re.search` with the first pattern: group 1 of the leftmost match. */
  function ShapeMatch(url: string): (r: Option<string>)
    ensures r.Some? ==> r.value != [] && IsIdString(r.value)
    ensures r.None? <==> forall j :: 0 <= j <= |url| ==> !AnyAltAt(url, j, SHAPE_PREFIXES, OneOrMore)
  {
    match Search(url, SHAPE_PREFIXES, OneOrMore)
    case Some(m) =>
      AltMakesMatch(url, m.pos, SHAPE_PREFIXES, OneOrMore, m.alt);
      GroupIsIdRun(url, m.pos + |SHAPE_PREFIXES[m.alt]|);
      Some(m.group)
    case None => None
  }

  /** `v=` followed by at least one id character starts at `j`. */
  predicate VAssignAt(s: string, j: nat) {
    PrefixAt(s, j, "v=") && TailAt(s, j + 2, OneOrMore)
  }

  /** No `v=` starts at `k` when the character there is not `v` or the next one is not `=`. */
  lemma NotVAssignAt(s: string, k: nat)
    requires k + 1 >= |s| || s[k] != 'v' || s[k + 1] != '='
    ensures !VAssignAt(s, k)
  {
    if k + 2 <= |s| {
      assert s[k..k + 2][0] == s[k] && s[k..k + 2][1] == s[k + 1];
    }
  }

  /** The first newline at or after `i`, or the end: `.` matches anything but a newline. */
  function LineEnd(s: string, i: nat): (e: nat)
    requires i <= |s|
    ensures i <= e <= |s|
    ensures forall k :: i <= k < e ==> s[k] != '\n'
    ensures e == |s| || s[e] == '\n'
    decreases |s| - i
  {
    if i == |s| || s[i] == '\n' then i else LineEnd(s, i + 1)
  }

  /** The greedy `.*` backs off from the end of the line, so the last `v=` in `[lo, hi)` is the one used. */
  function LastVAssign(s: string, lo: nat, hi: nat): (r: Option<nat>)
    requires lo <= hi <= |s|
    ensures r.Some? ==> lo <= r.value < hi && VAssignAt(s, r.value)
    ensures r.Some? ==> forall k :: r.value < k < hi ==> !VAssignAt(s, k)
    ensures r.None? ==> forall k :: lo <= k < hi ==> !VAssignAt(s, k)
    decreases hi - lo
  {
    if lo == hi then None
    else if VAssignAt(s, hi - 1) then Some(hi - 1)
    else LastVAssign(s, lo, hi - 1)
  }

  /** Where the `v=` of a second-pattern match starting at `i` lies, if the pattern matches there. */
  function WatchAt(s: string, i: nat): (r: Option<nat>)
    requires i <= |s|
    ensures r.Some? ==> PrefixAt(s, i, WATCH_PREFIX) && i + |WATCH_PREFIX| <= r.value && VAssignAt(s, r.value)
    ensures r.Some? ==> forall k :: i + |WATCH_PREFIX| <= k < r.value ==> s[k] != '\n'
  {
    if PrefixAt(s, i, WATCH_PREFIX) then
      LastVAssign(s, i + |WATCH_PREFIX|, LineEnd(s, i + |WATCH_PREFIX|))
    else None
  }

  /** The leftmost start at or after `i` where the second pattern matches. */
  function WatchSearchFrom(s: string, i: nat): (r: Option<nat>)
    requires i <= |s|
    ensures r.Some? ==> i <= r.value <= |s| && WatchAt(s, r.value).Some?
    ensures r.Some? ==> forall k :: i <= k < r.value ==> WatchAt(s, k).None?
    ensures r.None? ==> forall k :: i <= k <= |s| ==> WatchAt(s, k).None?
    decreases |s| - i
  {
    if WatchAt(s, i).Some? then Some(i)
    else if i == |s| then None
    else WatchSearchFrom(s, i + 1)
  }

  /** `re.search` with the second pattern: group 1 of the leftmost match. */
  function WatchMatch(url: string): (r: Option<string>)
    ensures r.Some? ==> r.value != [] && IsIdString(r.value)
  {
    match WatchSearchFrom(url, 0)
    case Some(i) => Some(WatchGroupAt(url, i))
    case None => None
  }

  /** Group 1 of a second-pattern match starting at `i`: the id run after its `v=`. */
  function WatchGroupAt(url: string, i: nat): (g: string)
    requires i <= |url| && WatchAt(url, i).Some?
    ensures g != [] && IsIdString(g)
  {
    GroupIsIdRun(url, WatchAt(url, i).value + 2);
    Group(url, WatchAt(url, i).value + 2, OneOrMore)
  }

  /** The regular-expression tier: the patterns in order, the first that matches wins. */
  function RegexTier(url: string): (r: Option<string>)
    ensures r.Some? ==> r.value != [] && IsIdString(r.value)
  {
    match ShapeMatch(url)
    case Some(id) => Some(id)
    case None => WatchMatch(url)
  }

  /**
   * The `urlparse` tier. A `youtu.be` authority gives the path without its first
   * character; a `youtube.com` authority gives the first `v` query value, or else
   * the third `/`-separated path piece after `embed` or `v`. A `ValueError`
   * from `urlparse` is swallowed, like every other exception there.
   */
  function ParseTier(url: string): (r: Option<string>)
    ensures r.Some? ==> '\n' !in r.value
  {
    match UrlParse(url)
    case None => None
    case Some(u) =>
      if Contains(u.netloc, "youtu.be") then Some(if u.path == [] then [] else u.path[1..])
      else if Contains(u.netloc, "youtube.com") then
        match FirstValue(ParseQsl(u.query), "v")
        case Some(v) => Some(v)
        case None =>
          var parts := Split(u.path, '/');
          if |parts| >= 3 && (parts[1] == "embed" || parts[1] == "v") then Some(parts[2]) else None
      else None
  }

  /** `extract_video_id`: both tiers, then the "invalid YouTube URL" error. */
  function ExtractVideoId(url: string): (r: Result<string, AppError>)
    ensures r.Err? <==> RegexTier(url).None? && ParseTier(url).None?
    ensures r.Err? ==> r.error == InvalidUrl(UnextractableUrl(url))
    ensures r.Ok? ==> '\n' !in r.value
    ensures RegexTier(url).Some? ==> r == Ok(RegexTier(url).value)
    ensures RegexTier(url).None? && ParseTier(url).Some? ==> r == Ok(ParseTier(url).value)
  {
    match RegexTier(url)
    case Some(id) => Ok(id)
    case None =>
      match ParseTier(url)
      case Some(id) => Ok(id)
      case None => Err(InvalidUrl(UnextractableUrl(url)))
  }

  /** The anchored check `re.match(r'^[a-zA-Z0-9_-]{11}$', id)`; `$` also matches before a final newline. */
  predicate PassesIdCheck(id: string) {
    IsVideoId(id) || (|id| == 12 && id[11] == '\n' && IsVideoId(id[..11]))
  }

  predicate MentionsYoutube(s: string) {
    Contains(s, "youtube.com") || Contains(s, "youtu.be")
  }

  /** `validate_youtube_url`. */
  function ValidateYoutubeUrl(url: string): (r: Result<string, AppError>)
    ensures url == "" ==> r == Err(InvalidUrl(MissingUrl))
    ensures url != "" && !MentionsYoutube(Lower(Strip(url))) ==> r == Err(InvalidUrl(NotYoutubeUrl))
    ensures r.Ok? ==> IsVideoId(r.value)
    ensures r.Ok? ==> url != "" && MentionsYoutube(Lower(Strip(url))) && ExtractVideoId(Strip(url)) == Ok(r.value)
    ensures r.Err? && r.error.InvalidUrl? && r.error.problem.MalformedVideoId? ==>
              ExtractVideoId(Strip(url)) == Ok(r.error.problem.videoId) && !IsVideoId(r.error.problem.videoId)
    ensures (url != "" && MentionsYoutube(Lower(Strip(url))) && ExtractVideoId(Strip(url)).Ok? &&
             IsVideoId(ExtractVideoId(Strip(url)).value)) ==> r == ExtractVideoId(Strip(url))
    ensures (url != "" && MentionsYoutube(Lower(Strip(url))) && ExtractVideoId(Strip(url)).Ok? &&
             !IsVideoId(ExtractVideoId(Strip(url)).value)) ==>
              r == Err(InvalidUrl(MalformedVideoId(ExtractVideoId(Strip(url)).value)))
    ensures url != "" && MentionsYoutube(Lower(Strip(url))) && ExtractVideoId(Strip(url)).Err? ==>
              r == ExtractVideoId(Strip(url))
  {
    if url == "" then Err(InvalidUrl(MissingUrl))
    else
      var trimmed := Strip(url);
      if !MentionsYoutube(Lower(trimmed)) then Err(InvalidUrl(NotYoutubeUrl))
      else
        match ExtractVideoId(trimmed)
        case Err(e) => Err(e)
        case Ok(id) => if PassesIdCheck(id) then Ok(id) else Err(InvalidUrl(MalformedVideoId(id)))
  }

  /** No two alternatives of the first pattern agree on their common length. */
  lemma ShapePrefixesExclusive(a: nat, b: nat, s: string, i: nat)
    requires a < |SHAPE_PREFIXES| && b < |SHAPE_PREFIXES| && a != b
    requires PrefixAt(s, i, SHAPE_PREFIXES[a])
    ensures !PrefixAt(s, i, SHAPE_PREFIXES[b])
  {
    var m := if a == 1 || b == 1 then 5 else 12;
    assert s[i + m] == SHAPE_PREFIXES[a][m];
  }

  /**
   * Group 1 of the first pattern is the maximal id run after the recognised prefix:
   * `pre + SHAPE_PREFIXES[k] + id + rest` yields `id` whenever `pre` has no `y`
   * (so nothing matches earlier) and `rest` does not continue the run.
   */
  lemma ShapeUrlYieldsId(pre: string, k: nat, id: string, rest: string)
    requires k < |SHAPE_PREFIXES|
    requires 'y' !in pre
    requires id != [] && IsIdString(id)
    requires rest == [] || !IsIdChar(rest[0])
    ensures ShapeMatch(pre + SHAPE_PREFIXES[k] + id + rest) == Some(id)
  {
    var url := pre + SHAPE_PREFIXES[k] + id + rest;
    var p := |pre|;
    ShapeUrlLayout(pre, k, id, rest);
    AltMakesMatch(url, p, SHAPE_PREFIXES, OneOrMore, k);
    NoShapeMatchInPrefix(url, pre);
    SearchFindsLeftmost(url, SHAPE_PREFIXES, OneOrMore, p);
    var m := Search(url, SHAPE_PREFIXES, OneOrMore).value;
    if m.alt != k {
      ShapePrefixesExclusive(k, m.alt, url, p);
      assert false;
    }
  }

  /** Where the alternative and the id lie in `pre + SHAPE_PREFIXES[k] + id + rest`. */
  lemma ShapeUrlLayout(pre: string, k: nat, id: string, rest: string)
    requires k < |SHAPE_PREFIXES|
    requires id != [] && IsIdString(id)
    requires rest == [] || !IsIdChar(rest[0])
    ensures var url := pre + SHAPE_PREFIXES[k] + id + rest;
      var q := |pre| + |SHAPE_PREFIXES[k]|;
      && url[..|pre|] == pre
      && AltAt(url, |pre|, SHAPE_PREFIXES[k], OneOrMore)
      && Group(url, q, OneOrMore) == id
  {
    var alt := SHAPE_PREFIXES[k];
    var url := pre + alt + id + rest;
    var p := |pre|;
    var q := p + |alt|;
    assert url[..p] == pre;
    assert url[p..q] == alt;
    assert url[q..q + |id|] == id;
    forall j | q <= j < q + |id| ensures IsIdChar(url[j]) {
      assert url[j] == id[j - q];
    }
    if rest != [] {
      assert url[q + |id|] == rest[0];
    }
    IdRunExact(url, q, |id|);
  }

  /** The first pattern matches nowhere inside a `y`-free prefix of the URL. */
  lemma NoShapeMatchInPrefix(url: string, pre: string)
    requires |pre| <= |url| && url[..|pre|] == pre && 'y' !in pre
    ensures forall j :: 0 <= j < |pre| ==> !AnyAltAt(url, j, SHAPE_PREFIXES, OneOrMore)
  {
    forall j | 0 <= j < |pre| ensures !AnyAltAt(url, j, SHAPE_PREFIXES, OneOrMore) {
      assert url[j] == pre[j];
      NoShapeMatchWithoutY(url, j);
    }
  }

  /** A character of the id class is never whitespace, so stripping keeps an id at the end. */
  lemma IdCharNotSpace(c: char)
    requires IsIdChar(c)
    ensures !IsSpace(c)
  {
  }

  /** Lower-casing keeps the lower-case alternatives where they are. */
  lemma LowerKeepsAlternative(url: string, p: nat, k: nat)
    requires k < |SHAPE_PREFIXES| && PrefixAt(url, p, SHAPE_PREFIXES[k])
    ensures MentionsYoutube(Lower(url))
  {
    var alt := SHAPE_PREFIXES[k];
    var low := Lower(url);
    var name := if k == 1 then "youtu.be" else "youtube.com";
    assert alt[..|name|] == name;
    forall m | 0 <= m < |name| ensures low[p + m] == name[m] {
      assert url[p + m] == alt[m];
    }
    assert low[p..p + |name|] == name;
    FoundAt(low, p, name);
  }

  /**
   * A URL of a recognised shape whose prefix has no `y` and does not start with
   * whitespace passes validation exactly when its id run passes the length check.
   */
  lemma {:induction false} ShapeUrlValidates(pre: string, k: nat, id: string)
    requires k < |SHAPE_PREFIXES|
    requires pre != [] && !IsSpace(pre[0]) && 'y' !in pre
    requires id != [] && IsIdString(id)
    ensures ValidateYoutubeUrl(pre + SHAPE_PREFIXES[k] + id) ==
              if IsVideoId(id) then Ok(id) else Err(InvalidUrl(MalformedVideoId(id)))
  {
    var url := pre + SHAPE_PREFIXES[k] + id;
    assert ExtractVideoId(url) == Ok(id) by {
      assert url == pre + SHAPE_PREFIXES[k] + id + [];
      ShapeUrlYieldsId(pre, k, id, []);
    }
    assert Strip(url) == url by {
      IdCharNotSpace(id[|id| - 1]);
      assert url[|url| - 1] == id[|id| - 1];
      StripKeeps(url);
    }
    assert MentionsYoutube(Lower(url)) by {
      assert url[|pre|..|pre| + |SHAPE_PREFIXES[k]|] == SHAPE_PREFIXES[k];
      LowerKeepsAlternative(url, |pre|, k);
    }
    ExtractedRunValidates(url, id);
  }

  /**
   * A stripped input naming YouTube whose extracted id is a run of id characters
   * is accepted or refused by the length check alone.
   */
  lemma ExtractedRunValidates(url: string, id: string)
    requires url != "" && Strip(url) == url && MentionsYoutube(Lower(url))
    requires ExtractVideoId(url) == Ok(id) && IsIdString(id)
    ensures ValidateYoutubeUrl(url) == if IsVideoId(id) then Ok(id) else Err(InvalidUrl(MalformedVideoId(id)))
  {
    IdRunPassesIdCheck(id);
  }

  /** For a run of id characters, the anchored check is the length check: no id character is a newline. */
  lemma IdRunPassesIdCheck(id: string)
    requires IsIdString(id)
    ensures PassesIdCheck(id) <==> IsVideoId(id)
  {
    if |id| == 12 {
      assert IsIdChar(id[11]);
    }
  }

  /** The scheme and subdomain in front of the domain in the test suite's URLs. */
  const WWW_SCHEME: string := "https://www."
  const BARE_SCHEME: string := "https://"

  /**
   * The accepted forms the test suite lists, each followed by the id:
   * `https://www.youtube.com/watch?v=`, `https://youtu.be/`,
   * `https://www.youtube.com/embed/`, `https://www.youtube.com/v/` and
   * `https://youtube.com/watch?v=`.
   */
  const TEST_FORMS: seq<string> := [
    WWW_SCHEME + SHAPE_PREFIXES[0],
    BARE_SCHEME + SHAPE_PREFIXES[1],
    WWW_SCHEME + SHAPE_PREFIXES[2],
    WWW_SCHEME + SHAPE_PREFIXES[3],
    BARE_SCHEME + SHAPE_PREFIXES[0]
  ]

  /** Each listed form is a `y`-free scheme-and-host prefix followed by one alternative of the first pattern. */
  lemma FormSpelling(f: nat) returns (pre: string, k: nat)
    requires f < |TEST_FORMS|
    ensures k < |SHAPE_PREFIXES| && pre != [] && !IsSpace(pre[0]) && 'y' !in pre
    ensures TEST_FORMS[f] == pre + SHAPE_PREFIXES[k]
  {
    pre := if f == 1 || f == 4 then BARE_SCHEME else WWW_SCHEME;
    k := if f == 0 || f == 4 then 0 else f;
    assert 'y' !in pre && pre[0] == 'h';
  }

  /** Every form the test suite lists validates to the id it carries, for any well-formed id. */
  lemma AcceptedForms(id: string)
    requires IsVideoId(id)
    ensures forall f :: 0 <= f < |TEST_FORMS| ==> ValidateYoutubeUrl(TEST_FORMS[f] + id) == Ok(id)
  {
    forall f | 0 <= f < |TEST_FORMS| ensures ValidateYoutubeUrl(TEST_FORMS[f] + id) == Ok(id) {
      var pre, k := FormSpelling(f);
      assert TEST_FORMS[f] + id == pre + SHAPE_PREFIXES[k] + id;
      ShapeUrlValidates(pre, k, id);
    }
  }

  /** Each listed form followed by `dQw4w9WgXcQ`, the id of the test suite, validates to that id. */
  lemma TestSuiteFormsAccepted()
    ensures forall f :: 0 <= f < |TEST_FORMS| ==> ValidateYoutubeUrl(TEST_FORMS[f] + "dQw4w9WgXcQ") == Ok("dQw4w9WgXcQ")
  {
    AcceptedForms("dQw4w9WgXcQ");
  }

  /** For any run of id characters, each listed form makes `extract_video_id` return that run. */
  lemma ExtractedForms(id: string)
    requires id != [] && IsIdString(id)
    ensures forall f :: 0 <= f < |TEST_FORMS| ==> ExtractVideoId(TEST_FORMS[f] + id) == Ok(id)
  {
    forall f | 0 <= f < |TEST_FORMS| ensures ExtractVideoId(TEST_FORMS[f] + id) == Ok(id) {
      var pre, k := FormSpelling(f);
      assert TEST_FORMS[f] + id == pre + SHAPE_PREFIXES[k] + id + [];
      ShapeUrlYieldsId(pre, k, id, []);
    }
  }

  /** A trailing `&t=...` parameter after a watch URL is not part of the captured id. */
  lemma TimestampExcluded(id: string, t: string)
    requires id != [] && IsIdString(id)
    ensures ExtractVideoId(TEST_FORMS[0] + id + "&t=" + t) == Ok(id)
  {
    var pre, k := FormSpelling(0);
    assert TEST_FORMS[0] + id + "&t=" + t == pre + SHAPE_PREFIXES[k] + id + ("&t=" + t);
    ShapeUrlYieldsId(pre, k, id, "&t=" + t);
  }

  /** An over-long run after `watch?v=` is extracted whole, and then refused by the length check. */
  lemma OverlongIdRejected(id: string)
    requires |id| > 11 && IsIdString(id)
    ensures ExtractVideoId(TEST_FORMS[0] + id) == Ok(id)
    ensures ValidateYoutubeUrl(TEST_FORMS[0] + id) == Err(InvalidUrl(MalformedVideoId(id)))
  {
    ExtractedForms(id);
    var pre, k := FormSpelling(0);
    assert TEST_FORMS[0] + id == pre + SHAPE_PREFIXES[k] + id;
    ShapeUrlValidates(pre, k, id);
  }

  /** Every alternative of the first pattern has a `.` among its first eight characters. */
  lemma {:induction false} NoShapeMatchInIdRun(url: string, from: nat)
    requires from <= |url|
    requires forall k :: from <= k < |url| ==> IsIdChar(url[k])
    ensures forall j :: from <= j <= |url| ==> !AnyAltAt(url, j, SHAPE_PREFIXES, OneOrMore)
  {
    forall j, a | from <= j <= |url| && 0 <= a < |SHAPE_PREFIXES|
      ensures !AltAt(url, j, SHAPE_PREFIXES[a], OneOrMore)
    {
      var m := if a == 1 then 5 else 7;
      assert SHAPE_PREFIXES[a][m] == '.';
      assert j + m < |url| ==> url[j + m] != '.';
    }
  }

  /** The run of id characters at `i` reaches the end of the string. */
  lemma IdRunToEnd(s: string, i: nat)
    requires i <= |s| && forall k :: i <= k < |s| ==> IsIdChar(s[k])
    ensures IdRunLength(s, i) == |s| - i
  {
  }

  /**
   * In `pre + "youtube.com/watch?" + q + "v=" + id`, with no `y` in `pre` or `q`
   * and `q` not starting with `v`, the first pattern matches nowhere.
   */
  lemma {:induction false} LaterVNoShapeMatch(pre: string, q: string, id: string)
    requires 'y' !in pre && 'y' !in q
    requires q != [] && q[0] != 'v'
    requires IsIdString(id)
    ensures ShapeMatch(pre + WATCH_PREFIX + q + "v=" + id) == None
  {
    var url := pre + WATCH_PREFIX + q + "v=" + id;
    var p := |pre|;
    var w := p + |WATCH_PREFIX|;
    var d := w + |q| + 2;
    assert url[p..w] == WATCH_PREFIX;
    assert url[d..] == id;
    NoShapeMatchInIdRun(url, d);
    forall j | 0 <= j < d ensures !AnyAltAt(url, j, SHAPE_PREFIXES, OneOrMore) {
      if j == p {
        assert url[p + 18] == q[0];
        forall a | 0 <= a < |SHAPE_PREFIXES| ensures !AltAt(url, p, SHAPE_PREFIXES[a], OneOrMore) {
          var m := if a == 0 then 18 else if a == 1 then 5 else 12;
          assert m < |SHAPE_PREFIXES[a]| && url[p + m] != SHAPE_PREFIXES[a][m];
        }
      } else {
        if j < p {
          assert url[j] == pre[j];
        } else if j < w {
          assert url[j] == WATCH_PREFIX[j - p];
        } else if j < w + |q| {
          assert url[j] == q[j - w];
        }
        assert url[j] != 'y';
        NoMatchWithoutLead(url, SHAPE_PREFIXES, OneOrMore, 'y', j);
      }
    }
  }

  /** The last `v=` of a line is the one the second pattern uses. */
  lemma LastVIsFinal(s: string, lo: nat, v: nat)
    requires lo <= v < |s| && VAssignAt(s, v)
    requires forall k :: v < k < |s| ==> !VAssignAt(s, k)
    ensures LastVAssign(s, lo, |s|) == Some(v)
  {
  }

  /** A second-pattern match at `p` with none between `i` and `p` is the one the search from `i` reports. */
  lemma {:induction false} WatchSearchFindsLeftmost(s: string, i: nat, p: nat)
    requires i <= p <= |s| && WatchAt(s, p).Some?
    requires forall j :: i <= j < p ==> WatchAt(s, j).None?
    ensures WatchSearchFrom(s, i) == Some(p)
    decreases p - i
  {
    if i < p {
      WatchSearchFindsLeftmost(s, i + 1, p);
    }
  }

  /**
   * When the second pattern first applies at `p`, and `v` is the last `v=` of that
   * line, the captured group is the id run after that `v=`.
   */
  lemma WatchMatchAtLastV(url: string, p: nat, v: nat)
    requires PrefixAt(url, p, WATCH_PREFIX) && p + |WATCH_PREFIX| <= v < |url|
    requires forall j :: 0 <= j < p ==> WatchAt(url, j).None?
    requires forall k :: p + |WATCH_PREFIX| <= k < |url| ==> url[k] != '\n'
    requires VAssignAt(url, v) && forall k :: v < k < |url| ==> !VAssignAt(url, k)
    ensures WatchMatch(url) == Some(Group(url, v + 2, OneOrMore))
  {
    assert WatchAt(url, p) == Some(v) by {
      LastVIsFinal(url, p + |WATCH_PREFIX|, v);
    }
    assert WatchSearchFrom(url, 0) == Some(p) by {
      WatchSearchFindsLeftmost(url, 0, p);
    }
    WatchMatchFromParts(url, p, v);
  }

  /** `re.search` with the second pattern, assembled from where it starts and where its `v=` lies. */
  lemma WatchMatchFromParts(url: string, p: nat, v: nat)
    requires p <= |url| && WatchSearchFrom(url, 0) == Some(p) && WatchAt(url, p) == Some(v)
    ensures WatchMatch(url) == Some(Group(url, v + 2, OneOrMore))
  {
    WatchGroupAtLastV(url, p, v);
    assert WatchMatch(url) == Some(WatchGroupAt(url, p));
  }

  /** The group of a second-pattern match is the id run after the `v=` it uses. */
  lemma WatchGroupAtLastV(url: string, p: nat, v: nat)
    requires p <= |url| && WatchAt(url, p) == Some(v)
    ensures WatchGroupAt(url, p) == Group(url, v + 2, OneOrMore)
  {
  }

  /** Where the second pattern's literal lies in `pre + "youtube.com/watch?" + q + "v=" + id`. */
  lemma LaterVPrefix(pre: string, q: string, id: string)
    ensures var url := pre + WATCH_PREFIX + q + "v=" + id;
      url[..|pre|] == pre && PrefixAt(url, |pre|, WATCH_PREFIX)
  {
    var url := pre + WATCH_PREFIX + q + "v=" + id;
    assert url[..|pre|] == pre;
    assert url[|pre|..|pre| + |WATCH_PREFIX|] == WATCH_PREFIX;
  }

  /** After the literal, `pre + "youtube.com/watch?" + q + "v=" + id` has no newline when `q` has none. */
  lemma LaterVOneLine(pre: string, q: string, id: string)
    requires '\n' !in q && IsIdString(id)
    ensures var url := pre + WATCH_PREFIX + q + "v=" + id;
      forall k :: |pre| + |WATCH_PREFIX| <= k < |url| ==> url[k] != '\n'
  {
    var url := pre + WATCH_PREFIX + q + "v=" + id;
    var w := |pre| + |WATCH_PREFIX|;
    var v := w + |q|;
    forall k | w <= k < |url| ensures url[k] != '\n' {
      if k < v {
        assert url[k] == q[k - w];
      } else if k >= v + 2 {
        assert url[k] == id[k - v - 2];
      }
    }
  }

  /** The appended `v=` is the last one, and the id run after it is the whole id. */
  lemma LaterVLast(pre: string, q: string, id: string)
    requires IsIdString(id) && id != []
    ensures var url := pre + WATCH_PREFIX + q + "v=" + id;
      var v := |pre| + |WATCH_PREFIX| + |q|;
      && VAssignAt(url, v)
      && (forall k :: v < k < |url| ==> !VAssignAt(url, k))
      && Group(url, v + 2, OneOrMore) == id
  {
    var url := pre + WATCH_PREFIX + q + "v=" + id;
    var v := |pre| + |WATCH_PREFIX| + |q|;
    var d := v + 2;
    assert url[v..d] == "v=";
    assert url[d..] == id;
    forall k | d <= k < |url| ensures IsIdChar(url[k]) {
      assert url[k] == id[k - d];
    }
    assert VAssignAt(url, v);
    forall k | v < k < |url| ensures !VAssignAt(url, k) {
      if k == v + 1 {
        assert url[k] == '=';
      } else if k + 1 < |url| {
        assert IsIdChar(url[k + 1]);
      }
      NotVAssignAt(url, k);
    }
    IdRunExact(url, d, |id|);
  }

  /** The second pattern cannot start inside a prefix of the URL that has no `y`. */
  lemma NoWatchInPrefix(url: string, pre: string)
    requires |pre| <= |url| && url[..|pre|] == pre && 'y' !in pre
    ensures forall j :: 0 <= j < |pre| ==> WatchAt(url, j).None?
  {
    forall j | 0 <= j < |pre| ensures WatchAt(url, j).None? {
      assert url[j] == pre[j];
    }
  }

  /**
   * The second pattern finds a `v=` parameter that is not the first one after
   * `watch?`: whatever precedes it on the line, the id after the last `v=` is returned.
   */
  lemma LaterVParameterFound(pre: string, q: string, id: string)
    requires 'y' !in pre && 'y' !in q && '\n' !in q
    requires q != [] && q[0] != 'v'
    requires id != [] && IsIdString(id)
    ensures ExtractVideoId(pre + WATCH_PREFIX + q + "v=" + id) == Ok(id)
  {
    LaterVNoShapeMatch(pre, q, id);
    LaterVWatchMatch(pre, q, id);
  }

  /** The second pattern returns the id after the last `v=` of `pre + "youtube.com/watch?" + q + "v=" + id`. */
  lemma LaterVWatchMatch(pre: string, q: string, id: string)
    requires 'y' !in pre && '\n' !in q
    requires id != [] && IsIdString(id)
    ensures WatchMatch(pre + WATCH_PREFIX + q + "v=" + id) == Some(id)
  {
    var url := pre + WATCH_PREFIX + q + "v=" + id;
    var v := |pre| + |WATCH_PREFIX| + |q|;
    assert WatchMatch(url) == Some(Group(url, v + 2, OneOrMore)) by {
      LaterVPrefix(pre, q, id);
      NoWatchInPrefix(url, pre);
      LaterVOneLine(pre, q, id);
      LaterVLast(pre, q, id);
      WatchMatchAtLastV(url, |pre|, v);
    }
    LaterVLast(pre, q, id);
  }

  /** The path-less watch address of the test suite, after its scheme and subdomain. */
  const BARE_WATCH: string := "youtube.com/watch"

  /** Every alternative of the first pattern starts with `y`. */
  lemma ShapePrefixesLead()
    ensures forall k :: 0 <= k < |SHAPE_PREFIXES| ==> |SHAPE_PREFIXES[k]| > 0 && SHAPE_PREFIXES[k][0] == 'y'
  {
  }

  /** The first pattern cannot match at a position that does not hold a `y`. */
  lemma NoShapeMatchWithoutY(url: string, j: nat)
    requires j < |url| && url[j] != 'y'
    ensures !AnyAltAt(url, j, SHAPE_PREFIXES, OneOrMore)
  {
    ShapePrefixesLead();
    NoMatchWithoutLead(url, SHAPE_PREFIXES, OneOrMore, 'y', j);
  }

  /** In `pre + tail`, where only the first character of `tail` is a `y`, no other position holds one. */
  lemma OnlyLeadingY(pre: string, tail: string, j: nat)
    requires 'y' !in pre && tail != [] && 'y' !in tail[1..]
    requires j < |pre| + |tail| && j != |pre|
    ensures (pre + tail)[j] != 'y'
  {
    if j < |pre| {
      assert (pre + tail)[j] == pre[j];
    } else {
      assert (pre + tail)[j] == tail[1..][j - |pre| - 1];
    }
  }

  /** At the start of the domain, no alternative of the first pattern fits `youtube.com/watch`. */
  lemma BareWatchAtDomain(pre: string)
    ensures !AnyAltAt(pre + BARE_WATCH, |pre|, SHAPE_PREFIXES, OneOrMore)
  {
    var url := pre + BARE_WATCH;
    var p := |pre|;
    assert url[p..] == BARE_WATCH;
    assert url[p + 5] == 'b' && url[p + 12] == 'w';
    forall a | 0 <= a < |SHAPE_PREFIXES| ensures !AltAt(url, p, SHAPE_PREFIXES[a], OneOrMore) {
      if a != 0 {
        var m := if a == 1 then 5 else 12;
        assert url[p + m] != SHAPE_PREFIXES[a][m];
      }
    }
  }

  /** The first pattern matches nowhere in `pre + "youtube.com/watch"` when `pre` has no `y`. */
  lemma BareWatchNoShapeMatch(pre: string)
    requires 'y' !in pre
    ensures ShapeMatch(pre + BARE_WATCH) == None
  {
    var url := pre + BARE_WATCH;
    forall j | 0 <= j <= |url| ensures !AnyAltAt(url, j, SHAPE_PREFIXES, OneOrMore) {
      BareWatchNoShapeMatchAt(pre, j);
    }
  }

  /** One position of the lemma above. */
  lemma BareWatchNoShapeMatchAt(pre: string, j: nat)
    requires 'y' !in pre && j <= |pre| + |BARE_WATCH|
    ensures !AnyAltAt(pre + BARE_WATCH, j, SHAPE_PREFIXES, OneOrMore)
  {
    if j == |pre| {
      BareWatchAtDomain(pre);
    } else if j < |pre| + |BARE_WATCH| {
      OnlyLeadingY(pre, BARE_WATCH, j);
      NoShapeMatchWithoutY(pre + BARE_WATCH, j);
    }
  }

  /** The second pattern matches nowhere in `pre + "youtube.com/watch"`: the `?` it needs is missing. */
  lemma BareWatchNoWatchMatch(pre: string)
    requires 'y' !in pre
    ensures WatchMatch(pre + BARE_WATCH) == None
  {
    var url := pre + BARE_WATCH;
    forall j | 0 <= j <= |url| ensures !PrefixAt(url, j, WATCH_PREFIX) {
      if j != |pre| && j < |url| {
        OnlyLeadingY(pre, BARE_WATCH, j);
        assert WATCH_PREFIX[0] == 'y';
      }
    }
    assert WatchSearchFrom(url, 0).None?;
  }

  /** Neither pattern matches `pre + "youtube.com/watch"` when `pre` has no `y`. */
  lemma BareWatchNoRegexMatch(pre: string)
    requires 'y' !in pre
    ensures RegexTier(pre + BARE_WATCH) == None
  {
    BareWatchNoShapeMatch(pre);
    BareWatchNoWatchMatch(pre);
  }

  /** A host ending in `youtube.com` after a `y`-free part names `youtube.com` and not `youtu.be`. */
  lemma YoutubeComHost(sub: string)
    requires 'y' !in sub
    ensures Contains(sub + "youtube.com", "youtube.com")
    ensures !Contains(sub + "youtube.com", "youtu.be")
  {
    HostNamesDomain(sub, "youtube.com");
    forall i: nat | i <= |sub| + 11 ensures !PrefixAt(sub + "youtube.com", i, "youtu.be") {
      NoShortHostAt(sub, i);
    }
  }

  /** One position of the lemma above. */
  lemma NoShortHostAt(sub: string, i: nat)
    requires 'y' !in sub && i <= |sub| + 11
    ensures !PrefixAt(sub + "youtube.com", i, "youtu.be")
  {
    var netloc := sub + "youtube.com";
    if i == |sub| {
      assert netloc[i + 5] == "youtube.com"[5];
    } else if i < |netloc| {
      OnlyLeadingY(sub, "youtube.com", i);
    }
  }

  /** A subdomain prefix `urlparse` keeps in the network location: no bracket, no `/`, `?` or `#`, and no tab or line break. */
  predicate PlainSubdomain(sub: string) {
    '[' !in sub && ']' !in sub && forall k :: 0 <= k < |sub| ==> !IsAuthorityEnd(sub[k]) && !IsUnsafe(sub[k])
  }

  /** A plain subdomain followed by a YouTube domain is a host `urlparse` keeps whole. */
  lemma PlainHost(sub: string, name: string)
    requires PlainSubdomain(sub) && (name == "youtube.com" || name == "youtu.be")
    ensures var host := sub + name;
      '[' !in host && ']' !in host && (forall k :: 0 <= k < |host| ==> !IsAuthorityEnd(host[k]))
      && forall c :: IsUnsafe(c) ==> c !in host
  {
    var host := sub + name;
    forall k | 0 <= k < |host| ensures !IsAuthorityEnd(host[k]) && !IsUnsafe(host[k]) {
      if k < |sub| { assert host[k] == sub[k]; } else { assert host[k] == name[k - |sub|]; }
    }
  }

  /** How `urlparse` splits `scheme://sub` + `youtube.com/watch`. */
  lemma BareWatchParsed(scheme: string, sub: string)
    requires scheme != [] && forall k :: 0 <= k < |scheme| ==> 'a' <= scheme[k] <= 'z'
    requires PlainSubdomain(sub)
    ensures UrlParse(scheme + "://" + sub + "youtube.com/watch") ==
              Some(Url(scheme, sub + "youtube.com", "/watch", "", "", ""))
  {
    var host := sub + "youtube.com";
    assert scheme + "://" + sub + "youtube.com/watch" == scheme + "://" + host + "/watch" + "";
    PlainHost(sub, "youtube.com");
    assert forall c :: IsUnsafe(c) ==> c !in "/watch";
    SimpleUrlParse(scheme, host, "/watch", "");
  }

  /** `"/watch".split("/")` has two pieces. */
  lemma WatchPathPieces()
    ensures Split("/watch", '/') == ["", "watch"]
  {
    SplitJoin(["", "watch"], '/');
    assert Join(["", "watch"], "/") == "/watch";
  }

  /** The fallback tier finds no id in a `youtube.com/watch` URL with no query: there is one path piece only. */
  lemma BareWatchNoParseMatch(scheme: string, sub: string)
    requires scheme != [] && forall k :: 0 <= k < |scheme| ==> 'a' <= scheme[k] <= 'z'
    requires 'y' !in sub && PlainSubdomain(sub)
    ensures ParseTier(scheme + "://" + sub + "youtube.com/watch") == None
  {
    BareWatchParsed(scheme, sub);
    WatchPathPieces();
    YoutubeComHost(sub);
  }

  /** Stripping leaves `pre + "youtube.com/watch"` alone, and its lower-case form names `youtube.com`. */
  lemma BareWatchMentionsYoutube(pre: string)
    requires pre != [] && !IsSpace(pre[0])
    ensures var url := pre + BARE_WATCH;
      Strip(url) == url && MentionsYoutube(Lower(url))
  {
    var url := pre + BARE_WATCH;
    assert url[0] == pre[0];
    assert url[|url| - 1] == 'h';
    StripKeeps(url);
    var low := Lower(url);
    forall m | 0 <= m < 11 ensures low[|pre| + m] == "youtube.com"[m] {
      assert url[|pre| + m] == "youtube.com"[m];
    }
    assert low[|pre|..|pre| + 11] == "youtube.com";
    FoundAt(low, |pre|, "youtube.com");
  }

  /**
   * `scheme://sub` + `youtube.com/watch` is refused by validation: it names
   * YouTube, but neither tier extracts an id. The test suite's
   * `https://www.youtube.com/watch` is the case `scheme = "https"`, `sub = "www."`.
   */
  lemma BareWatchRejected(scheme: string, sub: string)
    requires scheme != [] && 'y' !in scheme && forall k :: 0 <= k < |scheme| ==> 'a' <= scheme[k] <= 'z'
    requires 'y' !in sub && PlainSubdomain(sub)
    ensures var url := scheme + "://" + sub + "youtube.com/watch";
      ValidateYoutubeUrl(url) == Err(InvalidUrl(UnextractableUrl(url)))
  {
    var url := scheme + "://" + sub + "youtube.com/watch";
    var pre := scheme + "://" + sub;
    assert url == pre + BARE_WATCH;
    assert ExtractVideoId(url) == Err(InvalidUrl(UnextractableUrl(url))) by {
      assert 'y' !in pre;
      BareWatchNoRegexMatch(pre);
      BareWatchNoParseMatch(scheme, sub);
    }
    assert Strip(url) == url && MentionsYoutube(Lower(url)) by {
      assert pre[0] == scheme[0];
      BareWatchMentionsYoutube(pre);
    }
    UnextractableRejected(url);
  }

  /** An input naming YouTube whose stripped form yields no id is refused with the extraction error. */
  lemma UnextractableRejected(url: string)
    requires url != "" && MentionsYoutube(Lower(Strip(url)))
    requires ExtractVideoId(Strip(url)).Err?
    ensures ValidateYoutubeUrl(url) == Err(InvalidUrl(UnextractableUrl(Strip(url))))
  {
  }

  /** The test suite's bare watch URL `https://www.youtube.com/watch` is an instance of the lemma above. */
  lemma BareWatchExample()
    ensures ValidateYoutubeUrl(WWW_SCHEME + BARE_WATCH) ==
              Err(InvalidUrl(UnextractableUrl(WWW_SCHEME + BARE_WATCH)))
  {
    WwwSchemeParts();
    BareWatchRejected("https", "www.");
  }

  /** `https://www.` as a scheme and a subdomain that meet the conditions of the lemma above. */
  lemma WwwSchemeParts()
    ensures "https" + "://" + "www." + "youtube.com/watch" == WWW_SCHEME + BARE_WATCH
    ensures 'y' !in "https" && forall k :: 0 <= k < |"https"| ==> 'a' <= "https"[k] <= 'z'
    ensures 'y' !in "www." && PlainSubdomain("www.")
  {
  }

  /** Input with no `y` or `Y` anywhere cannot name either YouTube domain, so it is refused before extraction. */
  lemma NoYoutubeDomainRejected(url: string)
    requires url != "" && 'y' !in url && 'Y' !in url
    ensures ValidateYoutubeUrl(url) == Err(InvalidUrl(NotYoutubeUrl))
  {
    var t := Strip(url);
    if 'y' in t {
      StripKeepsCharacters(url, 'y');
    }
    if 'Y' in t {
      StripKeepsCharacters(url, 'Y');
    }
    var low := Lower(t);
    forall i | 0 <= i < |low| ensures low[i] != 'y' {
      LowerOrigin(t, i);
    }
    MissingCharNotContained(low, "youtube.com", 0);
    MissingCharNotContained(low, "youtu.be", 0);
  }

  /** The non-YouTube inputs the test suite lists. */
  const REFUSED_INPUTS: seq<string> := ["https://www.google.com", "not_a_url", "https://vimeo.com/123456789"]

  /** Each listed non-YouTube input is refused as such. */
  lemma RefusedInputs()
    ensures forall f :: 0 <= f < |REFUSED_INPUTS| ==> ValidateYoutubeUrl(REFUSED_INPUTS[f]) == Err(InvalidUrl(NotYoutubeUrl))
  {
    forall f | 0 <= f < |REFUSED_INPUTS|
      ensures ValidateYoutubeUrl(REFUSED_INPUTS[f]) == Err(InvalidUrl(NotYoutubeUrl))
    {
      RefusedInputHasNoY(f);
      NoYoutubeDomainRejected(REFUSED_INPUTS[f]);
    }
  }

  /** None of the listed non-YouTube inputs is empty or has a `y` or `Y`. */
  lemma RefusedInputHasNoY(f: nat)
    requires f < |REFUSED_INPUTS|
    ensures REFUSED_INPUTS[f] != "" && 'y' !in REFUSED_INPUTS[f] && 'Y' !in REFUSED_INPUTS[f]
  {
    var u := REFUSED_INPUTS[f];
    if f == 0 {
      assert u == "https://www.google.com";
    } else if f == 1 {
      assert u == "not_a_url";
    } else {
      assert u == "https://vimeo.com/123456789";
    }
  }

  /** A `y`-free part followed by the literal `name` contains `name` (at the end). */
  lemma HostNamesDomain(sub: string, name: string)
    ensures Contains(sub + name, name)
  {
    assert (sub + name)[|sub|..] == name;
    FoundAt(sub + name, |sub|, name);
  }

  /** A `youtu.be` host: the fallback tier returns the path without its leading `/`. */
  lemma ShortHostFallback(scheme: string, sub: string, path: string)
    requires scheme != [] && forall k :: 0 <= k < |scheme| ==> 'a' <= scheme[k] <= 'z'
    requires PlainSubdomain(sub)
    requires path != [] && path[0] == '/' && '?' !in path && '#' !in path && ';' !in path
    requires forall c :: IsUnsafe(c) ==> c !in path
    ensures ParseTier(scheme + "://" + sub + "youtu.be" + path) == Some(path[1..])
  {
    var host := sub + "youtu.be";
    assert scheme + "://" + sub + "youtu.be" + path == scheme + "://" + host + path + "";
    PlainHost(sub, "youtu.be");
    SimpleUrlParse(scheme, host, path, "");
    HostNamesDomain(sub, "youtu.be");
  }

  /** `parse_qs("v=" + value)` holds the single value, when it has no `&`, `+` or `%`. */
  lemma SingleVParameter(value: string)
    requires value != [] && '&' !in value && '+' !in value && '%' !in value
    ensures FirstValue(ParseQsl("v=" + value), "v") == Some(value)
  {
    var q := "v=" + value;
    assert '&' !in q;
    assert Split(q, '&') == [q];
    assert q[1] == '=' && q[..1] == "v" && q[2..] == value;
    assert IndexOfChar(q, '=') == 1;
    assert SplitAtFirst(q, '=') == ("v", value);
    assert PlusToSpace(value) == value;
    assert PlusToSpace("v") == "v";
    assert QueryPairs([q]) == [("v", value)];
  }

  /** How `urlparse` splits a `youtube.com` URL whose query is `v=value`. */
  lemma QueryUrlParsed(scheme: string, sub: string, path: string, value: string)
    requires scheme != [] && forall k :: 0 <= k < |scheme| ==> 'a' <= scheme[k] <= 'z'
    requires PlainSubdomain(sub)
    requires path != [] && path[0] == '/' && '?' !in path && '#' !in path && ';' !in path
    requires '#' !in value
    requires forall c :: IsUnsafe(c) ==> c !in path && c !in value
    ensures UrlParse(scheme + "://" + sub + "youtube.com" + path + "?v=" + value) ==
              Some(Url(scheme, sub + "youtube.com", path, "", "v=" + value, ""))
  {
    var host := sub + "youtube.com";
    var tail := "?v=" + value;
    assert scheme + "://" + sub + "youtube.com" + path + "?v=" + value == scheme + "://" + host + path + tail;
    PlainHost(sub, "youtube.com");
    assert forall c :: IsUnsafe(c) ==> c !in tail by {
      forall c | IsUnsafe(c) ensures c !in tail {
        assert c !in value;
      }
    }
    assert tail[0] == '?' && '#' !in tail && tail[1..] == "v=" + value;
    SimpleUrlParse(scheme, host, path, tail);
  }

  /** A `youtube.com` host with a `v` query parameter: the fallback tier returns its value. */
  lemma QueryFallback(scheme: string, sub: string, path: string, value: string)
    requires scheme != [] && forall k :: 0 <= k < |scheme| ==> 'a' <= scheme[k] <= 'z'
    requires 'y' !in sub && PlainSubdomain(sub)
    requires path != [] && path[0] == '/' && '?' !in path && '#' !in path && ';' !in path
    requires value != [] && '&' !in value && '+' !in value && '#' !in value && '%' !in value
    requires forall c :: IsUnsafe(c) ==> c !in path && c !in value
    ensures ParseTier(scheme + "://" + sub + "youtube.com" + path + "?v=" + value) == Some(value)
  {
    QueryUrlParsed(scheme, sub, path, value);
    YoutubeComHost(sub);
    SingleVParameter(value);
  }

  /** How `urlparse` splits a `youtube.com` URL with the path `/kind/id`. */
  lemma EmbedUrlParsed(scheme: string, sub: string, kind: string, id: string)
    requires scheme != [] && forall k :: 0 <= k < |scheme| ==> 'a' <= scheme[k] <= 'z'
    requires PlainSubdomain(sub)
    requires kind == "embed" || kind == "v"
    requires '/' !in id && '?' !in id && '#' !in id && ';' !in id
    requires forall c :: IsUnsafe(c) ==> c !in id
    ensures UrlParse(scheme + "://" + sub + "youtube.com/" + kind + "/" + id) ==
              Some(Url(scheme, sub + "youtube.com", "/" + kind + "/" + id, "", "", ""))
  {
    var host := sub + "youtube.com";
    var path := "/" + kind + "/" + id;
    assert scheme + "://" + sub + "youtube.com/" + kind + "/" + id == scheme + "://" + host + path + "";
    PlainHost(sub, "youtube.com");
    assert forall c :: IsUnsafe(c) ==> c !in path by {
      forall c | IsUnsafe(c) ensures c !in path {
        assert c !in id;
      }
    }
    assert '?' !in path && '#' !in path && ';' !in path;
    SimpleUrlParse(scheme, host, path, "");
  }

  /** `("/" + kind + "/" + id).split("/")` has the pieces `""`, `kind` and `id`. */
  lemma EmbedPathPieces(kind: string, id: string)
    requires kind == "embed" || kind == "v"
    requires '/' !in id
    ensures Split("/" + kind + "/" + id, '/') == ["", kind, id]
  {
    SplitJoin(["", kind, id], '/');
    assert Join(["", kind, id], "/") == "/" + kind + "/" + id;
  }

  /** An `/embed/` or `/v/` path under a `youtube.com` host with no query: the third path piece is returned. */
  lemma EmbedPathFallback(scheme: string, sub: string, kind: string, id: string)
    requires scheme != [] && forall k :: 0 <= k < |scheme| ==> 'a' <= scheme[k] <= 'z'
    requires 'y' !in sub && PlainSubdomain(sub)
    requires kind == "embed" || kind == "v"
    requires '/' !in id && '?' !in id && '#' !in id && ';' !in id
    requires forall c :: IsUnsafe(c) ==> c !in id
    ensures ParseTier(scheme + "://" + sub + "youtube.com/" + kind + "/" + id) == Some(id)
  {
    EmbedUrlParsed(scheme, sub, kind, id);
    YoutubeComHost(sub);
    EmbedPathPieces(kind, id);
    assert ParseQsl("") == [];
  }
}
