# youtube-transcript-api, modelled in Dafny

This project models the core of a small HTTP service that fetches YouTube
subtitles and lists the videos of channels and playlists. The core is:

- validating a submitted YouTube URL and extracting its video id (a regex tier, then a `urlparse` tier);
- the yt-dlp wrapper:
  - listing the subtitle languages;
  - choosing the track to download;
  - parsing the `json3` caption format;
- the transcript service:
  - the yt-dlp path with a transcription-backend fallback;
  - classifying errors by keyword;
  - converting snippets;
  - computing the total duration;
  - the plain-text and Markdown outputs;
- the chapter tools:
  - the chapter-page video id extractor;
  - assigning snippets to chapters;
  - rendering Markdown sections;
- the transcript router:
  - the language fallback over the transcript library;
  - the `/transcript/` and text endpoints, and how they map errors;
- the channel and playlist routers and their scrapetube record extractors:
  - `m:ss` / `h:mm:ss` durations;
  - the collection loop with a limit;
  - playlist positions.

The network, yt-dlp, the transcript library, the transcription backend and
the scraper appear only as parameters. Their answers are values, or total
functions from a request to a result. Python's `str.strip`, `str.lower`,
`str.split`, `str.join`, `int()`, `re.search`, `urlparse` and `parse_qs` are
modelled where the core relies on them.

Modules:

- `Wrappers`: Option and Result.
- `Text`: Python string operations.
- `PyInt`: `int()` on text.
- `Patterns`: the regular expressions the core uses. Each is an alternation of literals followed by an id-character group, searched leftmost-first.
- `UrlParsing`: `urlparse` and `parse_qs`.
- `Errors`: the exception kinds of `app/exceptions.py`.
- `Captions`: caption items, chapters, joined text, total duration.
- `Dependencies`: `app/dependencies.py`.
- `VideoInfo`: `app/services/video_info.py`.
- `YtDlp`: `app/services/yt_dlp_wrapper.py`.
- `TranscriptService`: `app/services/transcript.py`.
- `TranscriptRouter`: `app/routers/transcript.py`.
- `Scraped`: the scrapetube video record and the collection loop shared by the channel and playlist routers.
- `Channel`: `app/services/channel.py` and `app/routers/channel.py`.
- `Playlist`: `app/services/playlist.py` and `app/routers/playlist.py`.

The model follows these details of the code, some of which are easy to misread:

- With chapters requested but none present, `generate_text_output` returns the Markdown path's output. That is the joined text followed by a newline, not the flat text.
- `has_chapters` is true exactly when the video has chapters. This holds even if no chapter receives a snippet.
- The title is returned as fetched.
- Chapters that share a title share one bucket. The merged bucket is printed once for each chapter carrying that title, as the code does.
- Python's `$` also matches before a final newline. So the anchored id pattern accepts an 11-character id followed by `\n` (`VideoInfo.WholeId`, `Dependencies.PassesIdCheck`).

## Model

| member | source | states |
|---|---|---|
| Text.Strip | app/dependencies.py:74 | `str.strip()`: the result is a slice of the input with only whitespace before and after it. It neither starts nor ends with whitespace. It is empty exactly when the input is all whitespace. |
| Text.StripKeeps | app/dependencies.py:74 | Stripping text that neither starts nor ends with whitespace leaves it unchanged. |
| Text.StripIdempotent | app/dependencies.py:74 | Stripping twice is stripping once. |
| Text.StripKeepsCharacters | app/services/yt_dlp_wrapper.py:237 | Every character of the stripped text occurs in the original. |
| Text.LowerOrigin | app/dependencies.py:77 | Each character of the lowered text is the original one, or an ASCII capital moved to lower case. |
| Text.LowerAppend | app/services/transcript.py:79 | Lowering distributes over concatenation. |
| Text.ContainsAfterSeparator | app/services/transcript.py:82-87 | A keyword absent from a prefix that ends in a character foreign to the keyword occurs in prefix + suffix only if it occurs in the suffix. |
| Text.MissingCharNotContained | app/dependencies.py:77 | Python's `p in s` is false when `s` lacks one of `p`'s characters. |
| Text.Split | app/routers/channel.py:50 | `str.split(c)`: at least one part, no part contains `c`, and joining the parts with `c` gives back the text. |
| Text.SplitJoin | app/routers/channel.py:50 | Splitting the join of `c`-free parts returns those parts: split and join are inverse. |
| Text.JoinAppend | app/routers/transcript.py:177 | Joining two non-empty lists is joining each and putting the separator between them. |
| Text.JoinSnoc | app/services/video_info.py:137 | Joining after appending a part adds the separator and the part, except to an empty list. |
| PyInt.ShowNat | app/routers/channel.py:52-54 | The decimal spelling of a natural number is non-empty and made of digits. |
| PyInt.DigitsValueShowNat | app/routers/channel.py:52-54 | Reading the decimal spelling of `n` back gives `n`. |
| PyInt.ParseShowNat | app/routers/channel.py:52-54 | `int()` of the decimal spelling of `n` is `n`. |
| PyInt.ParseNegated | app/routers/channel.py:52-54 | `int()` of `-` followed by the spelling of `n` is `-n`. |
| PyInt.ParseMinusDigits | app/routers/channel.py:52-54 | `int()` of `-` followed by well-formed digits is minus their value. |
| PyInt.ParseStrippedNegative | app/routers/channel.py:52-54 | A stripped text `-d` with well-formed digits `d` parses to minus their value. |
| PyInt.DigitsAreWellFormed | app/routers/channel.py:52-54 | A non-empty run of digits is a well-formed literal and is its own strip. |
| PyInt.NoDigitNoInt | app/routers/channel.py:52-55 | `int()` fails on text without a digit. |
| Patterns.IdRunLength | app/dependencies.py:26 | The greedy `[a-zA-Z0-9_-]+` run from `i`: every character in it is an id character, and it stops at the end or at a non-id character. |
| Patterns.IdRunExact | app/dependencies.py:26 | Any maximal run of id characters from `i` is the greedy run's length. |
| Patterns.GroupIsIdRun | app/dependencies.py:33 | The captured group of a `+` tail is a non-empty id string. |
| Patterns.FirstAltAt | app/dependencies.py:26 | The first alternative from index `k` that matches at `i`. No earlier alternative matches there, and None means none matches. |
| Patterns.AltMakesMatch | app/dependencies.py:26 | Any matching alternative makes the position match. |
| Patterns.LeftmostFrom | app/dependencies.py:31 | The leftmost matching position at or after `i`. No position before it matches, and None means none matches. |
| Patterns.Search | app/dependencies.py:31-33 | `re.search`: the match is at the leftmost matching position, with the first alternative that matches there. Its group is the tail's capture. None means no position matches. |
| Patterns.MatchAt | app/dependencies.py:31-33 | The match found at a matching position: first alternative there, group captured after it. |
| Patterns.SearchFindsLeftmost | app/dependencies.py:31 | If `i` matches and nothing before it does, the search finds position `i`. |
| Patterns.LeftmostFromFinds | app/dependencies.py:31 | Scanning from `from` reaches a matching `i` when nothing between them matches. |
| Patterns.SearchOnlyAlternative | app/dependencies.py:27 | A single-alternative pattern matching at `i`, with no earlier match, yields the group after it. |
| Patterns.SearchFromParts | app/dependencies.py:31-33 | The search result is assembled from the leftmost position and the first alternative there. |
| Patterns.SearchAtLeftmost | app/dependencies.py:31-33 | At the leftmost matching position, the search returns the match at that position. |
| Patterns.MatchAtFirst | app/dependencies.py:31-33 | With alternative `k` the first to match at `i`, the match at `i` is `k`'s, with `k`'s group. |
| Patterns.NoMatchInIdString | app/services/video_info.py:13-16 | A text of id characters contains no alternative that itself has a non-id character. |
| Patterns.NoMatchWithoutLead | app/dependencies.py:26 | When every alternative starts with `c`, no match starts at a position not holding `c`. |
| UrlParsing.StripLeadingControls | app/dependencies.py:37 | `urlsplit` first drops leading C0 controls and spaces. The rest is a suffix starting above space. |
| UrlParsing.RemoveUnsafe | app/dependencies.py:37 | After removing tab, CR and LF, none of them remains. |
| UrlParsing.RemoveUnsafeKeeps | app/dependencies.py:37 | Text without tab, CR or LF is kept as is. |
| UrlParsing.SplitAtFirst | app/dependencies.py:37 | `split(c, 1)`: before and after the first `c`, and the two around it give back the text. Without `c`, the whole text and an empty rest. |
| UrlParsing.SplitScheme | app/dependencies.py:37 | The text after the scheme uses only characters of the input. |
| UrlParsing.AuthorityEnd | app/dependencies.py:37 | The network location ends at the first `/`, `?` or `#`, or at the end. |
| UrlParsing.SplitAuthority | app/dependencies.py:37 | The network location holds no `/`, `?` or `#`. |
| UrlParsing.UrlSplit | app/dependencies.py:37 | `urlsplit`: the network location has no `/`, `?` or `#`, and no part keeps a newline. |
| UrlParsing.LastIndexOfChar | app/dependencies.py:37 | `rfind`: the last occurrence of the character. |
| UrlParsing.SplitParams | app/dependencies.py:37 | The `;params` split uses only characters of the path. |
| UrlParsing.UrlParse | app/dependencies.py:37 | `urlparse`, undefined when `urlsplit` raises. No component keeps a newline. |
| UrlParsing.PlusToSpace | app/dependencies.py:45 | `+` to space keeps the length and brings in no newline. |
| UrlParsing.QueryPairs | app/dependencies.py:45 | At most one name-value pair per field. Newline-free fields give newline-free values. Names and values are not percent-decoded (see Left out). |
| UrlParsing.ParseQsl | app/dependencies.py:45 | A newline-free query gives newline-free values. `%XX` escapes are not decoded (see Left out). |
| UrlParsing.FirstValue | app/dependencies.py:46-47 | `parse_qs(q)['v'][0]`: defined exactly when the name occurs; it is the value of the first pair with that name. |
| UrlParsing.SchemeSplit | app/dependencies.py:37 | `scheme:rest` splits into the scheme and the rest. |
| UrlParsing.AuthoritySplit | app/dependencies.py:37 | `//host rest` splits into the host and the rest. |
| UrlParsing.PathQuerySplit | app/dependencies.py:37 | A `#`-free path with an optional `?query` splits into the path and the query. |
| UrlParsing.CleanUrlKept | app/dependencies.py:37 | A URL starting with a letter and free of tab, CR and LF passes the cleaning unchanged. |
| UrlParsing.SimpleUrlSteps | app/dependencies.py:37 | Each step of `urlsplit` on `scheme://host path?query`. |
| UrlParsing.SimpleUrlParse | app/dependencies.py:37 | `urlparse` of `scheme://host path?query` yields exactly those components, with empty params and fragment. |
| Dependencies.ShapeMatch | app/dependencies.py:26-33 | The first pattern's group is a non-empty id string. None means no position matches any of its four prefixes. |
| Dependencies.NotVAssignAt | app/dependencies.py:27 | No `v=` followed by an id character starts where the text does not read `v=`. |
| Dependencies.LineEnd | app/dependencies.py:27 | The end of the line from `i`, since `.` does not cross a newline. |
| Dependencies.LastVAssign | app/dependencies.py:27 | The greedy `.*` backtracks to the last `v=` plus id character before the bound. None means there is none. |
| Dependencies.WatchAt | app/dependencies.py:27 | A match of the second pattern at `i`: `youtube.com/watch?`, then a `v=` on the same line. |
| Dependencies.WatchSearchFrom | app/dependencies.py:27-31 | The leftmost start of the second pattern at or after `i`. None means nowhere. |
| Dependencies.WatchMatch | app/dependencies.py:27-33 | The second pattern's group is a non-empty id string. |
| Dependencies.WatchGroupAt | app/dependencies.py:27 | The group of the second pattern matched at a given start is a non-empty id string. |
| Dependencies.RegexTier | app/dependencies.py:30-33 | The two patterns in order. An id found is a non-empty id string. |
| Dependencies.ParseTier | app/dependencies.py:36-55 | The `urlparse` tier: `youtu.be` path, then the `v` parameter, then `/embed/` or `/v/` path. No value it returns holds a newline. |
| Dependencies.ExtractVideoId | app/dependencies.py:14-60 | The regex tier wins when it finds an id. The `urlparse` tier is used only when the regex tier finds none. Fails exactly when both tiers find nothing, with the 400 unextractable-URL error naming the URL. An id holds no newline. |
| Dependencies.ValidateYoutubeUrl | app/dependencies.py:63-93 | Empty input gives the missing-URL error. A stripped, lowered URL without `youtube.com` or `youtu.be` gives the not-YouTube error. Otherwise the extractor's error is passed on unchanged, an extracted id of 11 id characters is accepted, and any other extracted id gives the malformed-id error carrying that id. Success means the stripped URL mentions a domain, the extractor gives that id, and the id is 11 id characters. The malformed-id error carries an extracted id that fails the check. |
| Dependencies.ShapePrefixesExclusive | app/dependencies.py:26 | At most one of the first pattern's prefixes matches at a position. |
| Dependencies.ShapeUrlYieldsId | app/dependencies.py:26-33 | A URL `pre + prefix + id + rest` with no `y` in `pre` and `rest` not starting with an id character yields `id` from the first pattern. |
| Dependencies.ShapeUrlLayout | app/dependencies.py:26 | In such a URL, the prefix matches right after `pre` and the group is `id`. |
| Dependencies.NoShapeMatchInPrefix | app/dependencies.py:26 | No match of the first pattern starts inside a `y`-free prefix. |
| Dependencies.IdCharNotSpace | app/dependencies.py:74 | Id characters are not whitespace. |
| Dependencies.LowerKeepsAlternative | app/dependencies.py:77 | A URL holding one of the first pattern's prefixes passes the domain check. |
| Dependencies.ShapeUrlValidates | app/dependencies.py:63-93 | Validating `pre + prefix + id` gives `id` when it has 11 characters. Otherwise it gives the malformed-id error for `id`. |
| Dependencies.ExtractedRunValidates | app/dependencies.py:84-93 | A stripped URL naming YouTube whose extracted id is a run of id characters is accepted when the run has 11 characters. Otherwise it is refused as a malformed id. |
| Dependencies.IdRunPassesIdCheck | app/dependencies.py:87 | For a non-empty id string, the anchored check holds exactly when it is 11 characters. |
| Dependencies.FormSpelling | tests/test_transcript.py:50-56 | Each tested URL form is a `y`-free start followed by one of the first pattern's prefixes. |
| Dependencies.AcceptedForms | tests/test_transcript.py:48-60 | Every tested form followed by an 11-character id validates to that id. |
| Dependencies.TestSuiteFormsAccepted | tests/test_transcript.py:48-59 | Each accepted form the tests list, followed by the tests' id, validates to that id. |
| Dependencies.ExtractedForms | app/dependencies.py:18-22 | The extractor returns the id for every supported form, whatever the id's length. |
| Dependencies.TimestampExcluded | app/dependencies.py:26 | A trailing `&t=...` is not part of the extracted id. |
| Dependencies.OverlongIdRejected | app/dependencies.py:84-91 | An id longer than 11 is extracted whole and then refused as malformed. |
| Dependencies.NoShapeMatchInIdRun | app/dependencies.py:26 | No prefix of the first pattern starts inside a trailing run of id characters. |
| Dependencies.IdRunToEnd | app/dependencies.py:26 | A run of id characters to the end of the text is the whole rest. |
| Dependencies.LaterVNoShapeMatch | app/dependencies.py:26 | `youtube.com/watch?` with another parameter before `v=` does not match the first pattern. |
| Dependencies.LastVIsFinal | app/dependencies.py:27 | The last `v=` before the end is the one the greedy `.*` stops at. |
| Dependencies.WatchSearchFindsLeftmost | app/dependencies.py:27-31 | The second pattern's search reaches a leftmost start. |
| Dependencies.WatchMatchAtLastV | app/dependencies.py:27 | The second pattern's group is the id after the last `v=` of the line. |
| Dependencies.WatchMatchFromParts | app/dependencies.py:27 | The same, assembled from the start and the last `v=`. |
| Dependencies.WatchGroupAtLastV | app/dependencies.py:27 | The group at a start is the one after the line's last `v=`. |
| Dependencies.LaterVPrefix | app/dependencies.py:27 | Where the `watch?` prefix lies in `pre + youtube.com/watch? + q + v= + id`. |
| Dependencies.LaterVOneLine | app/dependencies.py:27 | Such a URL has no newline after the prefix. |
| Dependencies.LaterVLast | app/dependencies.py:27 | Its last `v=` is the one before `id`, and the group there is `id`. |
| Dependencies.NoWatchInPrefix | app/dependencies.py:27 | The second pattern does not start inside a `y`-free prefix. |
| Dependencies.LaterVParameterFound | app/dependencies.py:27-33 | With another parameter before `v=`, the second pattern finds the id. |
| Dependencies.LaterVWatchMatch | app/dependencies.py:27 | The second pattern's group for such a URL is `id`. |
| Dependencies.ShapePrefixesLead | app/dependencies.py:26 | Every prefix of the first pattern starts with `y`. |
| Dependencies.NoShapeMatchWithoutY | app/dependencies.py:26 | No first-pattern match starts where there is no `y`. |
| Dependencies.OnlyLeadingY | app/dependencies.py:26 | A position in a `y`-free part holds no `y`. |
| Dependencies.BareWatchAtDomain | tests/test_transcript.py:68 | `youtube.com/watch` alone does not match any prefix of the first pattern at the domain. |
| Dependencies.BareWatchNoShapeMatch | tests/test_transcript.py:68 | `pre + youtube.com/watch` has no first-pattern match. |
| Dependencies.BareWatchNoShapeMatchAt | tests/test_transcript.py:68 | The same, position by position. |
| Dependencies.BareWatchNoWatchMatch | tests/test_transcript.py:68 | `pre + youtube.com/watch` has no second-pattern match. |
| Dependencies.BareWatchNoRegexMatch | app/dependencies.py:30-33 | The regex tier finds nothing in `pre + youtube.com/watch`. |
| Dependencies.YoutubeComHost | app/dependencies.py:40-44 | A `youtube.com` host contains `youtube.com` but not `youtu.be`. |
| Dependencies.NoShortHostAt | app/dependencies.py:40 | No position of such a host reads `youtu.be`. |
| Dependencies.PlainHost | app/dependencies.py:37 | A plain subdomain plus a YouTube domain is a host `urlparse` keeps whole. |
| Dependencies.BareWatchParsed | app/dependencies.py:37 | `urlparse` of `scheme://sub youtube.com/watch` gives that host, path `/watch` and an empty query. |
| Dependencies.WatchPathPieces | app/dependencies.py:50 | `/watch` splits into `""` and `watch`. |
| Dependencies.BareWatchNoParseMatch | app/dependencies.py:36-55 | The `urlparse` tier finds nothing in `scheme://sub youtube.com/watch`. |
| Dependencies.BareWatchMentionsYoutube | app/dependencies.py:74-81 | Such a URL is its own strip and passes the domain check. |
| Dependencies.BareWatchRejected | app/dependencies.py:57-60 | Validating `scheme://sub youtube.com/watch` fails with the unextractable-URL error. |
| Dependencies.UnextractableRejected | app/dependencies.py:74-84 | A URL whose stripped form passes the domain check but yields no id is refused as unextractable, naming the stripped URL. |
| Dependencies.BareWatchExample | tests/test_transcript.py:68 | `https://www.youtube.com/watch` is refused as unextractable. |
| Dependencies.WwwSchemeParts | tests/test_transcript.py:68 | The test's bare watch URL is `https` + `://` + `www.` + `youtube.com/watch`, with a lower-case scheme and a plain subdomain. |
| Dependencies.NoYoutubeDomainRejected | app/dependencies.py:77-81 | A non-empty URL with no `y` or `Y` is refused as not a YouTube URL. |
| Dependencies.RefusedInputs | tests/test_transcript.py:64-74 | The test's Google, `not_a_url` and Vimeo inputs are refused as not YouTube URLs. |
| Dependencies.RefusedInputHasNoY | tests/test_transcript.py:65-69 | Those inputs are non-empty and contain no `y` or `Y`. |
| Dependencies.HostNamesDomain | app/dependencies.py:40-44 | `sub + name` contains `name`. |
| Dependencies.ShortHostFallback | app/dependencies.py:40-41 | For a `youtu.be` host, the `urlparse` tier returns the path without its leading `/`. |
| Dependencies.SingleVParameter | app/dependencies.py:45-47 | `parse_qs` of `v=value` gives `value` for `v`, for a value without `&`, `+` or `%`. |
| Dependencies.QueryUrlParsed | app/dependencies.py:37 | `urlparse` of `scheme://sub youtube.com path?v=value` gives that host, path and query. |
| Dependencies.QueryFallback | app/dependencies.py:44-47 | For a `youtube.com` host with `?v=value`, the `urlparse` tier returns `value`, for a value without `&`, `+`, `#` or `%`. |
| Dependencies.EmbedUrlParsed | app/dependencies.py:37 | `urlparse` of `scheme://sub youtube.com/kind/id` gives path `/kind/id`. |
| Dependencies.EmbedPathPieces | app/dependencies.py:50 | `/kind/id` splits into `""`, `kind`, `id`. |
| Dependencies.EmbedPathFallback | app/dependencies.py:49-52 | For `/embed/id` or `/v/id` on a `youtube.com` host, the `urlparse` tier returns `id`. |
| Captions.TextsInOrder | app/routers/transcript.py:177 | The texts are one per item, in order. |
| Captions.TextsAppend | app/routers/transcript.py:177 | The texts of a concatenation are the concatenated texts. |
| Captions.JoinTextsSnoc | app/services/video_info.py:136-137 | Joining after one more item adds a space and its text, except after nothing. |
| Captions.TotalDuration | app/routers/transcript.py:132-134 | `max(start + duration)` or 0: 0 without items, no item ends later, and some item ends exactly then. |
| VideoInfo.WholeId | app/services/video_info.py:17 | `^[a-zA-Z0-9_-]{11}$` matches exactly an 11-character id, or one followed by a final newline. The group is the 11 characters. |
| VideoInfo.PatternGroup | app/services/video_info.py:20-23 | Any pattern's group is an 11-character id. |
| VideoInfo.FirstPatternFrom | app/services/video_info.py:20-23 | The group of the first pattern from `p` that matches. No earlier one matches, and None means none does. |
| VideoInfo.ExtractVideoId | app/services/video_info.py:11-25 | The id is the group of the first matching pattern, and it is an 11-character id. Failure exactly when no pattern matches. |
| VideoInfo.PatternsNeedPunctuation | app/services/video_info.py:14-16 | Every alternative of the three link patterns holds a non-id character. |
| VideoInfo.BareIdAccepted | app/services/video_info.py:17 | A bare 11-character id, with or without a final newline, is returned as is. |
| VideoInfo.FirstPatternAt | app/services/video_info.py:14-23 | The leftmost `v=`, `/v/` or `youtu.be/` followed by 11 id characters decides the id. |
| VideoInfo.FirstPatternSearch | app/services/video_info.py:14-21 | The search for the first pattern finds that position and alternative. |
| VideoInfo.FirstPatternWins | app/services/video_info.py:20-23 | A match of the first pattern is returned. |
| VideoInfo.FirstAlternativeDecided | app/services/video_info.py:14 | At such a position, the alternative found is `k`. |
| VideoInfo.FirstPatternLeads | app/services/video_info.py:14 | No first-pattern match starts where the leading characters are absent. |
| VideoInfo.NoFirstPatternIn | app/services/video_info.py:14 | A prefix that stops every lead holds no first-pattern match, whatever follows. |
| VideoInfo.StopsConcat | app/services/video_info.py:14 | Lead-stopping prefixes concatenate. |
| VideoInfo.SchemeStops | app/services/video_info.py:14 | `https://` stops every lead. |
| VideoInfo.HostsStop | app/services/video_info.py:14 | The `www.youtube.com` and `youtu.be` host spellings stop every lead. |
| VideoInfo.WatchPathStops | app/services/video_info.py:14 | The `/watch?` path stops every lead. |
| VideoInfo.LinkSpelling | app/services/video_info.py:14 | Each link form is a lead-stopping prefix followed by a first-pattern alternative. |
| VideoInfo.LinkFormsExtracted | app/services/video_info.py:14-23 | The watch, `/v/` and `youtu.be` links followed by an id (and anything) yield the id. |
| VideoInfo.NoMatchNearEnd | app/services/video_info.py:13-16 | No match starts too near the end to hold 11 id characters. |
| VideoInfo.NoSingleAltIn | app/services/video_info.py:15-16 | A prefix free of the pattern's first two letters holds no `embed/` or `live/` match. |
| VideoInfo.PairConcat | app/services/video_info.py:15-16 | Such prefixes concatenate. |
| VideoInfo.LaterHostPairs | app/services/video_info.py:15-16 | `https://www.youtube.com/` holds neither `em` nor `li`. |
| VideoInfo.LaterSpelling | app/services/video_info.py:15-16 | Each embed/live form is such a host followed by the pattern's literal. |
| VideoInfo.LaterFormSplits | app/services/video_info.py:15-16 | How the embed and live forms split. |
| VideoInfo.HostAndNameStop | app/services/video_info.py:14 | Host plus `embed` or `live` stops the first pattern. |
| VideoInfo.LaterFormMissesFirst | app/services/video_info.py:14 | The first pattern misses an embed or live link. |
| VideoInfo.LaterFormMatches | app/services/video_info.py:15-16 | The embed or live literal matches after the host, with the id as group. |
| VideoInfo.LaterFormFound | app/services/video_info.py:15-16 | That pattern's group is the id. |
| VideoInfo.LiveFormMissesEmbed | app/services/video_info.py:15 | The embed pattern misses a live link. |
| VideoInfo.LaterFormsExtracted | app/services/video_info.py:15-23 | `.../embed/id` and `.../live/id` yield the id. |
| VideoInfo.AlternativesEndInPunctuation | app/services/video_info.py:14-16 | Every alternative ends in `=` or `/`. |
| VideoInfo.NoPunctuationRejected | app/services/video_info.py:13-25 | Text with no `/` or `=`, of any length but 11 or 12, yields no id (the ValueError). |
| VideoInfo.NotAUrlRejected | app/services/video_info.py:25 | `not_a_url` yields no id. |
| VideoInfo.SortedCons | app/services/video_info.py:81 | A chapter starting no later than a sorted list's head keeps it sorted in front. |
| VideoInfo.InsertByStart | app/services/video_info.py:81 | Insertion keeps the list sorted by start and adds exactly one chapter (multiset). |
| VideoInfo.SortByStart | app/services/video_info.py:81 | `sorted(chapters, key=start_seconds)`: sorted, and a permutation of the chapters. |
| VideoInfo.LeadCount | app/services/video_info.py:90-94 | The number of leading chapters starting at or before `t`. The next one starts after `t`. |
| VideoInfo.OwnerIndex | app/services/video_info.py:89-94 | The owner of a snippet is a valid chapter index. |
| VideoInfo.OwnerIsLastStarted | app/services/video_info.py:89-94 | A snippet belongs to the last chapter started at or before it, or to the first chapter if none started. |
| VideoInfo.InnerLoopFindsOwner | app/services/video_info.py:89-94 | Where the inner loop stops, its title is the owner's title. |
| VideoInfo.ChapterTitleFor | app/services/video_info.py:89-94 | The inner loop computes the owner's title. |
| VideoInfo.BucketsSnoc | app/services/video_info.py:96 | One more snippet is appended to its owner's bucket, which exists. |
| VideoInfo.BucketsStartEmpty | app/services/video_info.py:83 | Before any snippet there is one empty bucket per title. |
| VideoInfo.BucketStep | app/services/video_info.py:85-96 | One loop round turns the buckets of the first `n` snippets into those of the first `n + 1`. |
| VideoInfo.AssignTranscriptToChapters | app/services/video_info.py:62-98 | With no chapters, `{'': transcript}`. Otherwise the buckets of the sorted chapters over the whole transcript. |
| VideoInfo.OwnedAppend | app/services/video_info.py:85-96 | A bucket of a concatenation is the concatenated buckets: snippet order is kept. |
| VideoInfo.OwnedMembers | app/services/video_info.py:85-96 | A snippet is in a title's bucket exactly when it is in the transcript and its owner has that title. |
| VideoInfo.TitleCountDistinct | app/services/video_info.py:83 | With distinct titles, each chapter's title occurs once. |
| VideoInfo.TitleCountAbsent | app/services/video_info.py:83 | A title no chapter carries occurs zero times. |
| VideoInfo.BucketTotalUpdate | app/services/video_info.py:96 | Appending to one bucket adds that title's number of chapters to the total. |
| VideoInfo.BucketTotalEmpty | app/services/video_info.py:83 | Empty buckets total zero. |
| VideoInfo.BucketSizesSum | app/services/video_info.py:62-98 | With distinct titles, the bucket sizes add up to the transcript's length: every snippet lands in exactly one bucket. |
| VideoInfo.SectionLinesSnoc | app/services/video_info.py:126-139 | One more chapter appends its section. |
| VideoInfo.SectionLinesStep | app/services/video_info.py:126-139 | A chapter with an empty bucket adds nothing. Otherwise it adds heading, blank, joined text, blank. |
| VideoInfo.SectionAppended | app/services/video_info.py:132-139 | The four appends are the chapter's section. |
| VideoInfo.ParagraphLines | app/services/video_info.py:144-147 | Joining text and a blank line gives the text and a newline. |
| VideoInfo.RenderSections | app/services/video_info.py:126-139 | The loop over the sorted chapters produces their sections in order. |
| VideoInfo.GenerateMarkdown | app/services/video_info.py:101-147 | Without chapters, the joined text and a newline. Otherwise the sections of the sorted chapters, joined by newlines. |
| VideoInfo.NoSectionsForEmptyBuckets | app/services/video_info.py:130 | Chapters whose buckets are all empty produce no lines. |
| VideoInfo.EmptyTranscriptMarkdown | app/services/video_info.py:119-147 | With chapters but no snippets, the Markdown is empty. |
| VideoInfo.SingleChapterOwnsAll | app/services/video_info.py:89-96 | A single chapter owns every snippet. |
| VideoInfo.SingleChapterMarkdown | app/services/video_info.py:119-147 | With one chapter and a non-empty transcript: `## title`, a blank line, the joined text, a newline. |
| VideoInfo.SingleChapterLines | app/services/video_info.py:126-139 | Its lines are heading, blank, joined text, blank. |
| VideoInfo.SectionJoin | app/services/video_info.py:147 | Those four lines join to `## title\n\ntext\n`. |
| VideoInfo.SectionLinesLength | app/services/video_info.py:126-139 | There are four lines per chapter with a non-empty bucket. |
| VideoInfo.SectionAtPrefix | app/services/video_info.py:126-139 | Appending lines leaves earlier sections in place. |
| VideoInfo.SectionsComeFromNonEmptyChapters | app/services/video_info.py:126-139 | Each four-line section is the section of some chapter with a non-empty bucket. |
| VideoInfo.ChapterOfSection | app/services/video_info.py:126-139 | That chapter, found. |
| VideoInfo.SectionAtEnd | app/services/video_info.py:126-139 | The last section is the one just appended. |
| VideoInfo.NonEmptyChaptersHaveSections | app/services/video_info.py:126-139 | Every chapter with a non-empty bucket has its section among the output. |
| VideoInfo.SectionOfChapter | app/services/video_info.py:126-139 | That section's index, found. |
| YtDlp.Codes | app/services/yt_dlp_wrapper.py:93 | The codes of the listing, one per entry in order. |
| YtDlp.ListedCodes | app/services/yt_dlp_wrapper.py:93 | `any(l['code'] == code ...)` holds exactly when the code is among the listing's codes. |
| YtDlp.CodesOfEntries | app/services/yt_dlp_wrapper.py:81-99 | The uploaded and generated entries carry the given codes in order. |
| YtDlp.ListAvailableSubtitles | app/services/yt_dlp_wrapper.py:65-101 | The two loops build the listing: uploaded tracks, then generated ones not yet listed. |
| YtDlp.AddedCodesMembers | app/services/yt_dlp_wrapper.py:91-99 | A code is added for a generated track exactly when it is automatic and not uploaded, and none is added twice. |
| YtDlp.AddedCodesPrefix | app/services/yt_dlp_wrapper.py:91-99 | What the loop has added so far is a prefix of the final additions. |
| YtDlp.ListingShape | app/services/yt_dlp_wrapper.py:77-101 | Uploaded entries first, in order, marked not generated. After them, generated entries for automatic codes that are not uploaded. Name equals code, and every entry is translatable. |
| YtDlp.ListingCovers | app/services/yt_dlp_wrapper.py:77-101 | The listed codes are exactly the uploaded and automatic ones. |
| YtDlp.ListingDistinct | app/services/yt_dlp_wrapper.py:77-101 | No code is listed twice. |
| YtDlp.SelectTrack | app/services/yt_dlp_wrapper.py:123-155 | The selection loop and its fallback compute the chosen track or the no-subtitles message. |
| YtDlp.EarliestAvailableWins | app/services/yt_dlp_wrapper.py:134-143 | The earliest requested language with any track is chosen. It is automatic only if not uploaded. |
| YtDlp.NothingRequestedAvailable | app/services/yt_dlp_wrapper.py:146-155 | If no requested language is available: the first uploaded track, else the first automatic one, else `No subtitles available for video <id>`. |
| YtDlp.FirstAvailableSound | app/services/yt_dlp_wrapper.py:134-143 | A track the loop finds is requested and exists as the kind it is marked. Uploaded wins over automatic. |
| YtDlp.ChosenTrackExists | app/services/yt_dlp_wrapper.py:123-155 | Failure exactly when the video has no tracks at all. A chosen track exists and is automatic exactly when not uploaded. An unrequested choice is the first uploaded, else the first automatic. |
| YtDlp.EventItemMeaning | app/services/yt_dlp_wrapper.py:232-249 | An event is skipped exactly when its joined text strips to nothing. Otherwise the item holds the stripped text and the start and duration in seconds (milliseconds / 1000, missing as 0). |
| YtDlp.Json3ItemsPrefixStep | app/services/yt_dlp_wrapper.py:230-249 | One loop round appends the event's item when it has one. |
| YtDlp.ParseJson3 | app/services/yt_dlp_wrapper.py:217-251 | The loop yields the items of the events in order. |
| YtDlp.Json3ItemsAppend | app/services/yt_dlp_wrapper.py:230-249 | Parsing distributes over concatenated event lists: event order is kept. |
| YtDlp.Json3ItemsCount | app/services/yt_dlp_wrapper.py:230-249 | At most one item per event, and exactly one each when no event is skipped. |
| YtDlp.Json3ItemsClean | app/services/yt_dlp_wrapper.py:237-239 | Every parsed text is non-blank and stripped. |
| YtDlp.Json3ItemsFromEvents | app/services/yt_dlp_wrapper.py:230-249 | Every item comes from some event. |
| YtDlp.Json3ItemSource | app/services/yt_dlp_wrapper.py:230-249 | The event an item comes from, found. |
| YtDlp.GetSubtitles | app/services/yt_dlp_wrapper.py:103-160 | Info, selection, download and parse, with each failure passed on as its message. |
| YtDlp.SubtitlesFromChosenTrack | app/services/yt_dlp_wrapper.py:121-160 | On success, the language returned is the chosen track's. The items are the parsed download of that track, each with clean text. |
| TranscriptService.NoSubtitlesSubsumed | app/services/transcript.py:84 | The `no subtitles` test is implied by the `no subtitle` one. |
| TranscriptService.ClassificationPrecedence | app/services/transcript.py:79-90 | Each of the three errors is given exactly under its keyword condition, in the order private/unavailable, no subtitle, disabled. Anything else is not-found. |
| TranscriptService.GetTranscriptWithFallback | app/services/transcript.py:33-90 | yt-dlp's result if it succeeds, with no backend call. On failure with no backend configured: the classified error. With a backend: one call with the detected language (the video's language, else the preferred one), returning its items and that language. If the call fails, the classified original error. |
| TranscriptService.NoTracksClassification | app/services/transcript.py:79-90 | A video without tracks gets the wrapper's no-subtitles message, classified as not found. It is classified as video-not-found only if the id itself spells `private` or `unavailable`. |
| TranscriptService.WrapperMessageKeywords | app/services/transcript.py:79-84 | The lowered no-subtitles message holds `no subtitle`. It holds `private` or `unavailable` only through the id. |
| TranscriptService.LowerMessagePrefix | app/services/transcript.py:79 | The message prefix lowered. |
| TranscriptService.MessagePrefixKeywords | app/services/transcript.py:82-84 | The lowered prefix starts with `no subtitle` and holds neither other keyword. |
| TranscriptService.PrefixLacksUnavailable | app/services/transcript.py:82 | The prefix does not contain `unavailable`. |
| TranscriptService.ListingClassification | app/services/transcript.py:107-116 | A listing failure is re-raised unchanged exactly when it has none of the keywords. It is never classified as a missing transcript. Otherwise it gets the error a failed fetch would, unless it mentions `no subtitle`. |
| TranscriptService.GetAvailableLanguages | app/services/transcript.py:93-116 | The wrapper's listing, or the classified failure. |
| TranscriptService.ToDictNormalises | app/services/transcript.py:119-128 | Conversion is idempotent. A snippet with every attribute converts to the same mapping, and missing attributes become `""`, 0, 0. |
| TranscriptService.ProcessTranscriptData | app/services/transcript.py:131-139 | One converted item per entry, in order. The total is 0 without items, no item ends later, and some item ends exactly then. |
| TranscriptService.GenerateTextOutput | app/services/transcript.py:142-175 | Without chapters requested: the joined text, no title, no chapters. With them: the video's title, chapters flag iff chapters exist, and the Markdown of `generate_markdown`. |
| TranscriptRouter.GetTranscriptWithFallback | app/routers/transcript.py:71-95 | The outcome of trying each language in order. `tried` is the prefix actually fetched: every language but the last reported no transcript, and stopping early means the last answered otherwise. |
| TranscriptRouter.FirstAnswerDecides | app/routers/transcript.py:77-82 | The first language not answering `NoTranscriptFound` decides: its transcript, or its error escapes. |
| TranscriptRouter.AllMissingUsesListing | app/routers/transcript.py:84-95 | If every language is missing: the first listed transcript if listing and fetching it succeed, else not-found for the preferred language. |
| TranscriptRouter.FallbackOutcomes | app/routers/transcript.py:71-95 | `NoTranscriptFound` never escapes. A language returned was requested or is the first listed. The only error raised is not-found for the preferred language. |
| TranscriptRouter.TargetLanguage | app/routers/transcript.py:113 | The request's language unless missing or empty, else the default. |
| TranscriptRouter.EndpointErrorsAboutVideo | app/routers/transcript.py:145-150 | Every failure becomes an error about that video: disabled, not found, not-found for the target, or an internal error for another exception. |
| TranscriptRouter.GetTranscript | app/routers/transcript.py:98-150 | A validation error is returned as is. Otherwise the fallback's outcome, with errors mapped, and a response with a consistent item count and duration. |
| TranscriptRouter.RespondWithTranscript | app/routers/transcript.py:117-150 | After validation: the fallback's outcome as a response whose total is the item count and whose duration is the latest end (0 without items). |
| TranscriptRouter.GetTranscriptText | app/routers/transcript.py:153-191 | As `/transcript/`, with the texts joined by spaces. |
| TranscriptRouter.TextEndpointJoin | app/routers/transcript.py:177 | The text is the items' texts joined by spaces, and it composes over concatenation. |
| Scraped.LastThumbnailUrl | app/services/channel.py:106 | `thumbnails[-1]['url']`, or None without thumbnails. |
| Scraped.FirstRunText | app/services/channel.py:110 | `runs[0]['text']` with `''` as default, or `''` without runs. |
| Scraped.KeptRecords | app/routers/playlist.py:31-40 | The records the loop keeps have a video id and come from the input. |
| Scraped.KeptRecordsAppend | app/routers/playlist.py:31-40 | Keeping distributes over concatenation: record order is kept. |
| Scraped.KeptRecordsComplete | app/routers/channel.py:110-112 | Every record with a video id is kept, and with all of them having one, all are kept. |
| Scraped.KeptRecordsStep | app/routers/channel.py:106-140 | One round keeps the record exactly when it has a video id. |
| Scraped.Take | app/routers/channel.py:107-108 | A prefix of length min(limit, size), and 0 for a non-positive limit. |
| Scraped.FirstStopTakesLimit | app/routers/channel.py:107-108 | When the loop first breaks, it has kept exactly the first `limit` kept records of the whole input. |
| Scraped.NoStopTakesAll | app/routers/channel.py:106-140 | A loop that never breaks keeps all the kept records, and they are within the limit. |
| Channel.TwoParsedParts | app/routers/channel.py:51-52 | Two parsed parts give `60 m + s`. |
| Channel.ThreeParsedParts | app/routers/channel.py:53-54 | Three give `3600 h + 60 m + s`. |
| Channel.SplitTwo | app/routers/channel.py:50 | `a:b` splits into `a` and `b` for colon-free parts. |
| Channel.SplitThree | app/routers/channel.py:50 | `a:b:c` splits into three. |
| Channel.DigitsLackColon | app/routers/channel.py:50 | Decimal spellings have no colon. |
| Channel.MinutesSeconds | app/routers/channel.py:45-57 | `M:S` parses to `60 M + S`. |
| Channel.HoursMinutesSeconds | app/routers/channel.py:45-57 | `H:M:S` parses to `3600 H + 60 M + S`. |
| Channel.OtherShapesRefused | app/routers/channel.py:45-57 | A bare number, a text with other than two or three parts, and `M:` with a digitless seconds part all give None. |
| Channel.ExtractVideoInfo | app/services/channel.py:95-127 | None exactly without a video id. Otherwise the id, the text of the first title run (`''` without runs), the publish text as found, the parsed duration, the last thumbnail's URL (None without thumbnails) and the view-count parser's value for the view text (`''` when missing). |
| Channel.RouterAgreesWithExtractor | app/routers/channel.py:110-140 | The router builds the extractor's entry, except that a missing publish text becomes `''`. |
| Channel.RouterVideos | app/routers/channel.py:133-140 | One entry per kept record, in order. |
| Channel.RouterVideosStep | app/routers/channel.py:106-140 | One round appends the record's entry exactly when it has a video id. |
| Channel.CollectVideos | app/routers/channel.py:101-140 | The loop returns the entries of the records before it stopped, stopping first where the limit is reached, or running out. |
| Channel.CollectVideosStep | app/routers/channel.py:106-140 | One round, stated on prefixes. |
| Channel.GetChannelVideos | app/routers/channel.py:87-153 | The entries of the first `limit` kept records, with their count. A scraper failure after the delivered records gives the 500 error exactly when the loop had not stopped first. |
| Channel.CollectedVideos | app/routers/channel.py:101-147 | At most `limit` entries (min of limit and kept records), each the entry of a kept input record. |
| Playlist.ExtractPlaylistVideoInfo | app/services/playlist.py:12-44 | None exactly without a video id. Otherwise the id, the text of the first title run (`''` without runs), the given position, the parsed duration, the last thumbnail's URL (None without thumbnails), and the channel id and name from the first byline run: the name is that run's text, `''` when it has none. Both are None without runs. |
| Playlist.NumberedEntries | app/routers/playlist.py:27-40 | Kept record `i` gets position `i + 1`. |
| Playlist.NumberedEntriesSnoc | app/routers/playlist.py:39-40 | One more kept record takes the next position. |
| Playlist.NumberedStep | app/routers/playlist.py:31-40 | One round, on prefixes. |
| Playlist.CollectStep | app/routers/playlist.py:31-40 | One round: the record's entry at position count + 1 is appended exactly when it has one. |
| Playlist.CollectEntries | app/routers/playlist.py:26-40 | The loop returns the numbered entries of the records before it stopped, stopping first at the limit, or running out. |
| Playlist.GetPlaylistVideos | app/routers/playlist.py:14-53 | The numbered entries of the first `limit` kept records, with their count. A scraper failure after the delivered records gives the 500 error exactly when the loop had not stopped first. |
| Playlist.NumberedCollection | app/routers/playlist.py:26-47 | At most `limit` entries. Positions run 1, 2, ... and each entry is the extractor's output for its kept record. |
| Playlist.SkippedRecordsTakeNoPosition | app/routers/playlist.py:35-37 | Records without a video id do not use up a position. |
| Playlist.NothingKept | app/routers/playlist.py:35-37 | Records without ids keep nothing. |

## Left out

- Network and library calls are parameters, not code. These are yt-dlp's info lookup and subtitle download (with its temporary directory and file search), the transcript library's fetch and listing, the transcription backend, and scrapetube's generators. Their answers are given values, so retries and timeouts are not modelled.
- Logging, `async`, the module-level wrapper singletons, the proxy and browser-cookie options, and the FastAPI wiring are not modelled. That wiring covers request validation of `limit`, dependency injection and HTTP status codes (the model keeps the error kinds instead).
- The view-count parser (`k`, `m`, `萬` suffixes via `float`) and the relative-time parser use floating point and the clock. They are left out, and the view count is a parameter function.
- Times are exact reals: `ms / 1000.0` and `start + duration` have no floating-point rounding.
- Dependencies.ValidateYoutubeUrl: `str.lower` is modelled for ASCII letters only. Non-ASCII case folding cannot change whether `youtube.com` occurs.
- PyInt.ParseShowNat: `int()` is modelled on ASCII digits with underscores. Other Unicode decimal digits are not accepted.
- UrlParsing.UrlParse: the IPv6 bracket validation and the NFKC netloc check of `urlsplit` are not modelled. Hosts in the lemmas are bracket-free.
- UrlParsing.QueryPairs: names and values are not percent-decoded. `parse_qsl` unquotes `%XX` escapes (UTF-8, invalid bytes replaced), so `v=%64Qw4w9WgXcQ` yields `dQw4w9WgXcQ` there and `%64Qw4w9WgXcQ` here.
- UrlParsing.ParseQsl: the same gap as UrlParsing.QueryPairs. Dependencies.ParseTier therefore returns a `v` value holding `%` still encoded. Dependencies.ValidateYoutubeUrl then refuses it as a malformed id, where the service would accept the decoded id. A value ending in `%0A` decodes to a trailing newline, which the anchored check lets through: the service would accept `dQw4w9WgXcQ` plus a newline as an id, which Dependencies.ValidateYoutubeUrl here never returns. The newline-free id that Dependencies.ExtractVideoId promises likewise holds only for this undecoded model. Dependencies.SingleVParameter and Dependencies.QueryFallback are stated for values without `%`, where both agree.
- Channel.OtherShapesRefused: a sign in a duration part follows `int()` and is not singled out.
- VideoInfo.SortByStart: `sorted` is stable. The model states sortedness and permutation, not which of two equal-start chapters comes first.
- `get_video_info` (the pytubefix lookup of title and chapters) is an input, `VideoDetails`.
- `generate_text_output` imports `generate_markdown` from `app/services/video.py`, which is not part of this model. The model uses `generate_markdown` of `app/services/video_info.py`.
- The router endpoints `get_transcript_form` (a form wrapper around `get_transcript`) and `get_available_languages`, and the `get_channel_info` and `get_playlist_info` endpoints, are not modelled. They are thin wrappers over library calls.
- `_to_dict` on a dict lacking `text`, `start` or `duration`: the router's item access would raise. The model takes dict items as complete.
- The channel router asks scrapetube for `limit * 2` records. The records are an input sequence, so how many the scraper delivers is not modelled.
- The language lookup used for the transcription backend (`probe`) is an input: the video's `language` field, or the lookup's failure.
