/**
 * The part of Python's `urllib.parse` the id extractor relies on: `urlparse`
 * (splitting a URL into the generic components of RFC 3986 section 3: scheme,
 * authority, path, query and fragment, plus `;params`) and `parse_qs`.
 */
module UrlParsing {
  import opened Wrappers
  import opened Text

  datatype Url = Url(scheme: string, netloc: string, path: string, params: string, query: string, fragment: string)

  /** Strips leading C0 control characters and spaces, as `urlsplit` does first. */
  function StripLeadingControls(s: string): (r: string)
    ensures |r| <= |s| && r == s[|s| - |r|..]
    ensures r == [] || r[0] > ' '
  {
    if s != [] && s[0] <= ' ' then StripLeadingControls(s[1..]) else s
  }

  /** Tab, carriage return and line feed are deleted anywhere in the URL. */
  predicate IsUnsafe(c: char) { c == '\t' || c == '\r' || c == '\n' }

  function RemoveUnsafe(s: string): (r: string)
    ensures forall i :: 0 <= i < |r| ==> !IsUnsafe(r[i])
  {
    if s == [] then []
    else (if IsUnsafe(s[0]) then [] else [s[0]]) + RemoveUnsafe(s[1..])
  }

  lemma {:induction false} RemoveUnsafeKeeps(s: string)
    requires forall i :: 0 <= i < |s| ==> !IsUnsafe(s[i])
    ensures RemoveUnsafe(s) == s
  {
    if s != [] {
      RemoveUnsafeKeeps(s[1..]);
    }
  }

  predicate IsAsciiLetter(c: char) { ('a' <= c <= 'z') || ('A' <= c <= 'Z') }

  predicate IsSchemeChar(c: char) {
    IsAsciiLetter(c) || ('0' <= c <= '9') || c == '+' || c == '-' || c == '.'
  }

  /** `s.split(c, 1)`: the text before the first `c` and the text after it. */
  function SplitAtFirst(s: string, c: char): (r: (string, string))
    ensures forall x :: x in r.0 || x in r.1 ==> x in s
    ensures c in s ==> c !in r.0 && s == r.0 + [c] + r.1
    ensures c !in s ==> r == (s, "")
  {
    if c in s then
      var i := IndexOfChar(s, c);
      assert s == s[..i] + [c] + s[i + 1..];
      (s[..i], s[i + 1..])
    else (s, "")
  }

  /** A scheme is recognised when the text before the first `:` is a letter followed by scheme characters. */
  function SplitScheme(s: string): (r: (string, string))
    ensures forall x :: x in r.1 ==> x in s
  {
    if ':' !in s then ("", s)
    else
      var i := IndexOfChar(s, ':');
      if i > 0 && IsAsciiLetter(s[0]) && (forall k :: 0 <= k < i ==> IsSchemeChar(s[k]))
      then (Lower(s[..i]), s[i + 1..])
      else ("", s)
  }

  predicate IsAuthorityEnd(c: char) { c == '/' || c == '?' || c == '#' }

  /** The first `/`, `?` or `#` at or after `i`, or the end of `s`. */
  function AuthorityEnd(s: string, i: nat): (e: nat)
    requires i <= |s|
    ensures i <= e <= |s|
    ensures forall k :: i <= k < e ==> !IsAuthorityEnd(s[k])
    ensures e == |s| || IsAuthorityEnd(s[e])
    decreases |s| - i
  {
    if i == |s| || IsAuthorityEnd(s[i]) then i else AuthorityEnd(s, i + 1)
  }

  /** The authority after a leading `//`, and what follows it. */
  function SplitAuthority(rest: string): (r: (string, string))
    ensures forall k :: 0 <= k < |r.0| ==> !IsAuthorityEnd(r.0[k])
    ensures forall x :: x in r.0 || x in r.1 ==> x in rest
  {
    if |rest| >= 2 && rest[..2] == "//" then
      var e := AuthorityEnd(rest, 2);
      (rest[2..e], rest[e..])
    else ("", rest)
  }

  /** `urlsplit`; `None` stands for the `ValueError` raised on an unbalanced `[` or `]` in the authority. */
  function UrlSplit(s: string): (r: Option<Url>)
    ensures r.Some? ==> forall k :: 0 <= k < |r.value.netloc| ==> !IsAuthorityEnd(r.value.netloc[k])
    ensures r.Some? ==> '\n' !in r.value.netloc && '\n' !in r.value.path && '\n' !in r.value.query
  {
    var (scheme, rest) := SplitScheme(RemoveUnsafe(StripLeadingControls(s)));
    var (netloc, afterNetloc) := SplitAuthority(rest);
    if ('[' in netloc) != (']' in netloc) then None
    else
      var (beforeFragment, fragment) := SplitAtFirst(afterNetloc, '#');
      var (path, query) := SplitAtFirst(beforeFragment, '?');
      Some(Url(scheme, netloc, path, "", query, fragment))
  }

  /** Schemes whose last path segment may carry `;params`. */
  const USES_PARAMS: set<string> :=
    {"", "ftp", "hdl", "prospero", "http", "imap", "https", "shttp", "rtsp", "rtsps",
     "rtspu", "sip", "sips", "mms", "sftp", "tel"}

  /** Index of the last `c` in `s`. */
  function LastIndexOfChar(s: string, c: char): (i: nat)
    requires c in s
    ensures i < |s| && s[i] == c && c !in s[i + 1..]
  {
    if s[|s| - 1] == c then |s| - 1
    else
      assert c in s[..|s| - 1];
      var i := LastIndexOfChar(s[..|s| - 1], c);
      assert s[i + 1..] == s[..|s| - 1][i + 1..] + [s[|s| - 1]];
      i
  }

  /** `_splitparams`: parameters begin at the first `;` of the last path segment. */
  function SplitParams(path: string): (r: (string, string))
    ensures forall x :: x in r.0 || x in r.1 ==> x in path
  {
    if '/' in path then
      var last := LastIndexOfChar(path, '/');
      var (head, params) := SplitAtFirst(path[last..], ';');
      if ';' in path[last..] then (path[..last] + head, params) else (path, "")
    else SplitAtFirst(path, ';')
  }

  /** `urlparse`. */
  function UrlParse(s: string): (r: Option<Url>)
    ensures r.Some? ==> '\n' !in r.value.netloc && '\n' !in r.value.path && '\n' !in r.value.query
  {
    match UrlSplit(s)
    case None => None
    case Some(u) =>
      if ';' in u.path && u.scheme in USES_PARAMS then
        var (path, params) := SplitParams(u.path);
        Some(u.(path := path, params := params))
      else Some(u)
  }

  /** `+` in a query field stands for a space. */
  function PlusToSpace(s: string): (r: string)
    ensures |r| == |s|
    ensures '\n' !in s ==> '\n' !in r
  {
    seq(|s|, i requires 0 <= i < |s| => if s[i] == '+' then ' ' else s[i])
  }

  /**
   * The name/value pairs of `parse_qsl` (default arguments) over the `&`-separated
   * fields: fields without `=` and fields with an empty value are dropped.
   */
  function QueryPairs(fields: seq<string>): (r: seq<(string, string)>)
    ensures |r| <= |fields|
    ensures (forall k :: 0 <= k < |fields| ==> '\n' !in fields[k]) ==> forall i :: 0 <= i < |r| ==> '\n' !in r[i].1
  {
    if fields == [] then []
    else
      var (name, value) := SplitAtFirst(fields[0], '=');
      var rest := QueryPairs(fields[1..]);
      if '=' !in fields[0] || value == "" then rest
      else [(PlusToSpace(name), PlusToSpace(value))] + rest
  }

  function ParseQsl(query: string): (r: seq<(string, string)>)
    ensures '\n' !in query ==> forall i :: 0 <= i < |r| ==> '\n' !in r[i].1
  {
    if query == "" then [] else QueryPairs(Split(query, '&'))
  }

  /** `parse_qs(query)[name][0]`: the value of the first pair with that name. */
  function FirstValue(pairs: seq<(string, string)>, name: string): (r: Option<string>)
    ensures r.Some? <==> exists i :: 0 <= i < |pairs| && pairs[i].0 == name
    ensures r.Some? ==> exists i :: 0 <= i < |pairs| && pairs[i] == (name, r.value) &&
                          (forall j :: 0 <= j < i ==> pairs[j].0 != name)
  {
    if pairs == [] then None
    else if pairs[0].0 == name then Some(pairs[0].1)
    else
      var r := FirstValue(pairs[1..], name);
      assert forall i :: 1 <= i < |pairs| ==> pairs[i] == pairs[1..][i - 1];
      r
  }

  /** A lower-case scheme before the first `:` is split off unchanged. */
  lemma SchemeSplit(scheme: string, rest: string)
    requires scheme != [] && forall k :: 0 <= k < |scheme| ==> 'a' <= scheme[k] <= 'z'
    ensures SplitScheme(scheme + ":" + rest) == (scheme, rest)
  {
    var url := scheme + ":" + rest;
    var n := |scheme|;
    assert url[..n] == scheme;
    assert url[n] == ':';
    assert IndexOfChar(url, ':') == n;
    assert Lower(scheme) == scheme;
    assert url[n + 1..] == rest;
  }

  /** The authority runs from after `//` to the first `/`, `?` or `#`. */
  lemma AuthoritySplit(host: string, rest: string)
    requires forall k :: 0 <= k < |host| ==> !IsAuthorityEnd(host[k])
    requires rest == [] || IsAuthorityEnd(rest[0])
    ensures SplitAuthority("//" + host + rest) == (host, rest)
  {
    var s := "//" + host + rest;
    assert s[..2] == "//";
    var e := 2 + |host|;
    assert s[2..e] == host;
    assert AuthorityEnd(s, 2) == e;
    assert s[e..] == rest;
  }

  /** A path free of `?` and `#`, followed by nothing or by `?query` with no `#`. */
  lemma PathQuerySplit(path: string, tail: string)
    requires '?' !in path && '#' !in path
    requires tail == [] || tail[0] == '?'
    requires '#' !in tail
    ensures SplitAtFirst(path + tail, '#') == (path + tail, "")
    ensures SplitAtFirst(path + tail, '?') == (path, if tail == [] then [] else tail[1..])
  {
    if tail == [] {
      assert path + tail == path;
    } else {
      assert (path + tail)[|path|] == '?';
      assert (path + tail)[..|path|] == path;
      assert IndexOfChar(path + tail, '?') == |path|;
      assert (path + tail)[|path| + 1..] == tail[1..];
    }
  }

  /** A URL that starts with a letter and has no tab or line break is left alone by the cleaning steps. */
  lemma CleanUrlKept(url: string)
    requires url != [] && IsAsciiLetter(url[0])
    requires forall c :: IsUnsafe(c) ==> c !in url
    ensures RemoveUnsafe(StripLeadingControls(url)) == url
  {
    RemoveUnsafeKeeps(url);
  }

  /** The component splits of `urlsplit` on a plain `scheme://host/path[?query]` URL. */
  lemma SimpleUrlSteps(scheme: string, host: string, path: string, tail: string)
    requires scheme != [] && forall k :: 0 <= k < |scheme| ==> 'a' <= scheme[k] <= 'z'
    requires forall k :: 0 <= k < |host| ==> !IsAuthorityEnd(host[k])
    requires '[' !in host && ']' !in host
    requires path != [] && path[0] == '/' && '?' !in path && '#' !in path && ';' !in path
    requires tail == [] || tail[0] == '?'
    requires '#' !in tail
    ensures SplitScheme(scheme + "://" + host + path + tail) == (scheme, "//" + host + path + tail)
    ensures SplitAuthority("//" + host + path + tail) == (host, path + tail)
    ensures SplitAtFirst(path + tail, '#') == (path + tail, "")
    ensures SplitAtFirst(path + tail, '?') == (path, if tail == [] then [] else tail[1..])
  {
    var url := scheme + "://" + host + path + tail;
    var rest := "//" + host + path + tail;
    assert SplitScheme(url) == (scheme, rest) by {
      assert url == scheme + ":" + rest;
      SchemeSplit(scheme, rest);
    }
    assert SplitAuthority(rest) == (host, path + tail) by {
      assert rest == "//" + host + (path + tail);
      AuthoritySplit(host, path + tail);
    }
    PathQuerySplit(path, tail);
  }

  /**
   * How `urlparse` splits a plain `scheme://host/path[?query]` URL: a lower-case
   * scheme, a host free of delimiters and brackets, a path free of `?`, `#` and
   * `;`, and an optional query free of `#`.
   */
  lemma SimpleUrlParse(scheme: string, host: string, path: string, tail: string)
    requires scheme != [] && forall k :: 0 <= k < |scheme| ==> 'a' <= scheme[k] <= 'z'
    requires forall k :: 0 <= k < |host| ==> !IsAuthorityEnd(host[k])
    requires '[' !in host && ']' !in host
    requires path != [] && path[0] == '/' && '?' !in path && '#' !in path && ';' !in path
    requires tail == [] || tail[0] == '?'
    requires '#' !in tail
    requires forall c :: IsUnsafe(c) ==> c !in host && c !in path && c !in tail
    ensures UrlParse(scheme + "://" + host + path + tail) ==
              Some(Url(scheme, host, path, "", if tail == [] then [] else tail[1..], ""))
  {
    var url := scheme + "://" + host + path + tail;
    assert RemoveUnsafe(StripLeadingControls(url)) == url by {
      assert url[0] == scheme[0];
      assert forall c :: IsUnsafe(c) ==> c !in url;
      CleanUrlKept(url);
    }
    SimpleUrlSteps(scheme, host, path, tail);
  }
}
