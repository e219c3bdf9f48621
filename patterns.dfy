/**
 * The regular expressions the id extractors use, written as explicit matchers.
 * Each pattern is an alternation of literal prefixes followed by a run of id
 * characters `[a-zA-Z0-9_-]`, searched for the way `re.search` does: the leftmost
 * starting position wins, and at that position the alternatives are tried in order.
 */
module Patterns {
  import opened Wrappers
  import opened Text

  /** The character class `[a-zA-Z0-9_-]`. */
  predicate IsIdChar(c: char) {
    ('a' <= c <= 'z') || ('A' <= c <= 'Z') || ('0' <= c <= '9') || c == '_' || c == '-'
  }

  predicate IsIdString(s: string) {
    forall i :: 0 <= i < |s| ==> IsIdChar(s[i])
  }

  /** The anchored shape `^[a-zA-Z0-9_-]{11}$` of a video id. */
  predicate IsVideoId(s: string) {
    |s| == 11 && IsIdString(s)
  }

  /** Length of the longest run of id characters starting at `i` (a greedy `[...]+` or `[...]*`). */
  function IdRunLength(s: string, i: nat): (n: nat)
    requires i <= |s|
    ensures i + n <= |s|
    ensures forall k :: i <= k < i + n ==> IsIdChar(s[k])
    ensures i + n == |s| || !IsIdChar(s[i + n])
    decreases |s| - i
  {
    if i < |s| && IsIdChar(s[i]) then 1 + IdRunLength(s, i + 1) else 0
  }

  /** A run of exactly `n` id characters that the string does not continue is the whole greedy run. */
  lemma IdRunExact(s: string, i: nat, n: nat)
    requires i + n <= |s|
    requires forall k :: i <= k < i + n ==> IsIdChar(s[k])
    requires i + n == |s| || !IsIdChar(s[i + n])
    ensures IdRunLength(s, i) == n
  {
  }

  /** What follows the literal prefix: a greedy `+` run, or exactly `count` id characters. */
  datatype Tail = OneOrMore | Exactly(count: nat)

  predicate TailAt(s: string, j: nat, t: Tail) {
    match t
    case OneOrMore => j < |s| && IsIdChar(s[j])
    case Exactly(n) => j + n <= |s| && forall k :: j <= k < j + n ==> IsIdChar(s[k])
  }

  /** The text captured by the group for a tail that matches at `j`. */
  function Group(s: string, j: nat, t: Tail): string
    requires TailAt(s, j, t)
  {
    match t
    case OneOrMore => s[j..j + IdRunLength(s, j)]
    case Exactly(n) => s[j..j + n]
  }

  /** A greedy `+` group is a non-empty run of id characters. */
  lemma GroupIsIdRun(s: string, j: nat)
    requires TailAt(s, j, OneOrMore)
    ensures Group(s, j, OneOrMore) != [] && IsIdString(Group(s, j, OneOrMore))
  {
    var g := Group(s, j, OneOrMore);
    forall i | 0 <= i < |g| ensures IsIdChar(g[i]) {
      assert g[i] == s[j + i];
    }
  }

  /** Alternative `alt` followed by the tail matches at position `i`. */
  predicate AltAt(s: string, i: nat, alt: string, t: Tail) {
    PrefixAt(s, i, alt) && TailAt(s, i + |alt|, t)
  }

  datatype Match = Match(pos: nat, alt: nat, group: string)

  /** The first alternative, from index `k` on, that matches at `i`. */
  function FirstAltAt(s: string, i: nat, alts: seq<string>, t: Tail, k: nat): (r: Option<nat>)
    requires k <= |alts|
    ensures r.Some? ==> k <= r.value < |alts| && AltAt(s, i, alts[r.value], t)
    ensures r.Some? ==> forall j :: k <= j < r.value ==> !AltAt(s, i, alts[j], t)
    ensures r.None? ==> forall j :: k <= j < |alts| ==> !AltAt(s, i, alts[j], t)
    decreases |alts| - k
  {
    if k == |alts| then None
    else if AltAt(s, i, alts[k], t) then Some(k)
    else FirstAltAt(s, i, alts, t, k + 1)
  }

  /** Some alternative matches at position `i`. */
  predicate AnyAltAt(s: string, i: nat, alts: seq<string>, t: Tail) {
    FirstAltAt(s, i, alts, t, 0).Some?
  }

  /** Any alternative that matches at `i` makes the position match. */
  lemma AltMakesMatch(s: string, i: nat, alts: seq<string>, t: Tail, k: nat)
    requires k < |alts| && AltAt(s, i, alts[k], t)
    ensures AnyAltAt(s, i, alts, t)
  {
  }

  /** The leftmost position from `i` on where some alternative matches. */
  function LeftmostFrom(s: string, alts: seq<string>, t: Tail, i: nat): (r: Option<nat>)
    requires i <= |s|
    ensures r.Some? ==> i <= r.value <= |s| && AnyAltAt(s, r.value, alts, t)
    ensures r.Some? ==> forall j :: i <= j < r.value ==> !AnyAltAt(s, j, alts, t)
    ensures r.None? ==> forall j :: i <= j <= |s| ==> !AnyAltAt(s, j, alts, t)
    decreases |s| - i
  {
    if AnyAltAt(s, i, alts, t) then Some(i)
    else if i == |s| then None
    else LeftmostFrom(s, alts, t, i + 1)
  }

  /** `re.search`: the leftmost match, the alternative taken there and its group. */
  function Search(s: string, alts: seq<string>, t: Tail): (r: Option<Match>)
    ensures r.Some? ==> r.value.pos <= |s| && r.value.alt < |alts|
    ensures r.Some? ==> AltAt(s, r.value.pos, alts[r.value.alt], t)
    ensures r.Some? ==> forall k :: 0 <= k < r.value.alt ==> !AltAt(s, r.value.pos, alts[k], t)
    ensures r.Some? ==> r.value.group == Group(s, r.value.pos + |alts[r.value.alt]|, t)
    ensures r.Some? ==> forall j :: 0 <= j < r.value.pos ==> !AnyAltAt(s, j, alts, t)
    ensures r.None? ==> forall j :: 0 <= j <= |s| ==> !AnyAltAt(s, j, alts, t)
  {
    match LeftmostFrom(s, alts, t, 0)
    case None => None
    case Some(i) => Some(MatchAt(s, alts, t, i))
  }

  /** The match at a position where some alternative matches: the first such alternative and its group. */
  function MatchAt(s: string, alts: seq<string>, t: Tail, i: nat): (m: Match)
    requires AnyAltAt(s, i, alts, t)
    ensures m.pos == i && m.alt < |alts| && AltAt(s, i, alts[m.alt], t)
    ensures forall k :: 0 <= k < m.alt ==> !AltAt(s, i, alts[k], t)
    ensures m.group == Group(s, i + |alts[m.alt]|, t)
  {
    var k := FirstAltAt(s, i, alts, t, 0).value;
    Match(i, k, Group(s, i + |alts[k]|, t))
  }

  /** A match at `i` with no match before it is the one `re.search` reports. */
  lemma SearchFindsLeftmost(s: string, alts: seq<string>, t: Tail, i: nat)
    requires i <= |s| && AnyAltAt(s, i, alts, t)
    requires forall j :: 0 <= j < i ==> !AnyAltAt(s, j, alts, t)
    ensures Search(s, alts, t).Some? && Search(s, alts, t).value.pos == i
  {
    LeftmostFromFinds(s, alts, t, 0, i);
  }

  /** The scan from `from` stops at the first position that matches. */
  lemma {:induction false} LeftmostFromFinds(s: string, alts: seq<string>, t: Tail, from: nat, i: nat)
    requires from <= i <= |s| && AnyAltAt(s, i, alts, t)
    requires forall j :: from <= j < i ==> !AnyAltAt(s, j, alts, t)
    ensures LeftmostFrom(s, alts, t, from) == Some(i)
    decreases i - from
  {
    if from < i {
      LeftmostFromFinds(s, alts, t, from + 1, i);
    }
  }

  /** With a single alternative, a match at `i` and none before it is reported with its group. */
  lemma SearchOnlyAlternative(s: string, alts: seq<string>, t: Tail, i: nat)
    requires |alts| == 1 && i <= |s| && AltAt(s, i, alts[0], t)
    requires forall j :: 0 <= j < i ==> !AnyAltAt(s, j, alts, t)
    ensures Search(s, alts, t) == Some(Match(i, 0, Group(s, i + |alts[0]|, t)))
  {
    assert FirstAltAt(s, i, alts, t, 0) == Some(0);
    LeftmostFromFinds(s, alts, t, 0, i);
    SearchAtLeftmost(s, alts, t, i);
    MatchAtFirst(s, alts, t, i, 0);
  }

  /** `re.search` assembled from the leftmost position and the alternative taken there. */
  lemma SearchFromParts(s: string, alts: seq<string>, t: Tail, i: nat, k: nat)
    requires i <= |s| && LeftmostFrom(s, alts, t, 0) == Some(i)
    requires FirstAltAt(s, i, alts, t, 0) == Some(k)
    ensures k < |alts| && Search(s, alts, t) == Some(Match(i, k, Group(s, i + |alts[k]|, t)))
  {
    SearchAtLeftmost(s, alts, t, i);
    MatchAtFirst(s, alts, t, i, k);
  }

  /** `re.search` reports the match at the leftmost matching position. */
  lemma SearchAtLeftmost(s: string, alts: seq<string>, t: Tail, i: nat)
    requires i <= |s| && LeftmostFrom(s, alts, t, 0) == Some(i)
    ensures AnyAltAt(s, i, alts, t) && Search(s, alts, t) == Some(MatchAt(s, alts, t, i))
  {
  }

  /** The match at a position takes the first alternative that fits there. */
  lemma MatchAtFirst(s: string, alts: seq<string>, t: Tail, i: nat, k: nat)
    requires FirstAltAt(s, i, alts, t, 0) == Some(k)
    ensures k < |alts| && AnyAltAt(s, i, alts, t)
    ensures MatchAt(s, alts, t, i) == Match(i, k, Group(s, i + |alts[k]|, t))
  {
    assert AnyAltAt(s, i, alts, t);
    assert MatchAt(s, alts, t, i).alt == k;
  }

  /**
   * If every alternative contains a character outside the id class, nothing
   * matches inside a string made only of id characters.
   */
  lemma NoMatchInIdString(s: string, alts: seq<string>, t: Tail)
    requires IsIdString(s)
    requires forall k :: 0 <= k < |alts| ==> !IsIdString(alts[k])
    ensures Search(s, alts, t) == None
  {
    forall j, k | 0 <= j <= |s| && 0 <= k < |alts| ensures !AltAt(s, j, alts[k], t) {
      var m :| 0 <= m < |alts[k]| && !IsIdChar(alts[k][m]);
    }
  }

  /** If every alternative starts with `c`, positions holding another character never match. */
  lemma NoMatchWithoutLead(s: string, alts: seq<string>, t: Tail, c: char, j: nat)
    requires forall k :: 0 <= k < |alts| ==> |alts[k]| > 0 && alts[k][0] == c
    requires j < |s| && s[j] != c
    ensures !AnyAltAt(s, j, alts, t)
  {
    forall k | 0 <= k < |alts| ensures !AltAt(s, j, alts[k], t) {
    }
  }
}
