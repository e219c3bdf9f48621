/**
 * String operations with the meaning Python's `str` gives them:
 * `strip`, `lower`, `in`, `split` and `join`.
 */
module Text {

  /** Python's `str.isspace()` for a single character. */
  predicate IsSpace(c: char) {
    || c == ' '
    || ('\t' <= c <= '\r')
    || ('\U{1c}' <= c <= '\U{1f}')
    || c == '\U{85}' || c == '\U{a0}' || c == '\U{1680}'
    || ('\U{2000}' <= c <= '\U{200a}')
    || c == '\U{2028}' || c == '\U{2029}' || c == '\U{202f}' || c == '\U{205f}' || c == '\U{3000}'
  }

  /** Drops leading whitespace (`str.lstrip()`). */
  function TrimStart(s: string): (r: string)
    ensures |r| <= |s| && r == s[|s| - |r|..]
    ensures forall i :: 0 <= i < |s| - |r| ==> IsSpace(s[i])
    ensures r == [] || !IsSpace(r[0])
  {
    if s != [] && IsSpace(s[0]) then TrimStart(s[1..]) else s
  }

  /** Drops trailing whitespace (`str.rstrip()`). */
  function TrimEnd(s: string): (r: string)
    ensures |r| <= |s| && r == s[..|r|]
    ensures forall i :: |r| <= i < |s| ==> IsSpace(s[i])
    ensures r == [] || !IsSpace(r[|r| - 1])
  {
    if s != [] && IsSpace(s[|s| - 1]) then TrimEnd(s[..|s| - 1]) else s
  }

  /** `str.strip()`: the longest slice of `s` that neither starts nor ends with whitespace. */
  function Strip(s: string): (r: string)
    ensures |r| <= |s|
    ensures r == [] || (!IsSpace(r[0]) && !IsSpace(r[|r| - 1]))
    ensures r == [] <==> forall i :: 0 <= i < |s| ==> IsSpace(s[i])
    ensures exists a :: SpaceFramed(s, r, a)
  {
    var t := TrimStart(s);
    var r := TrimEnd(t);
    assert r == [] ==> t == [];
    TrimmedFramed(s, t, r);
    r
  }

  /**
   * Dropping whitespace from the front of `s` (giving `t`) and then from the back of
   * `t` (giving `r`) leaves a slice of `s` framed by whitespace.
   */
  lemma TrimmedFramed(s: string, t: string, r: string)
    requires |t| <= |s| && t == s[|s| - |t|..] && forall i :: 0 <= i < |s| - |t| ==> IsSpace(s[i])
    requires |r| <= |t| && r == t[..|r|] && forall i :: |r| <= i < |t| ==> IsSpace(t[i])
    ensures SpaceFramed(s, r, |s| - |t|)
  {
    var a := |s| - |t|;
    forall i | a + |r| <= i < |s|
      ensures IsSpace(s[i])
    {
      assert s[i] == t[i - a];
    }
  }

  /** `r` sits at offset `a` of `s`, with only whitespace before and after it. */
  predicate SpaceFramed(s: string, r: string, a: int) {
    0 <= a <= |s| - |r| && r == s[a..a + |r|] &&
    (forall i :: 0 <= i < a ==> IsSpace(s[i])) &&
    (forall i :: a + |r| <= i < |s| ==> IsSpace(s[i]))
  }

  /** A string that does not start or end with whitespace is its own `strip()`. */
  lemma StripKeeps(s: string)
    requires s == [] || (!IsSpace(s[0]) && !IsSpace(s[|s| - 1]))
    ensures Strip(s) == s
  {
  }

  /** `strip()` only removes characters: whatever is in the result was in the input. */
  lemma StripKeepsCharacters(s: string, c: char)
    requires c in Strip(s)
    ensures c in s
  {
    var t := TrimStart(s);
    assert Strip(s) == TrimEnd(t);
    assert c in t;
  }

  /** Lower-casing yields `c` only from `c` itself or from its upper-case letter. */
  lemma LowerOrigin(s: string, i: nat)
    requires i < |s|
    ensures Lower(s)[i] == s[i] || ('A' <= s[i] <= 'Z' && Lower(s)[i] == (s[i] as int + 32) as char)
  {
  }

  /** `strip()` is idempotent. */
  lemma StripIdempotent(s: string)
    ensures Strip(Strip(s)) == Strip(s)
  {
    StripKeeps(Strip(s));
  }

  /** ASCII case folding of one character; other characters are left unchanged. */
  function LowerChar(c: char): char {
    if 'A' <= c <= 'Z' then (c as int + 32) as char else c
  }

  /** `str.lower()` restricted to ASCII letters. */
  function Lower(s: string): string {
    seq(|s|, i requires 0 <= i < |s| => LowerChar(s[i]))
  }

  /** `p` occurs in `s` starting at index `i`. */
  predicate PrefixAt(s: string, i: nat, p: string) {
    i + |p| <= |s| && s[i..i + |p|] == p
  }

  /** Python's `p in s` for strings. */
  predicate Contains(s: string, p: string) {
    exists i: nat | i <= |s| :: PrefixAt(s, i, p)
  }

  /** A string cannot contain a pattern one of whose characters it lacks. */
  lemma MissingCharNotContained(s: string, p: string, k: nat)
    requires k < |p| && p[k] !in s
    ensures !Contains(s, p)
  {
    forall i: nat | i <= |s|
      ensures !PrefixAt(s, i, p)
    {
      if i + |p| <= |s| {
        assert s[i..i + |p|][k] == s[i + k];
      }
    }
  }

  /** A pattern found at `i` is contained. */
  lemma FoundAt(s: string, i: nat, p: string)
    requires PrefixAt(s, i, p)
    ensures Contains(s, p)
  {
  }

  /** A pattern found in the second part of a concatenation is found in the whole. */
  lemma ContainsInSuffix(a: string, b: string, p: string)
    requires Contains(b, p)
    ensures Contains(a + b, p)
  {
    var i: nat :| i <= |b| && PrefixAt(b, i, p);
    assert (a + b)[|a| + i..|a| + i + |p|] == b[i..i + |p|];
    assert PrefixAt(a + b, |a| + i, p);
  }

  /**
   * When `a` ends with a character `p` lacks and `a` alone does not contain `p`,
   * every occurrence of `p` in `a + b` lies inside `b`.
   */
  lemma ContainsAfterSeparator(a: string, b: string, p: string)
    requires a != [] && a[|a| - 1] !in p
    requires !Contains(a, p)
    ensures Contains(a + b, p) ==> Contains(b, p)
  {
    forall i: nat | i < |a|
      ensures !PrefixAt(a + b, i, p)
    {
      if i + |p| <= |a| {
        assert (a + b)[i..i + |p|] == a[i..i + |p|];
        assert !PrefixAt(a, i, p);
      } else if i + |p| <= |a + b| {
        assert (a + b)[i..i + |p|][|a| - 1 - i] == a[|a| - 1];
      }
    }
    if Contains(a + b, p) {
      var i: nat :| i <= |a + b| && PrefixAt(a + b, i, p);
      assert (a + b)[i..i + |p|] == b[i - |a|..i - |a| + |p|];
      assert PrefixAt(b, i - |a|, p);
    }
  }

  lemma LowerAppend(a: string, b: string)
    ensures Lower(a + b) == Lower(a) + Lower(b)
  {
  }

  /** Python's `sep.join(parts)`. */
  function Join(parts: seq<string>, sep: string): string
  {
    if |parts| == 0 then ""
    else if |parts| == 1 then parts[0]
    else parts[0] + sep + Join(parts[1..], sep)
  }

  /** Index of the first occurrence of `c` in `s`. */
  function IndexOfChar(s: string, c: char): (i: nat)
    requires c in s
    ensures i < |s| && s[i] == c && c !in s[..i]
  {
    if s[0] == c then 0 else 1 + IndexOfChar(s[1..], c)
  }

  /**
   * Python's `s.split(c)` for a one-character separator: the pieces between
   * separators, so that joining them with `c` gives `s` back.
   */
  function Split(s: string, c: char): (parts: seq<string>)
    ensures |parts| >= 1
    ensures forall k :: 0 <= k < |parts| ==> c !in parts[k]
    ensures Join(parts, [c]) == s
    ensures forall k, x :: 0 <= k < |parts| && x in parts[k] ==> x in s
    decreases |s|
  {
    if c !in s then [s]
    else
      var i := IndexOfChar(s, c);
      var rest := Split(s[i + 1..], c);
      var parts := [s[..i]] + rest;
      assert parts[1..] == rest;
      assert s == s[..i] + [c] + s[i + 1..];
      parts
  }

  /** Splitting undoes joining with a separator that no piece contains. */
  lemma {:induction false} SplitJoin(parts: seq<string>, c: char)
    requires |parts| >= 1
    requires forall k :: 0 <= k < |parts| ==> c !in parts[k]
    ensures Split(Join(parts, [c]), c) == parts
  {
    if |parts| > 1 {
      var s := Join(parts, [c]);
      var rest := Join(parts[1..], [c]);
      assert s == parts[0] + [c] + rest;
      assert s[|parts[0]|] == c;
      var i := IndexOfChar(s, c);
      assert s[..i] == parts[0];
      assert s[i + 1..] == rest;
      SplitJoin(parts[1..], c);
    }
  }

  /** Joining one more part appends the separator and the part. */
  lemma {:induction false} JoinSnoc(parts: seq<string>, x: string, sep: string)
    ensures Join(parts + [x], sep) == if parts == [] then x else Join(parts, sep) + sep + x
  {
    if |parts| > 1 {
      assert (parts + [x])[1..] == parts[1..] + [x];
      JoinSnoc(parts[1..], x, sep);
    } else if |parts| == 1 {
      assert (parts + [x])[1..] == [x];
    }
  }

  /** Joining two non-empty runs of parts puts one separator between their joins. */
  lemma {:induction false} JoinAppend(parts: seq<string>, more: seq<string>, sep: string)
    requires parts != [] && more != []
    ensures Join(parts + more, sep) == Join(parts, sep) + sep + Join(more, sep)
  {
    if |parts| == 1 {
      assert (parts + more)[1..] == more;
    } else {
      assert (parts + more)[1..] == parts[1..] + more;
      JoinAppend(parts[1..], more, sep);
    }
  }
}
