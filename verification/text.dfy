/**
 * The few Python `str` operations the bot's routing relies on:
 * `strip()`, `lower()`, `in` and `split(sep, 1)[-1]`.
 */
module Text {
  import opened Wrappers

  /** Python's `str.isspace()`: exactly the characters `str.strip()` removes by default. */
  predicate IsSpace(c: char) {
    || ('\t' <= c <= '\r')
    || ('\U{1C}' <= c <= '\U{1F}')
    || c == ' ' || c == '\U{85}' || c == '\U{A0}' || c == '\U{1680}'
    || ('\U{2000}' <= c <= '\U{200A}')
    || c == '\U{2028}' || c == '\U{2029}' || c == '\U{202F}' || c == '\U{205F}' || c == '\U{3000}'
  }

  predicate AllSpace(s: string) {
    forall i :: 0 <= i < |s| ==> IsSpace(s[i])
  }

  /** `s` has no whitespace at either end (the shape of every `strip()` result). */
  predicate Trimmed(s: string) {
    |s| == 0 || (!IsSpace(s[0]) && !IsSpace(s[|s| - 1]))
  }

  /** `s.lstrip()`: drops the leading whitespace, and only that. */
  function TrimStart(s: string): (r: string)
    ensures |r| <= |s| && r == s[|s| - |r|..]
    ensures AllSpace(s[..|s| - |r|])
    ensures |r| > 0 ==> !IsSpace(r[0])
    decreases |s|
  {
    if |s| > 0 && IsSpace(s[0]) then TrimStart(s[1..]) else s
  }

  /** `s.rstrip()`: drops the trailing whitespace, and only that. */
  function TrimEnd(s: string): (r: string)
    ensures |r| <= |s| && r == s[..|r|]
    ensures AllSpace(s[|r|..])
    ensures |r| > 0 ==> !IsSpace(r[|r| - 1])
    decreases |s|
  {
    if |s| > 0 && IsSpace(s[|s| - 1]) then TrimEnd(s[..|s| - 1]) else s
  }

  /** Python's `s.strip()`: the result never starts or ends with whitespace. */
  function Strip(s: string): (r: string)
    ensures Trimmed(r)
    ensures |r| <= |s|
  {
    var t := TrimStart(s);
    var r := TrimEnd(t);
    assert |r| > 0 ==> r[0] == t[0];
    r
  }

  /** `strip()` removes only whitespace, and only from the two ends: its result is a slice of `s`. */
  lemma StripShape(s: string)
    ensures var r := Strip(s); var a := |s| - |TrimStart(s)|;
      && r == s[a..a + |r|]
      && AllSpace(s[..a])
      && AllSpace(s[a + |r|..])
  {
    StripIsSlice(s);
    StripDropsTrailingSpace(s);
  }

  lemma StripIsSlice(s: string)
    ensures var r := Strip(s); var a := |s| - |TrimStart(s)|; r == s[a..a + |r|]
  {
    var t := TrimStart(s);
    var r := TrimEnd(t);
    var a := |s| - |t|;
    assert Strip(s) == r;
    PrefixOfSuffix(s, a, |r|);
  }

  lemma PrefixOfSuffix<T>(s: seq<T>, a: nat, n: nat)
    requires a + n <= |s|
    ensures s[a..][..n] == s[a..a + n]
  {
  }

  lemma StripDropsTrailingSpace(s: string)
    ensures var r := Strip(s); var a := |s| - |TrimStart(s)|; AllSpace(s[a + |r|..])
  {
    var t := TrimStart(s);
    var r := TrimEnd(t);
    var a := |s| - |t|;
    assert Strip(s) == r;
    assert s[a + |r|..] == t[|r|..];
  }

  lemma {:induction false} TrimStartOfSpacePrefix(pre: string, t: string)
    requires AllSpace(pre)
    requires |t| == 0 || !IsSpace(t[0])
    ensures TrimStart(pre + t) == t
    decreases |pre|
  {
    if |pre| > 0 {
      assert (pre + t)[1..] == pre[1..] + t;
      TrimStartOfSpacePrefix(pre[1..], t);
    } else {
      assert pre + t == t;
    }
  }

  lemma {:induction false} TrimEndOfSpaceSuffix(t: string, post: string)
    requires AllSpace(post)
    requires |t| == 0 || !IsSpace(t[|t| - 1])
    ensures TrimEnd(t + post) == t
    decreases |post|
  {
    if |post| > 0 {
      assert (t + post)[..|t + post| - 1] == t + post[..|post| - 1];
      TrimEndOfSpaceSuffix(t, post[..|post| - 1]);
    } else {
      assert t + post == t;
    }
  }

  /**
   * `strip()` is characterised by its shape: whenever `s` is whitespace, then a
   * trimmed middle, then whitespace, `strip()` returns that middle.
   */
  lemma StripUnique(pre: string, m: string, post: string)
    requires AllSpace(pre) && AllSpace(post) && Trimmed(m)
    ensures Strip(pre + m + post) == m
  {
    if |m| == 0 {
      assert pre + m + post == (pre + post) + [];
      TrimStartOfSpacePrefix(pre + post, []);
    } else {
      assert pre + m + post == pre + (m + post);
      TrimStartOfSpacePrefix(pre, m + post);
      TrimEndOfSpaceSuffix(m, post);
    }
  }

  /** Stripping twice is stripping once. */
  lemma StripIdempotent(s: string)
    ensures Strip(Strip(s)) == Strip(s)
  {
    var m := Strip(s);
    assert m == [] + m + [];
    StripUnique([], m, []);
  }

  /** `s[i..]` starts with `pat`. */
  predicate OccursAt(s: string, pat: string, i: nat) {
    i + |pat| <= |s| && s[i..i + |pat|] == pat
  }

  /** The first position at or after `i` where `pat` occurs in `s` (Python's `s.find(pat, i)`). */
  function FindFrom(s: string, pat: string, i: nat): (r: Option<nat>)
    requires i <= |s|
    ensures r.Some? ==> i <= r.value && OccursAt(s, pat, r.value)
    ensures r.Some? ==> forall j :: i <= j < r.value ==> !OccursAt(s, pat, j)
    ensures r.None? ==> forall j :: i <= j <= |s| ==> !OccursAt(s, pat, j)
    decreases |s| - i
  {
    if OccursAt(s, pat, i) then Some(i)
    else if i == |s| then None
    else FindFrom(s, pat, i + 1)
  }

  /** Python's `pat in s`. */
  predicate Contains(s: string, pat: string) {
    FindFrom(s, pat, 0).Some?
  }

  /** Python's `s.split(sep, 1)[-1]`: the text after the first `sep`, or all of `s` when there is none. */
  function AfterFirst(s: string, sep: string): (r: string)
    ensures Contains(s, sep) ==> exists i: nat :: OccursAt(s, sep, i) && r == s[i + |sep|..]
    ensures !Contains(s, sep) ==> r == s
  {
    match FindFrom(s, sep, 0)
    case Some(i) => s[i + |sep|..]
    case None => s
  }

  /** The text after the first occurrence of `sep` is determined by that occurrence. */
  lemma AfterFirstAt(s: string, sep: string, i: nat)
    requires OccursAt(s, sep, i)
    requires forall j :: 0 <= j < i ==> !OccursAt(s, sep, j)
    ensures Contains(s, sep)
    ensures AfterFirst(s, sep) == s[i + |sep|..]
  {
  }

  /** An occurrence of `pat` at any position makes `pat in s` true (the converse is `FindFrom`'s contract). */
  lemma OccurrenceContains(s: string, pat: string, i: nat)
    requires OccursAt(s, pat, i)
    ensures Contains(s, pat)
  {
  }

  /** Python's `str.lower()` on one character, for the ASCII letters. */
  function LowerChar(c: char): char {
    if 'A' <= c <= 'Z' then (c as int + 32) as char else c
  }

  /** Python's `str.lower()`, letter by letter. */
  function ToLower(s: string): (r: string)
    ensures |r| == |s|
    ensures forall i :: 0 <= i < |s| ==> r[i] == LowerChar(s[i])
  {
    seq(|s|, i requires 0 <= i < |s| => LowerChar(s[i]))
  }

  /** A case-sensitive occurrence of an all-lower-case pattern is also a case-insensitive one. */
  lemma LowerKeepsOccurrence(s: string, pat: string, i: nat)
    requires ToLower(pat) == pat
    requires OccursAt(s, pat, i)
    ensures OccursAt(ToLower(s), pat, i)
  {
    var l := ToLower(s);
    forall j | 0 <= j < |pat|
      ensures l[i + j] == pat[j]
    {
      assert s[i + j] == pat[j];
      assert LowerChar(pat[j]) == pat[j];
    }
    assert l[i..i + |pat|] == pat;
  }
}
