/** The .NET string operations the tool relies on, over `string` (a sequence of UTF-16
    code units in the source, a sequence of `char` here). */
module Text {

  import opened Results

  /** `char.IsWhiteSpace`: the Unicode space separators, line and paragraph separators,
      and the control characters U+0009..U+000D and U+0085. */
  predicate IsWhiteSpace(c: char) {
    || c == ' '
    || ('\t' <= c <= '\r')
    || c == '\U{85}' || c == '\U{A0}' || c == '\U{1680}'
    || ('\U{2000}' <= c <= '\U{200A}')
    || c == '\U{2028}' || c == '\U{2029}' || c == '\U{202F}' || c == '\U{205F}' || c == '\U{3000}'
  }

  /** `string.IsNullOrWhiteSpace` for a non-null string: empty, or white space only. */
  predicate IsNullOrWhiteSpace(s: string) {
    forall i :: 0 <= i < |s| ==> IsWhiteSpace(s[i])
  }

  /** `string.TrimStart()`. */
  function TrimStart(s: string): string {
    if |s| > 0 && IsWhiteSpace(s[0]) then TrimStart(s[1..]) else s
  }

  /** `string.TrimEnd()`. */
  function TrimEnd(s: string): string {
    if |s| > 0 && IsWhiteSpace(s[|s| - 1]) then TrimEnd(s[..|s| - 1]) else s
  }

  /** `TrimStart` drops the leading white space and nothing else: what it keeps is a
      suffix that is empty or starts with a non-white-space character, and everything
      it drops is white space. */
  lemma {:induction false} TrimStartSpec(s: string)
    ensures var r := TrimStart(s);
      && |r| <= |s| && r == s[|s| - |r|..]
      && (forall i :: 0 <= i < |s| - |r| ==> IsWhiteSpace(s[i]))
      && (r == [] || !IsWhiteSpace(r[0]))
  {
    if |s| > 0 && IsWhiteSpace(s[0]) {
      TrimStartSpec(s[1..]);
    }
  }

  /** `TrimEnd` drops the trailing white space and nothing else. */
  lemma {:induction false} TrimEndSpec(s: string)
    ensures var r := TrimEnd(s);
      && |r| <= |s| && r == s[..|r|]
      && (forall i :: |r| <= i < |s| ==> IsWhiteSpace(s[i]))
      && (r == [] || !IsWhiteSpace(r[|r| - 1]))
  {
    if |s| > 0 && IsWhiteSpace(s[|s| - 1]) {
      TrimEndSpec(s[..|s| - 1]);
    }
  }

  /** `string.Trim()`. */
  function Trim(s: string): string {
    TrimEnd(TrimStart(s))
  }

  /** `StartsWith(prefix, StringComparison.Ordinal)`. */
  predicate StartsWith(s: string, prefix: string) {
    |prefix| <= |s| && s[..|prefix|] == prefix
  }

  /** `EndsWith(suffix, StringComparison.Ordinal)`. */
  predicate EndsWith(s: string, suffix: string) {
    |suffix| <= |s| && s[|s| - |suffix|..] == suffix
  }

  /** `needle` occurs in `s` starting at index `i`. */
  predicate OccursAt(s: string, needle: string, i: int) {
    0 <= i && i + |needle| <= |s| && s[i..i + |needle|] == needle
  }

  /** `Contains(needle, StringComparison.Ordinal)`. */
  predicate Contains(s: string, needle: string) {
    exists i :: 0 <= i <= |s| - |needle| && OccursAt(s, needle, i)
  }

  /** The simple case folding behind `StringComparison.OrdinalIgnoreCase`, on ASCII letters. */
  function FoldChar(c: char): char {
    if 'A' <= c <= 'Z' then (c as int + 32) as char else c
  }

  function FoldCase(s: string): string {
    seq(|s|, i requires 0 <= i < |s| => FoldChar(s[i]))
  }

  /** `Contains(needle, StringComparison.OrdinalIgnoreCase)`. */
  predicate ContainsIgnoreCase(s: string, needle: string) {
    Contains(FoldCase(s), FoldCase(needle))
  }

  /** `StartsWith(prefix, StringComparison.OrdinalIgnoreCase)`. */
  predicate StartsWithIgnoreCase(s: string, prefix: string) {
    StartsWith(FoldCase(s), FoldCase(prefix))
  }

  /** The index of the first occurrence of `needle` in `s` at or after `from`: a helper
      that locates where the key regex's literal `x:Key="` first matches. */
  function IndexOf(s: string, needle: string, from: nat): (r: Option<nat>)
    requires from <= |s|
    decreases |s| - from
    ensures r.Some? ==> from <= r.value && OccursAt(s, needle, r.value)
    ensures r.Some? ==> forall j :: from <= j < r.value ==> !OccursAt(s, needle, j)
    ensures r.None? ==> forall j :: from <= j ==> !OccursAt(s, needle, j)
  {
    if OccursAt(s, needle, from) then Some(from)
    else if from == |s| then None
    else IndexOf(s, needle, from + 1)
  }

  /** The index of the last occurrence of `c` in `s[..upTo]`: a helper that locates where
      the key regex's greedy capture ends. */
  function LastIndexOf(s: string, c: char, upTo: nat): (r: Option<nat>)
    requires upTo <= |s|
    ensures r.Some? ==> r.value < upTo && s[r.value] == c
    ensures r.Some? ==> forall j :: r.value < j < upTo ==> s[j] != c
    ensures r.None? ==> forall j :: 0 <= j < upTo ==> s[j] != c
  {
    if upTo == 0 then None
    else if s[upTo - 1] == c then Some(upTo - 1)
    else LastIndexOf(s, c, upTo - 1)
  }

  /** Trimming cannot cut into a suffix that begins and ends with a non-white-space
      character: such a suffix of `s` is still a suffix of `Trim(s)`. */
  lemma TrimKeepsSuffix(s: string, suffix: string)
    requires EndsWith(s, suffix) && |suffix| > 0
    requires !IsWhiteSpace(suffix[0]) && !IsWhiteSpace(suffix[|suffix| - 1])
    ensures EndsWith(Trim(s), suffix)
  {
    var t := TrimStart(s);
    TrimStartSpec(s);
    var n := |suffix|;
    assert s[|s| - n] == suffix[0];
    assert |s| - |t| <= |s| - n;
    assert t[|t| - n..] == s[|s| - n..];
    assert t[|t| - 1] == suffix[n - 1];
    var r := TrimEnd(t);
    TrimEndSpec(t);
    assert |r| == |t|;
  }

  /** A case-insensitive prefix of `a` is a case-insensitive prefix of every string that
      extends `a`. */
  lemma StartsWithIgnoreCaseExtends(a: string, b: string, prefix: string)
    requires StartsWith(b, a) && StartsWithIgnoreCase(a, prefix)
    ensures StartsWithIgnoreCase(b, prefix)
  {
    var n := |prefix|;
    assert b[..n] == a[..n];
    assert FoldCase(b)[..n] == FoldCase(b[..n]);
    assert FoldCase(a)[..n] == FoldCase(a[..n]);
  }
}
