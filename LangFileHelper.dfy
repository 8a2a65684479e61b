/** The two line-array lookups of the lang-file helper: locating the declaration line of a
    resource key, and collecting the body lines of a multi-line `sys:String` entry. Both
    only read the line array they are given. */
module LangFileHelper {

  import opened Results
  import opened Text

  /** The closing tag of a string resource. */
  const CloseTag: string := "</sys:String>"

  /** The attribute text the key lookup searches for: `x:Key="<key>"`. */
  function KeyAttribute(key: string): string {
    "x:Key=\"" + key + "\""
  }

  /** A line that ends a string resource: its trimmed form ends with the closing tag. */
  predicate ClosesEntry(line: string) {
    EndsWith(Trim(line), CloseTag)
  }

  /** Where a key's declaration starts, and whether it is a one-liner. */
  datatype KeyInfo = KeyInfo(oneliner: bool, index: nat)

  /** The first index at or after `from` whose line contains `needle`, ignoring case. */
  function FirstContaining(lines: seq<string>, needle: string, from: nat): (r: Option<nat>)
    requires from <= |lines|
    decreases |lines| - from
    ensures r.Some? ==> from <= r.value < |lines|
  {
    if from == |lines| then None
    else if ContainsIgnoreCase(lines[from], needle) then Some(from)
    else FirstContaining(lines, needle, from + 1)
  }

  /** `FirstContaining` finds the first match: the line it names contains the needle and
      no line before it (from `from` on) does; when it finds nothing, no line does. */
  lemma {:induction false} FirstContainingSpec(lines: seq<string>, needle: string, from: nat)
    requires from <= |lines|
    decreases |lines| - from
    ensures var r := FirstContaining(lines, needle, from);
      && (r.Some? ==> ContainsIgnoreCase(lines[r.value], needle))
      && (r.Some? ==> forall j :: from <= j < r.value ==> !ContainsIgnoreCase(lines[j], needle))
      && (r.None? ==> forall j :: from <= j < |lines| ==> !ContainsIgnoreCase(lines[j], needle))
  {
    if from < |lines| && !ContainsIgnoreCase(lines[from], needle) {
      FirstContainingSpec(lines, needle, from + 1);
    }
  }

  /** The first index at or after `from` whose line closes an entry. */
  function FirstClosing(lines: seq<string>, from: nat): (r: Option<nat>)
    requires from <= |lines|
    decreases |lines| - from
    ensures r.Some? ==> from <= r.value < |lines|
  {
    if from == |lines| then None
    else if ClosesEntry(lines[from]) then Some(from)
    else FirstClosing(lines, from + 1)
  }

  /** `FirstClosing` finds the first closing line at or after `from`, or there is none. */
  lemma {:induction false} FirstClosingSpec(lines: seq<string>, from: nat)
    requires from <= |lines|
    decreases |lines| - from
    ensures var r := FirstClosing(lines, from);
      && (r.Some? ==> ClosesEntry(lines[r.value]))
      && (r.Some? ==> forall j :: from <= j < r.value ==> !ClosesEntry(lines[j]))
      && (r.None? ==> forall j :: from <= j < |lines| ==> !ClosesEntry(lines[j]))
  {
    if from < |lines| && !ClosesEntry(lines[from]) {
      FirstClosingSpec(lines, from + 1);
    }
  }

  /** What the key lookup answers. */
  function ResourceKeyStart(lines: seq<string>, key: string): (r: Result<KeyInfo>)
    ensures r.Ok? ==> r.value.index < |lines|
  {
    match FirstContaining(lines, KeyAttribute(key), 0)
    case None => Err(KeyNotFound)
    case Some(i) => Ok(KeyInfo(ClosesEntry(lines[i]), i))
  }

  /** The key lookup answers the first line holding `x:Key="<key>"` (any case), flagged as
      a one-liner exactly when that line, trimmed, ends with the closing tag; it fails with
      "Key not found" exactly when no line holds the attribute. */
  lemma ResourceKeyStartSpec(lines: seq<string>, key: string)
    ensures var r := ResourceKeyStart(lines, key);
      && (r.Ok? ==>
            && ContainsIgnoreCase(lines[r.value.index], KeyAttribute(key))
            && (forall j :: 0 <= j < r.value.index ==> !ContainsIgnoreCase(lines[j], KeyAttribute(key)))
            && (r.value.oneliner <==> ClosesEntry(lines[r.value.index])))
      && (r.Err? ==>
            && r.error == KeyNotFound
            && forall j :: 0 <= j < |lines| ==> !ContainsIgnoreCase(lines[j], KeyAttribute(key)))
  {
    FirstContainingSpec(lines, KeyAttribute(key), 0);
  }

  /** What the multi-line reader yields: it refuses a start line whose raw text already
      ends with the closing tag, then yields the lines after `start` up to, not including,
      the first line that closes the entry; an index past either end of the array is an
      error. */
  function MultilineContents(lines: seq<string>, start: int): (r: Result<seq<string>>)
    ensures r.Ok? ==> 0 <= start && start + 1 + |r.value| < |lines|
  {
    if !(0 <= start < |lines|) then Err(IndexOutOfRange)
    else if EndsWith(lines[start], CloseTag) then Err(ArgumentOutOfRange)
    else
      match FirstClosing(lines, start + 1)
      case None => Err(IndexOutOfRange)
      case Some(c) => Ok(lines[start + 1..c])
  }

  /** The lines yielded for a multi-line entry are exactly those strictly between its
      opening line and the first closing line after it, none of which closes the entry;
      the lookup fails when the raw opening line already ends with the closing tag, and
      otherwise succeeds exactly when a closing line follows, running off the array when
      none does. */
  lemma MultilineContentsSpec(lines: seq<string>, start: int)
    ensures var r := MultilineContents(lines, start);
      && (!(0 <= start < |lines|) ==> r == Err(IndexOutOfRange))
      && (0 <= start < |lines| && EndsWith(lines[start], CloseTag) ==> r == Err(ArgumentOutOfRange))
      && (r.Ok? ==>
            var c := start + 1 + |r.value|;
            && 0 <= start && c < |lines|
            && !EndsWith(lines[start], CloseTag)
            && r.value == lines[start + 1..c]
            && ClosesEntry(lines[c])
            && (forall j :: start < j < c ==> !ClosesEntry(lines[j])))
      && (r == Err(IndexOutOfRange) && 0 <= start < |lines| ==>
            forall j :: start < j < |lines| ==> !ClosesEntry(lines[j]))
      && (0 <= start < |lines| && !EndsWith(lines[start], CloseTag) ==>
            && (r.Ok? <==> exists c :: start < c < |lines| && ClosesEntry(lines[c]))
            && (r.Err? ==> r == Err(IndexOutOfRange)))
  {
    if 0 <= start < |lines| && !EndsWith(lines[start], CloseTag) {
      FirstClosingSpec(lines, start + 1);
      var f := FirstClosing(lines, start + 1);
      if f.Some? {
        assert |lines[start + 1..f.value]| == f.value - start - 1;
      }
    }
  }

  /** A scan that stopped at `i`, having passed only non-closing lines, has found the
      first closing line after `start`, or has run off the end. */
  lemma ScanFindsClosing(lines: seq<string>, start: nat, i: nat)
    requires start < |lines| && !EndsWith(lines[start], CloseTag)
    requires start + 1 <= i <= |lines|
    requires forall j :: start < j < i ==> !ClosesEntry(lines[j])
    requires i < |lines| ==> ClosesEntry(lines[i])
    ensures MultilineContents(lines, start) == if i == |lines| then Err(IndexOutOfRange) else Ok(lines[start + 1..i])
  {
    var f := FirstClosing(lines, start + 1);
    FirstClosingSpec(lines, start + 1);
    if i < |lines| {
      assert f == Some(i);
    }
  }

  /** `GetResourceKeyStartIndex`: scans the lines front to back and stops at the first
      one holding the key attribute. */
  method GetResourceKeyStartIndex(contents: array<string>, key: string) returns (r: Result<KeyInfo>)
    ensures r == ResourceKeyStart(contents[..], key)
  {
    var needle := KeyAttribute(key);
    FirstContainingSpec(contents[..], needle, 0);
    for i := 0 to contents.Length
      invariant forall j :: 0 <= j < i ==> !ContainsIgnoreCase(contents[j], needle)
    {
      var line := contents[i];
      if ContainsIgnoreCase(line, needle) {
        return Ok(KeyInfo(EndsWith(Trim(line), CloseTag), i));
      }
    }
    return Err(KeyNotFound);
  }

  /** `GetMultilineResourceContents`: the yielded lines, collected in order. */
  method GetMultilineResourceContents(contents: array<string>, startIndex: int) returns (r: Result<seq<string>>)
    ensures r == MultilineContents(contents[..], startIndex)
  {
    if !(0 <= startIndex < contents.Length) {
      return Err(IndexOutOfRange);
    }
    if EndsWith(contents[startIndex], CloseTag) {
      return Err(ArgumentOutOfRange);
    }
    var i := startIndex + 1;
    var yielded: seq<string> := [];
    while i < contents.Length && !ClosesEntry(contents[i])
      invariant startIndex + 1 <= i <= contents.Length
      invariant yielded == contents[startIndex + 1..i]
      invariant forall j :: startIndex < j < i ==> !ClosesEntry(contents[j])
    {
      yielded := yielded + [contents[i]];
      i := i + 1;
    }
    ScanFindsClosing(contents[..], startIndex, i);
    if i == contents.Length {
      return Err(IndexOutOfRange);
    }
    return Ok(yielded);
  }
}
