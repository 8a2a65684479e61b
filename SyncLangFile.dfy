/** The `sync` command's transform: walk the source lang file line by line, copy blank
    lines and comments through, and replace each key declaration by that key's whole
    entry, taken from the target file when the target declares the key and from the
    source file otherwise. Everything else in the source is dropped. */
module SyncLangFile {

  import opened Results
  import opened Text
  import opened LangFileHelper

  const CommentOpen: string := "<!--"
  const CommentClose: string := "-->"

  /** The literal part of the key regex `x:Key="([\W\w]+)"`. */
  const KeyAttrOpen: string := "x:Key=\""

  // ---------------------------------------------------------------------------
  // The key regex

  /** The regex matches `t` from index `p` to the quote at index `q`: the attribute text
      starts at `p`, and at least one character lies between it and the quote. */
  predicate RegexMatch(t: string, p: int, q: int) {
    OccursAt(t, KeyAttrOpen, p) && p + |KeyAttrOpen| < q < |t| && t[q] == '"'
  }

  /** The capture of the key regex on a trimmed line: from after the first `x:Key="` to the
      last `"` of the line, provided at least one character lies in between. */
  function KeyMatch(t: string): Option<string> {
    match IndexOf(t, KeyAttrOpen, 0)
    case None => None
    case Some(p) =>
      match LastIndexOf(t, '"', |t|)
      case None => None
      case Some(q) => if p + |KeyAttrOpen| < q then Some(t[p + |KeyAttrOpen|..q]) else None
  }

  /** `KeyMatch` is the regex's own semantics: it succeeds exactly when some match exists,
      and then captures the match that starts leftmost and, for that start, reaches the
      furthest quote (the `+` is greedy). */
  lemma KeyMatchIsLeftmostGreedy(t: string)
    ensures KeyMatch(t).Some? <==> exists p, q :: RegexMatch(t, p, q)
    ensures KeyMatch(t).Some? ==>
      exists p, q ::
        && RegexMatch(t, p, q)
        && KeyMatch(t).value == t[p + |KeyAttrOpen|..q]
        && forall p', q' :: RegexMatch(t, p', q') ==> p <= p' && (p' == p ==> q' <= q)
  {
    var n := |KeyAttrOpen|;
    match IndexOf(t, KeyAttrOpen, 0)
    case None =>
      assert forall p, q :: !RegexMatch(t, p, q);
    case Some(p) =>
      assert t[p + n - 1] == KeyAttrOpen[n - 1] == '"';
      var q := LastIndexOf(t, '"', |t|).value;
      if p + n < q {
        assert RegexMatch(t, p, q);
      } else {
        forall p', q' | RegexMatch(t, p', q') ensures false {
        }
      }
  }

  // ---------------------------------------------------------------------------
  // Copying one entry

  /** The lines `AddContent` appends for `key`: the declaration line alone for a one-liner;
      otherwise the declaration line, the body lines, and the closing line. */
  function EntryBlock(lines: seq<string>, key: string): Result<seq<string>> {
    match ResourceKeyStart(lines, key)
    case Err(e) => Err(e)
    case Ok(info) =>
      if info.oneliner then Ok([lines[info.index]])
      else
        match MultilineContents(lines, info.index)
        case Err(e) => Err(e)
        case Ok(body) =>
          Ok([lines[info.index]] + body + [lines[info.index + |body| + 1]])
  }

  /** An entry is the contiguous run of lines from the key's first declaration line through
      the first line at or after it that closes an entry, in file order. The lookup fails
      with "Key not found" when no line declares the key, and runs off the array when no
      closing line follows. */
  lemma EntryBlockIsSpan(lines: seq<string>, key: string)
    ensures ResourceKeyStart(lines, key).Err? ==> EntryBlock(lines, key) == Err(KeyNotFound)
    ensures ResourceKeyStart(lines, key).Ok? ==>
      var i := ResourceKeyStart(lines, key).value.index;
      && (FirstClosing(lines, i).None? ==> EntryBlock(lines, key) == Err(IndexOutOfRange))
      && (FirstClosing(lines, i).Some? ==> EntryBlock(lines, key) == Ok(lines[i..FirstClosing(lines, i).value + 1]))
  {
    match ResourceKeyStart(lines, key)
    case Err(_) =>
    case Ok(info) =>
      var i := info.index;
      if info.oneliner {
        assert FirstClosing(lines, i) == Some(i);
        assert lines[i..i + 1] == [lines[i]];
      } else {
        if EndsWith(lines[i], CloseTag) {
          TrimKeepsSuffix(lines[i], CloseTag);
        }
        MultilineBodyIsSpan(lines, i);
      }
  }

  /** For a declaration line that does not close its entry, the opening line, the lines
      the multi-line reader yields and the closing line are together the run of lines up
      to the first closing line. */
  lemma MultilineBodyIsSpan(lines: seq<string>, i: nat)
    requires i < |lines| && !ClosesEntry(lines[i]) && !EndsWith(lines[i], CloseTag)
    ensures FirstClosing(lines, i).None? ==> MultilineContents(lines, i) == Err(IndexOutOfRange)
    ensures FirstClosing(lines, i).Some? ==>
      var c := FirstClosing(lines, i).value;
      && MultilineContents(lines, i).Ok?
      && [lines[i]] + MultilineContents(lines, i).value + [lines[i + |MultilineContents(lines, i).value| + 1]]
         == lines[i..c + 1]
  {
    assert FirstClosing(lines, i) == FirstClosing(lines, i + 1);
    match FirstClosing(lines, i + 1)
    case None =>
    case Some(c) =>
      assert MultilineContents(lines, i) == Ok(lines[i + 1..c]);
      assert [lines[i]] + lines[i + 1..c] + [lines[c]] == lines[i..c + 1];
  }

  /** The output list of the sync (a `List<string>` in the source). */
  class LineList {
    var Items: seq<string>

    constructor ()
      ensures Items == []
    {
      Items := [];
    }

    method Add(line: string)
      modifies this
      ensures Items == old(Items) + [line]
    {
      Items := Items + [line];
    }

    method AddRange(lines: seq<string>)
      modifies this
      ensures Items == old(Items) + lines
    {
      Items := Items + lines;
    }
  }

  /** `AddContent`: appends the entry of `keyName` found in `contents`. It only ever
      appends; on success what it appends is the entry block. */
  method AddContent(resultFileContent: LineList, contents: array<string>, keyName: string) returns (o: Outcome)
    modifies resultFileContent
    ensures old(resultFileContent.Items) <= resultFileContent.Items
    ensures match EntryBlock(contents[..], keyName)
      case Ok(block) => o == Pass && resultFileContent.Items == old(resultFileContent.Items) + block
      case Err(e) => o == Fail(e)
  {
    var keyInfo := GetResourceKeyStartIndex(contents, keyName);
    if keyInfo.Err? {
      return Fail(keyInfo.error);
    }
    var index := keyInfo.value.index;
    if keyInfo.value.oneliner {
      resultFileContent.Add(contents[index]);
      return Pass;
    }

    // tag start
    resultFileContent.Add(contents[index]);

    var targetContents := GetMultilineResourceContents(contents, index);
    if targetContents.Err? {
      return Fail(targetContents.error);
    }
    resultFileContent.AddRange(targetContents.value);

    // tag end
    resultFileContent.Add(contents[index + |targetContents.value| + 1]);
    return Pass;
  }

  // ---------------------------------------------------------------------------
  // The line loop

  /** What one source line contributes, and the comment state after it. */
  datatype LineOutcome = LineOutcome(emitted: seq<string>, inComment: bool)

  /** The output so far and whether the walk is inside a multi-line comment. */
  datatype SyncState = SyncState(output: seq<string>, inComment: bool)

  /** The lines a trimmed line contributes through the key regex: nothing when it is not a
      key line, otherwise the key's entry, from the target when the target declares the
      key (case-sensitive set membership) and from the source otherwise. */
  function KeyLineBlock(trimmed: string, source: seq<string>, target: seq<string>, targetKeys: set<string>): Result<seq<string>> {
    match KeyMatch(trimmed)
    case None => Ok([])
    case Some(keyName) => EntryBlock(if keyName in targetKeys then target else source, keyName)
  }

  /** One iteration of the loop over the source lines. */
  function Step(line: string, inComment: bool, source: seq<string>, target: seq<string>, targetKeys: set<string>): Result<LineOutcome> {
    if IsNullOrWhiteSpace(line) then Ok(LineOutcome([line], inComment))
    else
      var trimmed := Trim(line);
      // jump out of the comment range
      if inComment && EndsWith(trimmed, CommentClose) then Ok(LineOutcome([line], false))
      else
        // a comment opener is copied; an unterminated one enters the comment range
        var copied := if StartsWith(trimmed, CommentOpen) then [line] else [];
        if StartsWith(trimmed, CommentOpen) && !EndsWith(trimmed, CommentClose) then Ok(LineOutcome(copied, true))
        else if inComment then Ok(LineOutcome(copied + [line], true))
        else
          match KeyLineBlock(trimmed, source, target, targetKeys)
          case Err(e) => Err(e)
          case Ok(block) => Ok(LineOutcome(copied + block, false))
  }

  /** A blank or white-space-only line is copied verbatim and leaves the comment state
      as it was. */
  lemma StepBlankLine(line: string, inComment: bool, source: seq<string>, target: seq<string>, targetKeys: set<string>)
    requires IsNullOrWhiteSpace(line)
    ensures Step(line, inComment, source, target, targetKeys) == Ok(LineOutcome([line], inComment))
  {
  }

  /** Inside a multi-line comment every non-blank line is copied verbatim and never matched
      against the key regex; the range ends after the line whose trimmed form ends with
      `-->`. */
  lemma StepInCommentRange(line: string, source: seq<string>, target: seq<string>, targetKeys: set<string>)
    requires !IsNullOrWhiteSpace(line)
    ensures Step(line, true, source, target, targetKeys)
         == Ok(LineOutcome([line], !EndsWith(Trim(line), CommentClose)))
  {
    assert [] + [line] == [line];
  }

  /** Outside a comment, a line that opens a comment without closing it is copied verbatim
      and starts a multi-line comment. */
  lemma StepOpensComment(line: string, source: seq<string>, target: seq<string>, targetKeys: set<string>)
    requires !IsNullOrWhiteSpace(line)
    requires StartsWith(Trim(line), CommentOpen) && !EndsWith(Trim(line), CommentClose)
    ensures Step(line, false, source, target, targetKeys) == Ok(LineOutcome([line], true))
  {
  }

  /** Outside a comment, a single-line comment is copied verbatim and is then still
      matched against the key regex: a key it mentions brings in that key's entry. */
  lemma StepSingleLineComment(line: string, source: seq<string>, target: seq<string>, targetKeys: set<string>)
    requires !IsNullOrWhiteSpace(line)
    requires StartsWith(Trim(line), CommentOpen) && EndsWith(Trim(line), CommentClose)
    ensures Step(line, false, source, target, targetKeys)
         == match KeyLineBlock(Trim(line), source, target, targetKeys)
            case Err(e) => Err(e)
            case Ok(block) => Ok(LineOutcome([line] + block, false))
  {
  }

  /** Outside a comment, any other non-blank line contributes exactly the entry of the key
      it declares (from the target when the target declares that key, from the source
      otherwise), or nothing when the key regex does not match it. */
  lemma StepOtherLine(line: string, source: seq<string>, target: seq<string>, targetKeys: set<string>)
    requires !IsNullOrWhiteSpace(line) && !StartsWith(Trim(line), CommentOpen)
    ensures KeyMatch(Trim(line)).None? ==>
      Step(line, false, source, target, targetKeys) == Ok(LineOutcome([], false))
    ensures KeyMatch(Trim(line)).Some? ==>
      var keyName := KeyMatch(Trim(line)).value;
      Step(line, false, source, target, targetKeys)
        == match EntryBlock(if keyName in targetKeys then target else source, keyName)
           case Err(e) => Err(e)
           case Ok(block) => Ok(LineOutcome(block, false))
  {
    match KeyLineBlock(Trim(line), source, target, targetKeys)
    case Err(_) =>
    case Ok(block) => assert [] + block == block;
  }

  /** The state after the first `n` source lines; the first failure ends the walk. */
  function SyncUpTo(source: seq<string>, target: seq<string>, targetKeys: set<string>, n: nat): Result<SyncState>
    requires n <= |source|
  {
    if n == 0 then Ok(SyncState([], false))
    else
      match SyncUpTo(source, target, targetKeys, n - 1)
      case Err(e) => Err(e)
      case Ok(st) =>
        match Step(source[n - 1], st.inComment, source, target, targetKeys)
        case Err(e) => Err(e)
        case Ok(o) => Ok(SyncState(st.output + o.emitted, o.inComment))
  }

  /** The lines the sync writes out, or the error that aborts it. */
  function Sync(source: seq<string>, target: seq<string>, targetKeys: set<string>): Result<seq<string>> {
    match SyncUpTo(source, target, targetKeys, |source|)
    case Err(e) => Err(e)
    case Ok(st) => Ok(st.output)
  }

  /** Once the walk fails, it stays failed with the same error. */
  lemma {:induction false} SyncErrorIsFinal(source: seq<string>, target: seq<string>, targetKeys: set<string>, m: nat, n: nat)
    requires m <= n <= |source|
    requires SyncUpTo(source, target, targetKeys, m).Err?
    ensures SyncUpTo(source, target, targetKeys, n) == SyncUpTo(source, target, targetKeys, m)
    decreases n
  {
    if n > m {
      SyncErrorIsFinal(source, target, targetKeys, m, n - 1);
    }
  }

  /** Regrouping appended line lists, stated apart so that the loop below need not derive
      it among all its other facts. */
  lemma AppendAssoc(a: seq<string>, b: seq<string>, c: seq<string>)
    ensures (a + b) + c == a + (b + c)
  {
  }

  /** One more line processed: the walk's state advances by that line's step. */
  lemma SyncUpToNext(source: seq<string>, target: seq<string>, targetKeys: set<string>, n: nat, st: SyncState, o: Result<LineOutcome>)
    requires n < |source|
    requires SyncUpTo(source, target, targetKeys, n) == Ok(st)
    requires Step(source[n], st.inComment, source, target, targetKeys) == o
    ensures o.Ok? ==> SyncUpTo(source, target, targetKeys, n + 1) == Ok(SyncState(st.output + o.value.emitted, o.value.inComment))
    ensures o.Err? ==> Sync(source, target, targetKeys) == Err(o.error)
  {
    if o.Err? {
      SyncErrorIsFinal(source, target, targetKeys, n + 1, |source|);
    }
  }

  /** The output only grows: the output after `m` lines is a prefix of the output after
      any later line count, and a walk that succeeds up to `n` succeeded at every `m`. */
  lemma {:induction false} SyncOutputGrows(source: seq<string>, target: seq<string>, targetKeys: set<string>, m: nat, n: nat)
    requires m <= n <= |source|
    requires SyncUpTo(source, target, targetKeys, n).Ok?
    ensures SyncUpTo(source, target, targetKeys, m).Ok?
    ensures SyncUpTo(source, target, targetKeys, m).value.output <= SyncUpTo(source, target, targetKeys, n).value.output
    decreases n
  {
    if m < n {
      SyncOutputGrows(source, target, targetKeys, m, n - 1);
    }
  }

  /** Every line a step emits is the source line itself or a line of the file its entry
      was taken from: the target when the target declares the captured key, the source
      otherwise. */
  lemma StepLinesFromInputs(line: string, inComment: bool, source: seq<string>, target: seq<string>, targetKeys: set<string>)
    requires Step(line, inComment, source, target, targetKeys).Ok?
    ensures forall l <- Step(line, inComment, source, target, targetKeys).value.emitted ::
      || l == line
      || (KeyMatch(Trim(line)).Some? && l in (if KeyMatch(Trim(line)).value in targetKeys then target else source))
  {
    var trimmed := Trim(line);
    if !IsNullOrWhiteSpace(line) && !(inComment && EndsWith(trimmed, CommentClose))
       && !(StartsWith(trimmed, CommentOpen) && !EndsWith(trimmed, CommentClose)) && !inComment
       && KeyMatch(trimmed).Some?
    {
      var keyName := KeyMatch(trimmed).value;
      var lines := if keyName in targetKeys then target else source;
      EntryBlockIsSpan(lines, keyName);
      assert forall l <- EntryBlock(lines, keyName).value :: l in lines;
    }
  }

  /** The walk invents no text: every output line is a line of the source or of the
      target. */
  lemma {:induction false} SyncLinesFromInputs(source: seq<string>, target: seq<string>, targetKeys: set<string>, n: nat)
    requires n <= |source|
    requires SyncUpTo(source, target, targetKeys, n).Ok?
    ensures forall l <- SyncUpTo(source, target, targetKeys, n).value.output :: l in source || l in target
  {
    if n > 0 {
      SyncLinesFromInputs(source, target, targetKeys, n - 1);
      var st := SyncUpTo(source, target, targetKeys, n - 1).value;
      StepLinesFromInputs(source[n - 1], st.inComment, source, target, targetKeys);
    }
  }

  /** The loop of `SyncLangFIleAsync`, with the two line arrays and the target's key set as
      inputs and the output lines as the result. */
  method SyncLangFile(srcFileContent: array<string>, targetFileContent: array<string>, targetFileKeys: set<string>)
    returns (r: Result<seq<string>>)
    ensures r == Sync(srcFileContent[..], targetFileContent[..], targetFileKeys)
  {
    ghost var source, target := srcFileContent[..], targetFileContent[..];
    var resultFileContent := new LineList();
    var isInCommentRange := false;

    for lineNum := 0 to srcFileContent.Length
      invariant SyncUpTo(source, target, targetFileKeys, lineNum) == Ok(SyncState(resultFileContent.Items, isInCommentRange))
    {
      var line := srcFileContent[lineNum];
      ghost var st := SyncState(resultFileContent.Items, isInCommentRange);

      if IsNullOrWhiteSpace(line) {
        StepBlankLine(line, st.inComment, source, target, targetFileKeys);
        SyncUpToNext(source, target, targetFileKeys, lineNum, st, Ok(LineOutcome([line], st.inComment)));
        resultFileContent.Add(line);
        continue;
      }

      var trimmedLine := Trim(line);

      // jump out the comment range
      if isInCommentRange && EndsWith(trimmedLine, CommentClose) {
        StepInCommentRange(line, source, target, targetFileKeys);
        SyncUpToNext(source, target, targetFileKeys, lineNum, st, Ok(LineOutcome([line], false)));
        resultFileContent.Add(line);
        isInCommentRange := false;
        continue;
      }

      // entering multi-line comment
      if StartsWith(trimmedLine, CommentOpen) {
        resultFileContent.Add(line);
        if !EndsWith(trimmedLine, CommentClose) {
          if st.inComment {
            StepInCommentRange(line, source, target, targetFileKeys);
          } else {
            StepOpensComment(line, source, target, targetFileKeys);
          }
          SyncUpToNext(source, target, targetFileKeys, lineNum, st, Ok(LineOutcome([line], true)));
          isInCommentRange := true;
          continue;
        }
      }

      // we skip this line if it is in comment range
      if isInCommentRange {
        StepInCommentRange(line, source, target, targetFileKeys);
        SyncUpToNext(source, target, targetFileKeys, lineNum, st, Ok(LineOutcome([line], true)));
        resultFileContent.Add(line);
        continue;
      }

      ghost var copied := if StartsWith(trimmedLine, CommentOpen) then [line] else [];
      assert resultFileContent.Items == st.output + copied;
      ghost var step := Step(line, false, source, target, targetFileKeys);
      if StartsWith(trimmedLine, CommentOpen) {
        StepSingleLineComment(line, source, target, targetFileKeys);
      } else {
        StepOtherLine(line, source, target, targetFileKeys);
      }
      assert step == match KeyLineBlock(trimmedLine, source, target, targetFileKeys)
                     case Err(e) => Err(e)
                     case Ok(block) => Ok(LineOutcome(copied + block, false));
      SyncUpToNext(source, target, targetFileKeys, lineNum, st, step);

      var keyMatch := KeyMatch(trimmedLine);
      if keyMatch.None? {
        assert KeyLineBlock(trimmedLine, source, target, targetFileKeys) == Ok([]);
        assert copied + [] == copied;
        continue;
      }
      var keyName := keyMatch.value;
      ghost var contents := if keyName in targetFileKeys then target else source;
      assert KeyLineBlock(trimmedLine, source, target, targetFileKeys) == EntryBlock(contents, keyName);

      var o: Outcome;
      if keyName in targetFileKeys {
        o := AddContent(resultFileContent, targetFileContent, keyName);
      } else {
        o := AddContent(resultFileContent, srcFileContent, keyName);
      }
      if o.Fail? {
        return Err(o.error);
      }
      ghost var entry := EntryBlock(contents, keyName);
      assert entry.Ok? && resultFileContent.Items == (st.output + copied) + entry.value;
      AppendAssoc(st.output, copied, entry.value);
    }
    return Ok(resultFileContent.Items);
  }
}
