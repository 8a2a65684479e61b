# LangFileCleaner core in Dafny

LangFileCleaner is a command-line tool that maintains XAML language resource
dictionaries (`<sys:String x:Key="...">...</sys:String>` entries). This project
models its three pieces of line-oriented logic and proves what each one computes.

- **Entry locator** (`LangFileHelper.dfy`, from `LangFileHelper`).
  `GetResourceKeyStartIndex` finds the first line that contains `x:Key="<key>"`,
  ignoring case, and reports whether that line is a one-liner: its trimmed form ends
  with `</sys:String>`. `GetMultilineResourceContents` yields the lines between a
  multi-line entry's opening line and its closing line. Both are loop methods over a
  read-only `array<string>`. Each is proved equal to a specification function, and
  lemmas characterise those functions: first match, bounds, and every error case.
- **Sync transformer** (`SyncLangFile.dfy`, from `SyncLangFileCommand`).
  - The loop walks the source lines with a one-bit comment state. It appends to a
    `LineList` object that stands for the `List<string>`.
  - Blank lines and comments are copied through.
  - Each key line recognised by the regex `x:Key="([\W\w]+)"` is replaced by that
    key's whole entry. The entry comes from the target file when the target declares
    the key, and from the source otherwise.
  - Every other line is dropped.
  - The method is proved equal to a fold (`Sync`) of a per-line `Step` function.
    Lemmas state each branch of that step, the greedy regex capture, the shape of an
    entry block, that output only grows, and that every output line comes from one
    of the inputs.
- **Unused-key detector** (`UnusedKey.dfy`, from `UnusedKeyCommand`).
  - Each declared key is rendered through six .NET format strings, including the
    `{{`/`}}` → `{`/`}` replacement.
  - A line uses a key when it contains one of the key's patterns, ignoring case.
  - A breadth-first walk over an in-memory directory tree skips excluded directories
    and scans only `.cs`/`.axaml` files.
  - The result is the declared keys that no scanned line uses.
  - The walk and the counting are methods proved against set-valued specification
    functions. Lemmas characterise those functions: which files are scanned, which
    keys a line uses, which patterns a key has, and that the result is exactly
    "declared minus used".

Shared modules: `Results.dfy` holds the `Option`, `Result` and `Outcome` types. The
source's exceptions become `Err` values:
- `KeyNotFound` is the `ArgumentOutOfRangeException("Key not found")`.
- `ArgumentOutOfRange` is the other `ArgumentOutOfRangeException`s.
- `IndexOutOfRange` is an array read past the end.

`Text.dfy` holds the .NET string operations the core uses, and two search helpers:
- `Trim` and `IsNullOrWhiteSpace`, with the white-space characters of `char.IsWhiteSpace`;
- ordinal `StartsWith`, `EndsWith` and `Contains`;
- the `OrdinalIgnoreCase` variants, through ASCII case folding;
- `IndexOf` and `LastIndexOf`. The code calls neither. They are helpers that express where the key regex of `SyncLangFileCommand.cs:13` matches.

Behaviour of the code worth knowing:
- The key regex is greedy. It captures from after the *first* `x:Key="` to the *last*
  `"` of the trimmed line (`KeyMatchIsLeftmostGreedy`). So a line with a second quoted
  attribute, or a quote in its value, yields a longer "key" than the attribute holds.
- A single-line comment `<!-- ... -->` is copied and is still matched against the key
  regex, because the source has no `continue` after it (`StepSingleLineComment`).
- The source key set read in `SyncLangFIleAsync` is never used by the loop, so it is
  not an input of `Sync`.
- The raw-line check at the start of `GetMultilineResourceContents` runs before any
  line is yielded. The caller reads the whole sequence at once, so an eager check is
  the same behaviour.
- No repair or comment-out transformation exists in the code (`RepairUnusedKeyCommand`
  only computes unused keys), so none is modelled.
- The exclusion test is a case-insensitive prefix test on the root-relative path.
  So `binaries/` and `Assets/Languages/` are skipped too, while `src/bin/` is scanned.
  `Assets/Languages/` is skipped only where the path separator is `/`.
  The root-relative path of a subdirectory is built with `/` (`ChildPath`).
- The key lookup in `GetResourceKeyStartIndex` does not skip XML comments. Suppose a
  commented-out declaration `<!-- <sys:String x:Key="B">b</sys:String> -->` comes
  before the live entry for `B`. Then the lookup finds the comment line first. Its
  trimmed form ends with `-->`, not with `</sys:String>`, so it is taken as the
  opening line of a multi-line entry. Every line through the next closing line is then
  copied as the entry. The model keeps this behaviour: `ResourceKeyStartSpec` returns
  the first line containing the needle, and `EntryBlockIsSpan` gives the lines copied.

## Model

| member | source | states |
|---|---|---|
| `Text.TrimStartSpec` | LangFileCleaner/Helpers/LangFileHelper.cs:39 | `TrimStart` drops exactly a prefix of white space and stops at the first non-white-space character |
| `Text.TrimEndSpec` | LangFileCleaner/Helpers/LangFileHelper.cs:39 | `TrimEnd` drops exactly a suffix of white space and stops at the last non-white-space character |
| `Text.TrimKeepsSuffix` | LangFileCleaner/Helpers/LangFileHelper.cs:34-39 | a suffix that starts and ends with non-white space (such as `</sys:String>`) survives trimming, so a raw line ending with the tag also ends with it when trimmed |
| `Text.IndexOf` | LangFileCleaner/Commands/SyncLangFileCommand.cs:13 | the result is the first occurrence at or after `from`, and `None` means there is none |
| `Text.LastIndexOf` | LangFileCleaner/Commands/SyncLangFileCommand.cs:13 | the result is the last occurrence of the character before `upTo`, and `None` means there is none |
| `Text.StartsWithIgnoreCaseExtends` | LangFileCleaner/Commands/UnusedKeyCommand.cs:125 | a case-insensitive prefix of a path is a case-insensitive prefix of every path that extends it |
| `LangFileHelper.FirstContaining` | LangFileCleaner/Helpers/LangFileHelper.cs:50-55 | a found index lies between the start of the search and the end of the lines; `FirstContainingSpec` characterises the match |
| `LangFileHelper.FirstClosing` | LangFileCleaner/Helpers/LangFileHelper.cs:39-43 | a found index lies between the start of the scan and the end of the lines; `FirstClosingSpec` characterises the stop |
| `LangFileHelper.FirstContainingSpec` | LangFileCleaner/Helpers/LangFileHelper.cs:50-55 | the search returns the first line containing the needle ignoring case, and `None` means no line does |
| `LangFileHelper.FirstClosingSpec` | LangFileCleaner/Helpers/LangFileHelper.cs:39-43 | the scan stops at the first line whose trimmed form ends with `</sys:String>`, and `None` means no such line follows |
| `LangFileHelper.ResourceKeyStart` | LangFileCleaner/Helpers/LangFileHelper.cs:50-54 | a found index is within the lines |
| `LangFileHelper.ResourceKeyStartSpec` | LangFileCleaner/Helpers/LangFileHelper.cs:46-58 | the index is in bounds; its line contains `x:Key="<key>"` ignoring case and no earlier line does; the one-liner flag holds exactly when the trimmed line ends with `</sys:String>`; otherwise "Key not found" and no line contains the needle |
| `LangFileHelper.MultilineContents` | LangFileCleaner/Helpers/LangFileHelper.cs:32-44 | on success the start and every yielded line, plus the closing line after them, are within the lines |
| `LangFileHelper.MultilineContentsSpec` | LangFileCleaner/Helpers/LangFileHelper.cs:32-44 | fails when the raw start line ends with the tag; otherwise succeeds exactly when a closing line follows, yielding exactly the lines strictly between the start and the first later closing line, none of which closes, and fails with the index error when none follows |
| `LangFileHelper.ScanFindsClosing` | LangFileCleaner/Helpers/LangFileHelper.cs:39-43 | where the scan loop stops determines the result: at the array end it is the index error, at a closing line it is the lines passed over |
| `LangFileHelper.GetResourceKeyStartIndex` | LangFileCleaner/Helpers/LangFileHelper.cs:46-58 | the loop with early return computes exactly `ResourceKeyStart` of the array's lines, without changing them |
| `LangFileHelper.GetMultilineResourceContents` | LangFileCleaner/Helpers/LangFileHelper.cs:32-44 | the loop computes exactly `MultilineContents` of the array's lines, without changing them |
| `SyncLangFile.KeyMatch` | LangFileCleaner/Commands/SyncLangFileCommand.cs:13 | the key regex applied to a trimmed line; no contract of its own, `KeyMatchIsLeftmostGreedy` characterises it |
| `SyncLangFile.KeyMatchIsLeftmostGreedy` | LangFileCleaner/Commands/SyncLangFileCommand.cs:13 | a trimmed line is a key line exactly when the regex has a match; the capture is the match with the leftmost start and, for it, the furthest closing quote |
| `SyncLangFile.EntryBlock` | LangFileCleaner/Commands/SyncLangFileCommand.cs:49-67 | the lines `AddContent` appends for a key, or its error; no contract of its own, `EntryBlockIsSpan` characterises it |
| `SyncLangFile.EntryBlockIsSpan` | LangFileCleaner/Commands/SyncLangFileCommand.cs:49-67 | an entry is the contiguous lines from the first declaration line through the first closing line at or after it, in file order; "Key not found" and running off the array are the only failures |
| `SyncLangFile.MultilineBodyIsSpan` | LangFileCleaner/Commands/SyncLangFileCommand.cs:59-66 | opening line, yielded body and the line at `index + length + 1` together form the run up to the first closing line |
| `SyncLangFile.AddContent` | LangFileCleaner/Commands/SyncLangFileCommand.cs:49-67 | only appends; on success appends exactly the entry block, one line for a one-liner; on failure reports the lookup's error |
| `SyncLangFile.LineList.Add` | LangFileCleaner/Commands/SyncLangFileCommand.cs:55 | appends one line at the end |
| `SyncLangFile.LineList.AddRange` | LangFileCleaner/Commands/SyncLangFileCommand.cs:63 | appends the lines at the end, in order |
| `SyncLangFile.Step` | LangFileCleaner/Commands/SyncLangFileCommand.cs:89-145 | one iteration of the loop: the lines it appends and the comment state it leaves, or its error; no contract of its own, the `Step*` lemmas state each branch and `StepLinesFromInputs` where its lines come from |
| `SyncLangFile.KeyLineBlock` | LangFileCleaner/Commands/SyncLangFileCommand.cs:128-143 | the lines a key line brings in: nothing when the regex fails, otherwise the entry from the target when it declares the key and from the source if not; no contract of its own, `StepOtherLine` and `StepSingleLineComment` characterise it |
| `SyncLangFile.StepBlankLine` | LangFileCleaner/Commands/SyncLangFileCommand.cs:91-95 | a blank or white-space-only line is copied verbatim whatever the comment state, which it leaves unchanged |
| `SyncLangFile.StepInCommentRange` | LangFileCleaner/Commands/SyncLangFileCommand.cs:99-126 | inside a multi-line comment every non-blank line is copied verbatim and never key-matched; the range ends after a line whose trimmed form ends with `-->` |
| `SyncLangFile.StepOpensComment` | LangFileCleaner/Commands/SyncLangFileCommand.cs:108-118 | a line opening a comment without closing it is copied and enters the comment range |
| `SyncLangFile.StepSingleLineComment` | LangFileCleaner/Commands/SyncLangFileCommand.cs:108-133 | a single-line comment is copied and then still key-matched; a key it holds brings in that key's entry |
| `SyncLangFile.StepOtherLine` | LangFileCleaner/Commands/SyncLangFileCommand.cs:128-143 | any other line contributes nothing when the regex fails, and otherwise the key's entry from the target if the target declares the key (case-sensitive) and from the source if not |
| `SyncLangFile.SyncUpTo` | LangFileCleaner/Commands/SyncLangFileCommand.cs:84-146 | the state after the first `n` source lines; no contract of its own, `SyncUpToNext`, `SyncErrorIsFinal`, `SyncOutputGrows` and `SyncLinesFromInputs` characterise it |
| `SyncLangFile.Sync` | LangFileCleaner/Commands/SyncLangFileCommand.cs:84-146 | the whole loop's output, or the error that aborted it; no contract of its own, the `SyncUpTo` lemmas characterise it and the method `SyncLangFile` is proved equal to it |
| `SyncLangFile.SyncErrorIsFinal` | LangFileCleaner/Commands/SyncLangFileCommand.cs:87-146 | the first failing line aborts the whole sync with its error |
| `SyncLangFile.SyncUpToNext` | LangFileCleaner/Commands/SyncLangFileCommand.cs:87-146 | processing one more line appends exactly that line's contribution and sets the comment state it leaves |
| `SyncLangFile.SyncOutputGrows` | LangFileCleaner/Commands/SyncLangFileCommand.cs:84-146 | the output is only appended to: the output after fewer lines is a prefix of the output after more |
| `SyncLangFile.StepLinesFromInputs` | LangFileCleaner/Commands/SyncLangFileCommand.cs:89-143 | a step emits only the source line itself and lines of the file its entry is taken from: the target when the target declares the captured key, the source otherwise |
| `SyncLangFile.SyncLinesFromInputs` | LangFileCleaner/Commands/SyncLangFileCommand.cs:84-146 | every output line is a line of the source or of the target file |
| `SyncLangFile.SyncLangFile` | LangFileCleaner/Commands/SyncLangFileCommand.cs:84-146 | the loop over `lineNum`, with its in-place list and comment flag, computes exactly `Sync`, the fold of `Step` over the source lines |
| `UnusedKey.Format` | LangFileCleaner/Commands/UnusedKeyCommand.cs:74 | `string.Format` with one argument, failing on a malformed template; no contract of its own, `FormatText`, `FormatAroundHole`, `FormatBracedHole` and `FormatSearchPattern` characterise it |
| `UnusedKey.Normalize` | LangFileCleaner/Commands/UnusedKeyCommand.cs:74 | the `{{` → `{` then `}}` → `}` replacement; no contract of its own, `CollapseKeepsText`, `CollapseNoPair` and `CollapseShrinks` characterise it |
| `UnusedKey.Render` | LangFileCleaner/Commands/UnusedKeyCommand.cs:74 | formatting a template with a key and then the replacement; no contract of its own, `RenderSearchPattern`, `RenderBraceFreeKey` and `RenderedPatternsDistinct` characterise it |
| `UnusedKey.FormatText` | LangFileCleaner/Commands/UnusedKeyCommand.cs:74 | brace-free template text is copied unchanged by `string.Format` |
| `UnusedKey.FormatAroundHole` | LangFileCleaner/Commands/UnusedKeyCommand.cs:27-31 | a template `before{0}after` with brace-free text formats to `before + key + after` |
| `UnusedKey.FormatBracedHole` | LangFileCleaner/Commands/UnusedKeyCommand.cs:26 | a template `{{before{0}}}` formats to `{before + key}` |
| `UnusedKey.FormatSearchPattern` | LangFileCleaner/Commands/UnusedKeyCommand.cs:24-32 | each of the six templates is well formed and formats to its text before the key, the key, and its text after |
| `UnusedKey.CollapseKeepsText` | LangFileCleaner/Commands/UnusedKeyCommand.cs:74 | the brace replacement leaves untouched a prefix in which the brace occurs at most as its first character, and then only when the prefix has at least two characters, whatever follows |
| `UnusedKey.CollapseNoPair` | LangFileCleaner/Commands/UnusedKeyCommand.cs:74 | a string without a doubled brace is left as it is |
| `UnusedKey.CollapseShrinks` | LangFileCleaner/Commands/UnusedKeyCommand.cs:74 | the replacement never lengthens a string, and keeps its length exactly when there is nothing to replace |
| `UnusedKey.RenderSearchPattern` | LangFileCleaner/Commands/UnusedKeyCommand.cs:24-32 | each rendered pattern is its text before the key followed by the replacement applied to the key and the text after it, so the replacement reaches into the key |
| `UnusedKey.RenderBraceFreeKey` | LangFileCleaner/Commands/UnusedKeyCommand.cs:24-32 | a key without braces renders to exactly `{DynamicResource K}`, `ResourceKey="K"`, `LangHelper.K`, `ErrorMessageResourceName = "K"`, `AddTitle("K")`, `AddDescription("K")` |
| `UnusedKey.RenderedPatternsDistinct` | LangFileCleaner/Commands/UnusedKeyCommand.cs:24-32 | the six patterns of a key are pairwise different |
| `UnusedKey.NormalizedMatchPatterns` | LangFileCleaner/Commands/UnusedKeyCommand.cs:71-77 | the (key, pattern) pairs of `GetNormalizedMatchPatterns`; no contract of its own, `NormalizedMatchPatternsIff` characterises it |
| `UnusedKey.NormalizedMatchPatternsIff` | LangFileCleaner/Commands/UnusedKeyCommand.cs:71-77 | a (key, pattern) pair is in the set exactly when the key is declared and the pattern is one of its six, so every pair's key is declared |
| `UnusedKey.LineUsedKeys` | LangFileCleaner/Commands/UnusedKeyCommand.cs:88 | the keys one line's matches yield; no contract of its own, `LineUsedKeysIff` characterises it |
| `UnusedKey.LinesUsed` | LangFileCleaner/Commands/UnusedKeyCommand.cs:86-92 | the distinct keys the parallel query over a file's lines yields; no contract of its own, `ScanLinesIsLinesUsed` and `ScanOrderFree` relate it to a sequential scan |
| `UnusedKey.LineUsedKeysIff` | LangFileCleaner/Commands/UnusedKeyCommand.cs:86-92 | a line uses a key exactly when the key is declared and the line contains one of its patterns, ignoring case |
| `UnusedKey.ScanLinesIsLinesUsed` | LangFileCleaner/Commands/UnusedKeyCommand.cs:86-92 | scanning the lines one after another collects exactly the keys some line uses (`LinesUsed`, the order-free set the parallel query computes) |
| `UnusedKey.ScanOrderFree` | LangFileCleaner/Commands/UnusedKeyCommand.cs:86-92 | a sequential scan of any reordering of a file's lines collects the same keys, so the order in which the parallel query visits lines does not matter |
| `UnusedKey.ChildPath` | LangFileCleaner/Commands/UnusedKeyCommand.cs:139-142 | the root-relative path `dir[root.Length..]` of a queued subdirectory, joined with `/`; no contract of its own, `AllFilesExtendPath` characterises it |
| `UnusedKey.AllFilesExtendPath` | LangFileCleaner/Commands/UnusedKeyCommand.cs:139-142 | a file's directory path extends the path of every directory above it |
| `UnusedKey.Excluded` | LangFileCleaner/Commands/UnusedKeyCommand.cs:125 | the exclusion test on a root-relative path; no contract of its own, `RootNotExcluded`, `StartsWithIgnoreCaseExtends` and `ScannedFilesIff` characterise it |
| `UnusedKey.RootNotExcluded` | LangFileCleaner/Commands/UnusedKeyCommand.cs:100 | the root, whose relative path is empty, is never excluded |
| `UnusedKey.MatchingFiles` | LangFileCleaner/Commands/UnusedKeyCommand.cs:134-136 | the files of one directory with a `.cs` or `.axaml` extension; no contract of its own, `MatchingFilesNext` and `ScannedFilesIff` characterise it |
| `UnusedKey.ScannedFiles` | LangFileCleaner/Commands/UnusedKeyCommand.cs:121-142 | the files the walk scans, directory by directory; no contract of its own, `ScannedFilesIff` characterises it and `ScanTree` is proved against it |
| `UnusedKey.ScannedFilesIff` | LangFileCleaner/Commands/UnusedKeyCommand.cs:121-142 | a file is scanned exactly when it lies in the tree, its extension is `.cs` or `.axaml` (case-sensitive), and its directory's path does not start, ignoring case, with `bin`, `obj` or `Assets/Language` |
| `UnusedKey.UsedKeys` | LangFileCleaner/Commands/UnusedKeyCommand.cs:117-143 | the `usedKeys` set after the walk; no contract of its own, `UsedKeysIff` characterises it and `ResolveAndCheck` is stated in terms of it |
| `UnusedKey.UsedKeysIff` | LangFileCleaner/Commands/UnusedKeyCommand.cs:117-143 | a key is used exactly when it is declared and some line of some scanned file contains one of its patterns, ignoring case |
| `UnusedKey.UsedKeysDeclared` | LangFileCleaner/Commands/UnusedKeyCommand.cs:145-148 | every used key is declared, so the counter increment always finds its key |
| `UnusedKey.DequeueUsed` | LangFileCleaner/Commands/UnusedKeyCommand.cs:121-123 | dequeuing splits the keys left to find into the front directory's and the rest's |
| `UnusedKey.VisitDirectory` | LangFileCleaner/Commands/UnusedKeyCommand.cs:130-142 | visiting a directory that is not excluded accounts for its matching files and queues its subdirectories, leaving one directory less to visit |
| `UnusedKey.SearchForPatterns` | LangFileCleaner/Commands/UnusedKeyCommand.cs:79-96 | the loop over a directory's files collects exactly the keys the lines of its matching files use |
| `UnusedKey.ScanTree` | LangFileCleaner/Commands/UnusedKeyCommand.cs:117-143 | the breadth-first walk finds exactly the keys the scanned files use |
| `UnusedKey.UnusedOf` | LangFileCleaner/Commands/UnusedKeyCommand.cs:145-153 | the keys whose counter stays zero are exactly the declared keys minus the used ones |
| `UnusedKey.ResolveAndCheck` | LangFileCleaner/Commands/UnusedKeyCommand.cs:98-154 | an empty declared key set fails; otherwise the result is exactly the declared keys that no scanned line uses |

## Left out

- Reading and parsing files is left out. `ParseXamlFile` (XmlDocument and XPath), `File.ReadAllLinesAsync`, `File.WriteAllLinesAsync`, `File.Exists` and `Path.GetFullPath` are not modelled. Their results are inputs: line arrays, key sets and a directory tree. The output is a return value.
- `Directory.Exists` is not modelled, because every directory of the in-memory tree exists. `Path.GetExtension` is a given extension field of each file.
- The `AsParallel` query over a file's lines is modelled as the set comprehension `LinesUsed`, with no order. `ScanLines` is a sequential scan, and `ScanLinesIsLinesUsed` and `ScanOrderFree` show that any visiting order gives the same set. Thread scheduling itself is not modelled.
- The `async`/`IAsyncEnumerable` plumbing is modelled as sequential loops: the loop over a directory's files (`SearchForPatterns`) and the breadth-first walk (`ScanTree`).
- The platform's path separator is fixed to `/` (`ChildPath`). Where the separator is `\` (Windows), a relative path never starts with `Assets/Language`, so that exclusion never applies there. The model does not capture this.
- `Trim`, `IsNullOrWhiteSpace` and `OrdinalIgnoreCase` are modelled with limits. The white-space set is `char.IsWhiteSpace`'s. Case folding maps only `A`-`Z` to `a`-`z`, and there is no Unicode case folding.
- `Format` handles only the `{{`, `}}` and `{0}` format items, which are all the six templates use. Alignment and format strings are not modelled.
- `UnusedKey.SearchForPatterns` applies the caller's extension filter inside its loop over the files, rather than as a separate `Where`. The files scanned and their order are the same.
- Not modelled: logging (`LogHelper`, every `logger` call), the command-line wiring (`GetCommand`, the `Handle*` methods, `Environment.Exit`, `CommandConstants`, `Program`) and `RepairUnusedKeyCommand`. The last performs no transformation.
