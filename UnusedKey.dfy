/** The unused-key detector of `UnusedKeyCommand`: every key declared by the language
    file is rendered into six search patterns, the source files of the project tree are
    scanned line by line for those patterns, and the declared keys that no scanned line
    mentions are reported. The file system is an in-memory directory tree. */
module UnusedKey {
  import opened Results
  import opened Text

  // ---------------------------------------------------------------------------
  // Search patterns

  /** The composite format strings that show a key in use, as .NET format strings:
      `{{` and `}}` are literal braces and `{0}` is the key. */
  const SearchPatterns: seq<string> := [
    "{{DynamicResource {0}}}",
    "ResourceKey=\"{0}\"",
    "LangHelper.{0}",
    "ErrorMessageResourceName = \"{0}\"",
    "AddTitle(\"{0}\")",
    "AddDescription(\"{0}\")"
  ]

  /** The text each pattern puts before the key once formatted. */
  const Befores: seq<string> := [
    "{DynamicResource ",
    "ResourceKey=\"",
    "LangHelper.",
    "ErrorMessageResourceName = \"",
    "AddTitle(\"",
    "AddDescription(\""
  ]

  /** The text each pattern puts after the key once formatted. */
  const Afters: seq<string> := ["}", "\"", "", "\"", "\")", "\")"]

  predicate BraceFree(s: string) {
    forall i :: 0 <= i < |s| ==> s[i] != '{' && s[i] != '}'
  }

  function Prepend(p: string, o: Option<string>): Option<string> {
    match o
    case None => None
    case Some(s) => Some(p + s)
  }

  /** `string.Format(template, arg)` for templates whose only format item is `{0}`:
      `{{` and `}}` stand for one brace, `{0}` for `arg`, and any other brace makes the
      template malformed (`FormatException`, here `None`). */
  function Format(template: string, arg: string): Option<string>
    decreases |template|
  {
    if template == [] then Some([])
    else if |template| >= 2 && template[0] == '{' && template[1] == '{' then Prepend("{", Format(template[2..], arg))
    else if |template| >= 2 && template[0] == '}' && template[1] == '}' then Prepend("}", Format(template[2..], arg))
    else if |template| >= 3 && template[0] == '{' && template[1] == '0' && template[2] == '}' then Prepend(arg, Format(template[3..], arg))
    else if template[0] == '{' || template[0] == '}' then None
    else Prepend([template[0]], Format(template[1..], arg))
  }

  /** `s.Replace(cc, c)` for the two-character string `cc`: occurrences are replaced
      left to right without overlapping. */
  function Collapse(s: string, c: char): string {
    if |s| >= 2 && s[0] == c && s[1] == c then [c] + Collapse(s[2..], c)
    else if s == [] then []
    else [s[0]] + Collapse(s[1..], c)
  }

  /** The replacement that follows formatting: `{{` becomes `{`, then `}}` becomes `}`,
      over the whole formatted string, key included. */
  function Normalize(s: string): string {
    Collapse(Collapse(s, '{'), '}')
  }

  /** One pattern of `GetNormalizedMatchPatterns` for one key. */
  function Render(template: string, key: string): Option<string> {
    match Format(template, key)
    case None => None
    case Some(s) => Some(Normalize(s))
  }

  // Formatting lemmas

  lemma {:induction false} FormatText(s: string, rest: string, arg: string)
    requires BraceFree(s)
    ensures Format(s + rest, arg) == Prepend(s, Format(rest, arg))
    decreases |s|
  {
    if s != [] {
      assert (s + rest)[1..] == s[1..] + rest;
      FormatText(s[1..], rest, arg);
      match Format(rest, arg) {
        case None =>
        case Some(x) => assert [s[0]] + (s[1..] + x) == s + x;
      }
    } else {
      assert s + rest == rest;
      match Format(rest, arg) {
        case None =>
        case Some(x) => assert "" + x == x;
      }
    }
  }

  lemma FormatTextOnly(s: string, arg: string)
    requires BraceFree(s)
    ensures Format(s, arg) == Some(s)
  {
    FormatText(s, "", arg);
    assert s + "" == s;
  }

  lemma FormatHole(rest: string, arg: string)
    ensures Format("{0}" + rest, arg) == Prepend(arg, Format(rest, arg))
  {
    assert ("{0}" + rest)[3..] == rest;
  }

  lemma FormatOpenBrace(rest: string, arg: string)
    ensures Format("{{" + rest, arg) == Prepend("{", Format(rest, arg))
  {
    assert ("{{" + rest)[2..] == rest;
  }

  /** A template of the form `before{0}after` with brace-free text around the hole
      formats to `before + arg + after`. The format item is a parameter fixed by the
      precondition, so that the solver does not unfold `Format` on a literal. */
  lemma FormatAroundHole(before: string, hole: string, after: string, arg: string)
    requires BraceFree(before) && BraceFree(after) && hole == "{0}"
    ensures Format(before + (hole + after), arg) == Some(before + arg + after)
  {
    FormatTextOnly(after, arg);
    FormatHole(after, arg);
    FormatText(before, hole + after, arg);
    assert before + (arg + after) == before + arg + after;
  }

  /** A template of the form `{{before{0}}}` formats to `{before + arg}`. The brace pairs
      and the format item are parameters fixed by the precondition, so that the solver
      does not unfold `Format` on a literal. */
  lemma FormatBracedHole(open: string, before: string, hole: string, close: string, arg: string)
    requires open == "{{" && close == "}}" && hole == "{0}" && BraceFree(before)
    ensures Format(open + (before + (hole + close)), arg) == Some("{" + before + arg + "}")
  {
    assert Format(close, arg) == Some("}") by {
      assert close[2..] == [];
      assert "}" + [] == "}";
    }
    FormatHole(close, arg);
    FormatText(before, hole + close, arg);
    FormatOpenBrace(before + (hole + close), arg);
    assert "{" + (before + (arg + "}")) == "{" + before + arg + "}";
  }

  /** The six patterns, split around their format item. */
  lemma SearchPatternsSplit()
    ensures SearchPatterns[0] == "{{" + (Befores[0][1..] + ("{0}" + "}}")) && Befores[0] == "{" + Befores[0][1..]
    ensures forall i :: 1 <= i < 6 ==> SearchPatterns[i] == Befores[i] + ("{0}" + Afters[i])
  {
  }

  lemma PatternTextBraceFree()
    ensures BraceFree(Befores[0][1..])
    ensures forall i :: 1 <= i < 6 ==> BraceFree(Befores[i]) && BraceFree(Afters[i])
  {
  }

  /** Every search pattern is well formed and formats to its text before the key, the
      key, and its text after the key. */
  lemma FormatSearchPattern(i: nat, key: string)
    requires i < |SearchPatterns|
    ensures Format(SearchPatterns[i], key) == Some(Befores[i] + key + Afters[i])
  {
    SearchPatternsSplit();
    PatternTextBraceFree();
    if i == 0 {
      FormatBracedHole("{{", Befores[0][1..], "{0}", "}}", key);
    } else {
      FormatAroundHole(Befores[i], "{0}", Afters[i], key);
    }
  }

  // Replacement lemmas

  /** No two adjacent characters of `s` are both `c`. */
  predicate NoPair(s: string, c: char) {
    forall i :: 0 <= i < |s| - 1 ==> !(s[i] == c && s[i + 1] == c)
  }

  /** A text in which `c` appears at most at the front, and not alone, passes through the
      replacement untouched whatever follows it. */
  lemma {:induction false} CollapseKeepsText(a: string, b: string, c: char)
    requires forall i :: 0 < i < |a| ==> a[i] != c
    requires |a| >= 2 || c !in a
    ensures Collapse(a + b, c) == a + Collapse(b, c)
    decreases |a|
  {
    if a != [] {
      assert (a + b)[1..] == a[1..] + b;
      CollapseKeepsText(a[1..], b, c);
      assert [a[0]] + (a[1..] + Collapse(b, c)) == a + Collapse(b, c);
    } else {
      assert a + b == b;
    }
  }

  /** A string without a doubled `c` is left as it is. */
  lemma {:induction false} CollapseNoPair(s: string, c: char)
    requires NoPair(s, c)
    ensures Collapse(s, c) == s
    decreases |s|
  {
    if s != [] {
      CollapseNoPair(s[1..], c);
      assert [s[0]] + s[1..] == s;
    }
  }

  /** The replacement never lengthens a string, and keeps its length exactly when the
      string has no doubled `c`. */
  lemma {:induction false} CollapseShrinks(s: string, c: char)
    ensures |Collapse(s, c)| <= |s|
    ensures |Collapse(s, c)| == |s| <==> NoPair(s, c)
    decreases |s|
  {
    if |s| >= 2 && s[0] == c && s[1] == c {
      CollapseShrinks(s[2..], c);
    } else if s != [] {
      CollapseShrinks(s[1..], c);
      if |s| >= 2 {
        assert NoPair(s, c) <==> NoPair(s[1..], c) by {
          if NoPair(s[1..], c) {
            forall i | 0 <= i < |s| - 1 ensures !(s[i] == c && s[i + 1] == c) {
              if i > 0 {
                assert s[i] == s[1..][i - 1] && s[i + 1] == s[1..][i];
              }
            }
          }
          if NoPair(s, c) {
            forall i | 0 <= i < |s[1..]| - 1 ensures !(s[1..][i] == c && s[1..][i + 1] == c) {
              assert s[1..][i] == s[i + 1] && s[1..][i + 1] == s[i + 2];
            }
          }
        }
      }
    }
  }

  /** The texts before the key differ in their first or their fourth character. */
  lemma BeforesHeads()
    ensures forall i :: 0 <= i < 6 ==> |Befores[i]| >= 4
    ensures forall i, j :: 0 <= i < j < 6 ==> Befores[i][0] != Befores[j][0] || Befores[i][3] != Befores[j][3]
  {
    assert Befores[0][0] == '{' && Befores[1][0] == 'R' && Befores[2][0] == 'L' && Befores[3][0] == 'E';
    assert Befores[4][0] == 'A' && Befores[5][0] == 'A' && Befores[4][3] == 'T' && Befores[5][3] == 'D';
  }

  /** The text before the key contains no closing brace, and an opening brace only as
      the first of at least two characters. */
  lemma BeforesBraces(i: nat)
    requires i < 6
    ensures forall j :: 0 < j < |Befores[i]| ==> Befores[i][j] != '{'
    ensures |Befores[i]| >= 2 || '{' !in Befores[i]
    ensures '}' !in Befores[i]
  {
    SearchPatternsSplit();
    PatternTextBraceFree();
    BeforesHeads();
    if i == 0 {
      var t := Befores[0][1..];
      forall j | 0 < j < |Befores[0]| ensures Befores[0][j] != '{' && Befores[0][j] != '}' {
        assert Befores[0][j] == t[j - 1];
      }
    }
  }

  /** Each rendered pattern is its text before the key followed by the replacement
      applied to the key and the text after it: the replacement reaches into the key. */
  lemma RenderSearchPattern(i: nat, key: string)
    requires i < |SearchPatterns|
    ensures Render(SearchPatterns[i], key) == Some(Befores[i] + Normalize(key + Afters[i]))
  {
    FormatSearchPattern(i, key);
    BeforesBraces(i);
    var b := Befores[i];
    assert b + key + Afters[i] == b + (key + Afters[i]);
    CollapseKeepsText(b, key + Afters[i], '{');
    CollapseKeepsText(b, Collapse(key + Afters[i], '{'), '}');
  }

  lemma AftersNoPair()
    ensures forall i :: 0 <= i < 6 ==> NoPair(Afters[i], '{') && NoPair(Afters[i], '}')
  {
  }

  /** A brace-free text followed by a text without a doubled `c` has no doubled `c`. */
  lemma NoPairJoin(key: string, after: string, c: char)
    requires BraceFree(key) && NoPair(after, c) && (c == '{' || c == '}')
    ensures NoPair(key + after, c)
  {
    var s := key + after;
    forall j | 0 <= j < |s| - 1 ensures !(s[j] == c && s[j + 1] == c) {
      if j >= |key| {
        assert s[j] == after[j - |key|] && s[j + 1] == after[j + 1 - |key|];
      }
    }
  }

  /** A key without braces renders to exactly the pattern text around it. */
  lemma RenderBraceFreeKey(i: nat, key: string)
    requires i < |SearchPatterns| && BraceFree(key)
    ensures Render(SearchPatterns[i], key) == Some(Befores[i] + key + Afters[i])
  {
    RenderSearchPattern(i, key);
    var s := key + Afters[i];
    AftersNoPair();
    NoPairJoin(key, Afters[i], '{');
    NoPairJoin(key, Afters[i], '}');
    CollapseNoPair(s, '{');
    CollapseNoPair(s, '}');
    assert Befores[i] + s == Befores[i] + key + Afters[i];
  }

  lemma DifferentHeads(a: string, b: string, x: string, y: string)
    requires |a| >= 4 && |b| >= 4 && (a[0] != b[0] || a[3] != b[3])
    ensures a + x != b + y
  {
    assert (a + x)[0] == a[0] && (a + x)[3] == a[3];
    assert (b + y)[0] == b[0] && (b + y)[3] == b[3];
  }

  /** The six patterns of one key are pairwise different: their texts before the key
      differ within the first four characters. */
  lemma RenderedPatternsDistinct(i: nat, j: nat, key: string)
    requires i < j < |SearchPatterns|
    ensures Render(SearchPatterns[i], key) != Render(SearchPatterns[j], key)
  {
    RenderSearchPattern(i, key);
    RenderSearchPattern(j, key);
    BeforesHeads();
    DifferentHeads(Befores[i], Befores[j], Normalize(key + Afters[i]), Normalize(key + Afters[j]));
  }

  // ---------------------------------------------------------------------------
  // Matching

  /** The `i`-th search pattern of `key` once formatted and normalised. */
  function Pattern(i: nat, key: string): string
    requires i < |SearchPatterns|
  {
    Befores[i] + Normalize(key + Afters[i])
  }

  /** `GetNormalizedMatchPatterns`: each declared key paired with each of its rendered
      patterns. */
  function NormalizedMatchPatterns(langKeys: set<string>): set<(string, string)> {
    set key <- langKeys, i | 0 <= i < |SearchPatterns| && Render(SearchPatterns[i], key).Some? :: (key, Render(SearchPatterns[i], key).value)
  }

  /** A pair belongs to the pattern set exactly when its key is declared and its pattern is
      one of the six patterns of that key; so each declared key has exactly its six
      (pairwise different) patterns and every pattern's key is a declared key. */
  lemma NormalizedMatchPatternsIff(langKeys: set<string>, key: string, pattern: string)
    ensures (key, pattern) in NormalizedMatchPatterns(langKeys)
        <==> key in langKeys && exists i :: 0 <= i < |SearchPatterns| && pattern == Pattern(i, key)
  {
    if (key, pattern) in NormalizedMatchPatterns(langKeys) {
      var k, i :| k in langKeys && 0 <= i < |SearchPatterns| && Render(SearchPatterns[i], k).Some? && (key, pattern) == (k, Render(SearchPatterns[i], k).value);
      RenderSearchPattern(i, key);
      assert pattern == Pattern(i, key);
    }
    if key in langKeys && exists i :: 0 <= i < |SearchPatterns| && pattern == Pattern(i, key) {
      var i :| 0 <= i < |SearchPatterns| && pattern == Pattern(i, key);
      RenderSearchPattern(i, key);
      assert (key, Render(SearchPatterns[i], key).value) in NormalizedMatchPatterns(langKeys);
    }
  }

  /** The keys one line uses: the key of every pattern the line contains, ignoring case
      (the per-line selection of `SearchForPatternsAsync`). */
  function LineUsedKeys(line: string, patterns: set<(string, string)>): set<string> {
    set p <- patterns | ContainsIgnoreCase(line, p.1) :: p.0
  }

  /** `line` contains, ignoring case, one of the six patterns of `key`. */
  predicate Mentions(line: string, key: string) {
    exists i :: 0 <= i < |SearchPatterns| && ContainsIgnoreCase(line, Pattern(i, key))
  }

  /** A line uses a key exactly when the key is declared and the line mentions it. */
  lemma LineUsedKeysIff(line: string, langKeys: set<string>, key: string)
    ensures key in LineUsedKeys(line, NormalizedMatchPatterns(langKeys)) <==> key in langKeys && Mentions(line, key)
  {
    var patterns := NormalizedMatchPatterns(langKeys);
    if key in LineUsedKeys(line, patterns) {
      var p :| p in patterns && ContainsIgnoreCase(line, p.1) && p.0 == key;
      NormalizedMatchPatternsIff(langKeys, key, p.1);
    }
    if key in langKeys && Mentions(line, key) {
      var i :| 0 <= i < |SearchPatterns| && ContainsIgnoreCase(line, Pattern(i, key));
      NormalizedMatchPatternsIff(langKeys, key, Pattern(i, key));
      assert (key, Pattern(i, key)) in patterns;
    }
  }

  /** The distinct keys the lines of one file use, whatever order the lines are looked
      at in. */
  function LinesUsed(lines: seq<string>, patterns: set<(string, string)>): set<string> {
    set line <- lines, key <- LineUsedKeys(line, patterns) :: key
  }

  /** A sequential scan of the lines in the given order, accumulating the keys each line
      uses. */
  function ScanLines(lines: seq<string>, patterns: set<(string, string)>): set<string> {
    if lines == [] then {} else LineUsedKeys(lines[0], patterns) + ScanLines(lines[1..], patterns)
  }

  /** Scanning the lines one after another collects exactly the keys some line uses. */
  lemma {:induction false} ScanLinesIsLinesUsed(lines: seq<string>, patterns: set<(string, string)>)
    ensures ScanLines(lines, patterns) == LinesUsed(lines, patterns)
  {
    if lines != [] {
      ScanLinesIsLinesUsed(lines[1..], patterns);
      assert forall line :: line in lines <==> line == lines[0] || line in lines[1..];
    }
  }

  /** The parallel per-line matching may visit the lines in any order: a sequential scan
      of any reordering of the lines collects the same keys. */
  lemma ScanOrderFree(lines: seq<string>, reordered: seq<string>, patterns: set<(string, string)>)
    requires multiset(lines) == multiset(reordered)
    ensures ScanLines(lines, patterns) == ScanLines(reordered, patterns)
  {
    ScanLinesIsLinesUsed(lines, patterns);
    ScanLinesIsLinesUsed(reordered, patterns);
    forall line ensures line in lines <==> line in reordered {
      assert line in lines <==> line in multiset(lines);
      assert line in reordered <==> line in multiset(reordered);
    }
  }

  // ---------------------------------------------------------------------------
  // The project tree

  /** A file with the extension `Path.GetExtension` reports and its lines. */
  datatype SourceFile = SourceFile(name: string, extension: string, lines: seq<string>)

  /** A directory with the files and the subdirectories it lists. */
  datatype Directory = Directory(name: string, files: seq<SourceFile>, subdirs: seq<Directory>)

  /** Root-relative path prefixes whose directories are skipped. */
  const Exclusions: set<string> := {"bin", "obj", "Assets/Language"}

  /** The only file extensions that are scanned. */
  const MatchExts: set<string> := {".cs", ".axaml"}

  /** The root-relative path of a subdirectory: the root is the empty path and the
      separator is `/`. */
  function ChildPath(rel: string, name: string): string {
    if rel == "" then name else rel + "/" + name
  }

  /** The directory at root-relative path `rel` is skipped: the path starts, ignoring
      case, with one of the exclusions. */
  predicate Excluded(rel: string) {
    exists e <- Exclusions :: StartsWithIgnoreCase(rel, e)
  }

  /** Every file of the tree below `d` (at root-relative path `rel`), paired with the
      root-relative path of its directory, exclusions and extensions ignored. */
  function AllFiles(rel: string, d: Directory): set<(string, SourceFile)>
    decreases d
  {
    (set f <- d.files :: (rel, f))
    + (set j, pf | 0 <= j < |d.subdirs| && pf in AllFiles(ChildPath(rel, d.subdirs[j].name), d.subdirs[j]) :: pf)
  }

  /** The files among `files` that have a matching extension, paired with their directory's path. */
  function MatchingFiles(rel: string, files: seq<SourceFile>): set<(string, SourceFile)> {
    set f <- files | f.extension in MatchExts :: (rel, f)
  }

  /** The files the walk scans below `d`: nothing below an excluded directory, and
      otherwise the matching files of `d` and what its subdirectories yield. */
  function ScannedFiles(rel: string, d: Directory): set<(string, SourceFile)>
    decreases d
  {
    if Excluded(rel) then {}
    else
      MatchingFiles(rel, d.files)
      + (set j, pf | 0 <= j < |d.subdirs| && pf in ScannedFiles(ChildPath(rel, d.subdirs[j].name), d.subdirs[j]) :: pf)
  }

  /** Every file's directory path extends the path of the directory it lies under. */
  lemma {:induction false} AllFilesExtendPath(rel: string, d: Directory)
    ensures forall pf <- AllFiles(rel, d) :: StartsWith(pf.0, rel)
    decreases d
  {
    forall pf <- AllFiles(rel, d) ensures StartsWith(pf.0, rel) {
      if pf.0 != rel {
        var j :| 0 <= j < |d.subdirs| && pf in AllFiles(ChildPath(rel, d.subdirs[j].name), d.subdirs[j]);
        var child := ChildPath(rel, d.subdirs[j].name);
        AllFilesExtendPath(child, d.subdirs[j]);
        assert child[..|rel|] == rel;
        assert pf.0[..|rel|] == child[..|child|][..|rel|];
      }
    }
  }

  /** The root is never excluded. */
  lemma RootNotExcluded()
    ensures !Excluded("")
  {
    forall e <- Exclusions ensures !StartsWithIgnoreCase("", e) {
      assert |FoldCase(e)| > 0;
    }
  }

  /** A file is scanned exactly when it lies in the tree, has a matching extension and
      its directory's path is not excluded: exclusion of a directory reaches every file
      below it, because their paths extend its path. */
  lemma {:induction false} ScannedFilesIff(rel: string, d: Directory)
    ensures forall pf ::
              pf in ScannedFiles(rel, d) <==> pf in AllFiles(rel, d) && pf.1.extension in MatchExts && !Excluded(pf.0)
    decreases d
  {
    AllFilesExtendPath(rel, d);
    forall j | 0 <= j < |d.subdirs| {
      ScannedFilesIff(ChildPath(rel, d.subdirs[j].name), d.subdirs[j]);
    }
    if Excluded(rel) {
      var e :| e in Exclusions && StartsWithIgnoreCase(rel, e);
      forall pf <- AllFiles(rel, d) ensures Excluded(pf.0) {
        StartsWithIgnoreCaseExtends(rel, pf.0, e);
      }
    }
  }

  // ---------------------------------------------------------------------------
  // The walk

  /** The keys some line of the given files uses. */
  function FilesUsed(files: set<(string, SourceFile)>, patterns: set<(string, string)>): set<string> {
    set pf <- files, key <- LinesUsed(pf.1.lines, patterns) :: key
  }

  /** The declared keys some scanned line of the tree uses. */
  function UsedKeys(root: Directory, langKeys: set<string>): set<string> {
    FilesUsed(ScannedFiles("", root), NormalizedMatchPatterns(langKeys))
  }

  /** A key is used exactly when it is declared and some line of some scanned file
      mentions it. */
  lemma UsedKeysIff(root: Directory, langKeys: set<string>, key: string)
    ensures key in UsedKeys(root, langKeys) <==>
      key in langKeys &&
      exists pf, line :: pf in AllFiles("", root) && pf.1.extension in MatchExts && !Excluded(pf.0) &&
        line in pf.1.lines && Mentions(line, key)
  {
    ScannedFilesIff("", root);
    var patterns := NormalizedMatchPatterns(langKeys);
    if key in UsedKeys(root, langKeys) {
      var pf :| pf in ScannedFiles("", root) && key in LinesUsed(pf.1.lines, patterns);
      var line :| line in pf.1.lines && key in LineUsedKeys(line, patterns);
      LineUsedKeysIff(line, langKeys, key);
    }
    if key in langKeys &&
       exists pf, line :: pf in AllFiles("", root) && pf.1.extension in MatchExts && !Excluded(pf.0) &&
         line in pf.1.lines && Mentions(line, key)
    {
      var pf, line :| pf in AllFiles("", root) && pf.1.extension in MatchExts && !Excluded(pf.0) &&
        line in pf.1.lines && Mentions(line, key);
      LineUsedKeysIff(line, langKeys, key);
      assert key in LinesUsed(pf.1.lines, patterns);
    }
  }

  /** Only declared keys are ever used, so every used key has its counter. */
  lemma UsedKeysDeclared(files: set<(string, SourceFile)>, langKeys: set<string>)
    ensures FilesUsed(files, NormalizedMatchPatterns(langKeys)) <= langKeys
  {
    forall key <- FilesUsed(files, NormalizedMatchPatterns(langKeys)) ensures key in langKeys {
      var pf :| pf in files && key in LinesUsed(pf.1.lines, NormalizedMatchPatterns(langKeys));
      var line :| line in pf.1.lines && key in LineUsedKeys(line, NormalizedMatchPatterns(langKeys));
      LineUsedKeysIff(line, langKeys, key);
    }
  }

  /** The queue entries for the subdirectories of a directory at path `rel`. */
  function Children(rel: string, ds: seq<Directory>): (q: seq<(string, Directory)>)
    ensures |q| == |ds|
  {
    seq(|ds|, j requires 0 <= j < |ds| => (ChildPath(rel, ds[j].name), ds[j]))
  }

  /** The files the walk will still scan below the queued directories. */
  function QueueFiles(queue: seq<(string, Directory)>): set<(string, SourceFile)> {
    set i, pf | 0 <= i < |queue| && pf in ScannedFiles(queue[i].0, queue[i].1) :: pf
  }

  /** The number of directories in a tree. */
  function Size(d: Directory): nat
    decreases d
  {
    1 + SizeOfAll(d.subdirs)
  }

  function SizeOfAll(ds: seq<Directory>): nat
    decreases ds
  {
    if ds == [] then 0 else Size(ds[0]) + SizeOfAll(ds[1..])
  }

  /** The number of directories the queue still holds, counting those below them. */
  function QueueSize(queue: seq<(string, Directory)>): nat {
    if queue == [] then 0 else Size(queue[0].1) + QueueSize(queue[1..])
  }

  lemma {:induction false} QueueSizeAppend(a: seq<(string, Directory)>, b: seq<(string, Directory)>)
    ensures QueueSize(a + b) == QueueSize(a) + QueueSize(b)
    decreases |a|
  {
    if a != [] {
      assert (a + b)[1..] == a[1..] + b;
      QueueSizeAppend(a[1..], b);
    } else {
      assert a + b == b;
    }
  }

  lemma {:induction false} ChildrenSize(rel: string, ds: seq<Directory>)
    ensures QueueSize(Children(rel, ds)) == SizeOfAll(ds)
    decreases |ds|
  {
    if ds != [] {
      assert Children(rel, ds)[1..] == Children(rel, ds[1..]);
      ChildrenSize(rel, ds[1..]);
    }
  }

  /** Taking the front directory off the queue: its scanned files and the rest's. */
  lemma DequeueFiles(queue: seq<(string, Directory)>)
    requires queue != []
    ensures QueueFiles(queue) == ScannedFiles(queue[0].0, queue[0].1) + QueueFiles(queue[1..])
  {
    forall pf | pf in QueueFiles(queue) ensures pf in ScannedFiles(queue[0].0, queue[0].1) + QueueFiles(queue[1..]) {
      var i :| 0 <= i < |queue| && pf in ScannedFiles(queue[i].0, queue[i].1);
      if i > 0 {
        assert queue[1..][i - 1] == queue[i];
      }
    }
    forall pf | pf in QueueFiles(queue[1..]) ensures pf in QueueFiles(queue) {
      var i :| 0 <= i < |queue[1..]| && pf in ScannedFiles(queue[1..][i].0, queue[1..][i].1);
      assert queue[1..][i] == queue[i + 1];
    }
  }

  lemma EnqueueFiles(a: seq<(string, Directory)>, b: seq<(string, Directory)>)
    ensures QueueFiles(a + b) == QueueFiles(a) + QueueFiles(b)
  {
    forall pf | pf in QueueFiles(a + b) ensures pf in QueueFiles(a) + QueueFiles(b) {
      var i :| 0 <= i < |a + b| && pf in ScannedFiles((a + b)[i].0, (a + b)[i].1);
      if i >= |a| {
        assert (a + b)[i] == b[i - |a|];
      }
    }
    forall pf | pf in QueueFiles(a) ensures pf in QueueFiles(a + b) {
      var i :| 0 <= i < |a| && pf in ScannedFiles(a[i].0, a[i].1);
      assert (a + b)[i] == a[i];
    }
    forall pf | pf in QueueFiles(b) ensures pf in QueueFiles(a + b) {
      var i :| 0 <= i < |b| && pf in ScannedFiles(b[i].0, b[i].1);
      assert (a + b)[|a| + i] == b[i];
    }
  }

  /** A directory that is not excluded yields its own matching files and what its
      subdirectories, queued as children, yield. */
  lemma ScannedFilesUnfold(rel: string, d: Directory)
    requires !Excluded(rel)
    ensures ScannedFiles(rel, d) == MatchingFiles(rel, d.files) + QueueFiles(Children(rel, d.subdirs))
  {
    var q := Children(rel, d.subdirs);
    forall pf | pf in ScannedFiles(rel, d) && pf !in MatchingFiles(rel, d.files) ensures pf in QueueFiles(q) {
      var j :| 0 <= j < |d.subdirs| && pf in ScannedFiles(ChildPath(rel, d.subdirs[j].name), d.subdirs[j]);
      assert q[j] == (ChildPath(rel, d.subdirs[j].name), d.subdirs[j]);
    }
    forall pf | pf in QueueFiles(q) ensures pf in ScannedFiles(rel, d) {
      var j :| 0 <= j < |q| && pf in ScannedFiles(q[j].0, q[j].1);
      assert q[j] == (ChildPath(rel, d.subdirs[j].name), d.subdirs[j]);
    }
  }

  lemma FilesUsedUnion(a: set<(string, SourceFile)>, b: set<(string, SourceFile)>, patterns: set<(string, string)>)
    ensures FilesUsed(a + b, patterns) == FilesUsed(a, patterns) + FilesUsed(b, patterns)
  {
  }

  lemma MatchingFilesNext(rel: string, files: seq<SourceFile>, j: nat, patterns: set<(string, string)>)
    requires j < |files|
    ensures FilesUsed(MatchingFiles(rel, files[..j + 1]), patterns)
      == FilesUsed(MatchingFiles(rel, files[..j]), patterns)
       + (if files[j].extension in MatchExts then LinesUsed(files[j].lines, patterns) else {})
  {
    assert files[..j + 1] == files[..j] + [files[j]];
    var extra := if files[j].extension in MatchExts then {(rel, files[j])} else {};
    assert MatchingFiles(rel, files[..j + 1]) == MatchingFiles(rel, files[..j]) + extra;
    FilesUsedUnion(MatchingFiles(rel, files[..j]), extra, patterns);
  }

  lemma EnqueueNext(rest: seq<(string, Directory)>, rel: string, ds: seq<Directory>, j: nat)
    requires j < |ds|
    ensures rest + Children(rel, ds[..j]) + [(ChildPath(rel, ds[j].name), ds[j])] == rest + Children(rel, ds[..j + 1])
  {
    assert Children(rel, ds[..j + 1]) == Children(rel, ds[..j]) + [(ChildPath(rel, ds[j].name), ds[j])];
  }

  /** Taking the front directory off the queue splits the keys still to be found and
      the work left. */
  lemma DequeueUsed(queue: seq<(string, Directory)>, patterns: set<(string, string)>)
    requires queue != []
    ensures FilesUsed(QueueFiles(queue), patterns)
         == FilesUsed(ScannedFiles(queue[0].0, queue[0].1), patterns) + FilesUsed(QueueFiles(queue[1..]), patterns)
    ensures QueueSize(queue) == Size(queue[0].1) + QueueSize(queue[1..])
  {
    DequeueFiles(queue);
    FilesUsedUnion(ScannedFiles(queue[0].0, queue[0].1), QueueFiles(queue[1..]), patterns);
  }

  /** Visiting a directory that is not excluded: the keys its subtree uses are the keys its
      matching files use plus those its queued subdirectories will yield, and the work
      left shrinks by one directory. */
  lemma VisitDirectory(rel: string, dir: Directory, rest: seq<(string, Directory)>, patterns: set<(string, string)>)
    requires !Excluded(rel)
    ensures FilesUsed(ScannedFiles(rel, dir), patterns) + FilesUsed(QueueFiles(rest), patterns)
         == FilesUsed(MatchingFiles(rel, dir.files), patterns) + FilesUsed(QueueFiles(rest + Children(rel, dir.subdirs)), patterns)
    ensures QueueSize(rest + Children(rel, dir.subdirs)) < Size(dir) + QueueSize(rest)
  {
    var children := Children(rel, dir.subdirs);
    ScannedFilesUnfold(rel, dir);
    EnqueueFiles(rest, children);
    FilesUsedUnion(MatchingFiles(rel, dir.files), QueueFiles(children), patterns);
    FilesUsedUnion(QueueFiles(rest), QueueFiles(children), patterns);
    QueueSizeAppend(rest, children);
    ChildrenSize(rel, dir.subdirs);
  }

  /** `SearchForPatternsAsync` over the files of one directory, with the extension
      filter of the caller: the keys some line of a matching file uses. */
  method SearchForPatterns(patterns: set<(string, string)>, rel: string, files: seq<SourceFile>) returns (matches: set<string>)
    ensures matches == FilesUsed(MatchingFiles(rel, files), patterns)
  {
    matches := {};
    for j := 0 to |files|
      invariant matches == FilesUsed(MatchingFiles(rel, files[..j]), patterns)
    {
      var file := files[j];
      MatchingFilesNext(rel, files, j, patterns);
      if file.extension in MatchExts {
        matches := matches + LinesUsed(file.lines, patterns);
      }
    }
    assert files[..|files|] == files;
  }

  /** The breadth-first walk of `ResolveAndCheckAsync`: a queue of directories starting
      at the root; an excluded directory is dropped, otherwise the lines of its matching
      files are scanned and its subdirectories are queued. The keys found are exactly
      those the scanned files use. */
  method ScanTree(root: Directory, patterns: set<(string, string)>) returns (usedKeys: set<string>)
    ensures usedKeys == FilesUsed(ScannedFiles("", root), patterns)
  {
    usedKeys := {};
    var dirQueue: seq<(string, Directory)> := [("", root)];
    assert QueueFiles(dirQueue) == ScannedFiles("", root) by {
      DequeueFiles(dirQueue);
    }
    while |dirQueue| != 0
      invariant usedKeys + FilesUsed(QueueFiles(dirQueue), patterns) == FilesUsed(ScannedFiles("", root), patterns)
      decreases QueueSize(dirQueue)
    {
      var (rel, dir) := dirQueue[0];
      var rest := dirQueue[1..];
      DequeueUsed(dirQueue, patterns);
      dirQueue := rest;

      if Excluded(rel) {
        continue;
      }

      var matches := SearchForPatterns(patterns, rel, dir.files);
      usedKeys := usedKeys + matches;

      for j := 0 to |dir.subdirs|
        invariant dirQueue == rest + Children(rel, dir.subdirs[..j])
      {
        var subDir := dir.subdirs[j];
        EnqueueNext(rest, rel, dir.subdirs, j);
        dirQueue := dirQueue + [(ChildPath(rel, subDir.name), subDir)];
      }
      assert dir.subdirs[..|dir.subdirs|] == dir.subdirs;
      VisitDirectory(rel, dir, rest, patterns);
    }
  }

  /** The end of `ResolveAndCheckAsync`: a counter per declared key, incremented once per
      used key (a used key is always declared), and the keys whose counter is zero. */
  method UnusedOf(langKeys: set<string>, usedKeys: set<string>) returns (unused: set<string>)
    requires usedKeys <= langKeys
    ensures unused == langKeys - usedKeys
  {
    var resultDic: map<string, int> := map key <- langKeys :: 0;
    var remaining := usedKeys;
    while remaining != {}
      invariant remaining <= usedKeys
      invariant resultDic.Keys == langKeys
      invariant forall key <- langKeys :: resultDic[key] == if key in usedKeys && key !in remaining then 1 else 0
      decreases |remaining|
    {
      var key :| key in remaining;
      resultDic := resultDic[key := resultDic[key] + 1];
      remaining := remaining - {key};
    }
    unused := set key <- resultDic.Keys | resultDic[key] == 0;
  }

  /** `ResolveAndCheckAsync` once the declared keys are read: an empty key set is
      rejected; otherwise the result is the declared keys that no scanned line uses. */
  method ResolveAndCheck(root: Directory, langKeys: set<string>) returns (r: Result<set<string>>)
    ensures langKeys == {} ==> r == Err(ArgumentOutOfRange)
    ensures langKeys != {} ==> r == Ok(langKeys - UsedKeys(root, langKeys))
  {
    if |langKeys| == 0 {
      return Err(ArgumentOutOfRange);
    }
    var normalizedMatchPatterns := NormalizedMatchPatterns(langKeys);
    var usedKeys := ScanTree(root, normalizedMatchPatterns);
    UsedKeysDeclared(ScannedFiles("", root), langKeys);
    var unused := UnusedOf(langKeys, usedKeys);
    return Ok(unused);
  }
}
