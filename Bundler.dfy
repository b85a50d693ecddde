/**
 * The pure parts of the `bundle` command (my_cli/Program.cs): which
 * enumerated paths are eligible, which are selected for the requested
 * languages, the key they are sorted by, what stripping empty lines does to a
 * file's text, and the text of the bundle with its optional headers.
 */
module Bundler {
  import opened Wrappers
  import opened Text
  import opened Sequences

  // ---------------------------------------------------------------------
  // Eligibility: ShouldIncludeFile
  // ---------------------------------------------------------------------

  const ExcludedDirectories: seq<string> := ["bin", "debug"]

  /**
   * A path is eligible unless "bin" or "debug" occurs anywhere in it, in any
   * letter case: inside a longer name ("Cabinet.cs", "Debugger.cs") too.
   */
  function ShouldIncludeFile(filePath: string): (r: bool)
    ensures r <==> forall i :: !OccursIgnoreCaseAt(filePath, "bin", i) && !OccursIgnoreCaseAt(filePath, "debug", i)
  {
    ContainsIgnoreCaseIff(filePath, "bin");
    ContainsIgnoreCaseIff(filePath, "debug");
    !(exists dir :: dir in ExcludedDirectories && ContainsIgnoreCase(filePath, dir))
  }

  lemma ShouldIncludeFileExamples()
    ensures !ShouldIncludeFile("C:\\src\\bin\\Debug\\app.cs")
    ensures !ShouldIncludeFile("C:\\src\\Debugger.cs")
    ensures !ShouldIncludeFile("C:\\src\\Cabinet.cs")
  {
    assert OccursIgnoreCaseAt("C:\\src\\bin\\Debug\\app.cs", "bin", 7);
    assert OccursIgnoreCaseAt("C:\\src\\Debugger.cs", "debug", 7);
    assert OccursIgnoreCaseAt("C:\\src\\Cabinet.cs", "bin", 9);
  }

  // ---------------------------------------------------------------------
  // Selection by language
  // ---------------------------------------------------------------------

  /** `path.EndsWith("." + language, StringComparison.OrdinalIgnoreCase)` */
  predicate MatchesLanguage(path: string, language: string) {
    EndsWithIgnoreCase(path, "." + language)
  }

  /** The eligible paths, in enumeration order. */
  function Included(paths: seq<string>): seq<string> {
    Filter(ShouldIncludeFile, paths)
  }

  /** The enumerated paths that end with ".<language>". */
  function Matching(paths: seq<string>, language: string): seq<string> {
    Filter(p => MatchesLanguage(p, language), paths)
  }

  /** One `AddRange` per requested language, in the order the languages are given. */
  function ByLanguages(paths: seq<string>, languages: seq<string>): (r: seq<string>)
    ensures forall x :: x in r ==> x in paths
    decreases |languages|
  {
    if languages == [] then []
    else ByLanguages(paths, languages[..|languages| - 1]) + Matching(paths, languages[|languages| - 1])
  }

  /**
   * The selection before sorting. With "all" it is the eligible paths;
   * otherwise the matches are drawn from the whole enumeration, so the
   * "bin"/"debug" exclusion does not apply to them.
   */
  function Selected(paths: seq<string>, languages: seq<string>): (r: seq<string>)
    ensures forall x :: x in r ==> x in paths
  {
    if "all" in languages then Included(paths) else ByLanguages(paths, languages)
  }

  /** How many of the requested languages `path` matches, repetitions counted. */
  function LanguageHits(languages: seq<string>, path: string): nat
    decreases |languages|
  {
    if languages == [] then 0
    else LanguageHits(languages[..|languages| - 1], path)
         + (if MatchesLanguage(path, languages[|languages| - 1]) then 1 else 0)
  }

  /**
   * With "all", the selection keeps enumeration order and holds each eligible
   * path as often as it was enumerated, and no ineligible path.
   */
  lemma SelectedWithAll(paths: seq<string>, more: seq<string>, languages: seq<string>, p: string)
    requires "all" in languages
    ensures Selected(paths + more, languages) == Selected(paths, languages) + Selected(more, languages)
    ensures multiset(Selected(paths, languages))[p] == if ShouldIncludeFile(p) then multiset(paths)[p] else 0
  {
    FilterAppend(ShouldIncludeFile, paths, more);
    FilterCount(ShouldIncludeFile, paths, p);
  }

  /**
   * Without "all", a path is selected once per requested language it ends
   * with, times the number of times it was enumerated, eligible or not.
   */
  lemma SelectedByLanguageCount(paths: seq<string>, languages: seq<string>, p: string)
    requires "all" !in languages
    ensures multiset(Selected(paths, languages))[p] == LanguageHits(languages, p) * multiset(paths)[p]
  {
    ByLanguagesCount(paths, languages, p);
  }

  lemma {:induction false} ByLanguagesCount(paths: seq<string>, languages: seq<string>, p: string)
    ensures multiset(ByLanguages(paths, languages))[p] == LanguageHits(languages, p) * multiset(paths)[p]
    decreases |languages|
  {
    if languages != [] {
      var init, last := languages[..|languages| - 1], languages[|languages| - 1];
      ByLanguagesCount(paths, init, p);
      FilterCount(q => MatchesLanguage(q, last), paths, p);
      var before, added := ByLanguages(paths, init), Matching(paths, last);
      assert ByLanguages(paths, languages) == before + added;
      assert multiset(before + added)[p] == multiset(before)[p] + multiset(added)[p];
      CountStep(multiset(before + added)[p], multiset(before)[p], multiset(added)[p],
                LanguageHits(init, p), LanguageHits(languages, p), multiset(paths)[p], MatchesLanguage(p, last));
    }
  }

  lemma CountStep(total: int, before: int, added: int, h: int, hits: int, m: int, matches: bool)
    requires total == before + added && before == h * m
    requires added == (if matches then m else 0) && hits == h + (if matches then 1 else 0)
    ensures total == hits * m
  {
    if matches {
      assert hits * m == h * m + m;
    }
  }

  /** Languages contribute their matches in the order they are requested. */
  lemma {:induction false} ByLanguagesAppend(paths: seq<string>, first: seq<string>, later: seq<string>)
    ensures ByLanguages(paths, first + later) == ByLanguages(paths, first) + ByLanguages(paths, later)
    decreases |later|
  {
    if later == [] {
      assert first + later == first;
    } else {
      var init := later[..|later| - 1];
      assert (first + later)[..|first + later| - 1] == first + init;
      assert (first + later)[|first + later| - 1] == later[|later| - 1];
      ByLanguagesAppend(paths, first, init);
    }
  }

  /** A path under "bin" is selected by its language. */
  lemma SelectionExamples()
    ensures Selected(["a.csharp", "b.css", "bin\\c.csharp"], ["csharp"]) == ["a.csharp", "bin\\c.csharp"]
  {
    var paths := ["a.csharp", "b.css", "bin\\c.csharp"];
    assert MatchesLanguage(paths[0], "csharp");
    assert !MatchesLanguage(paths[1], "csharp");
    assert MatchesLanguage(paths[2], "csharp");
    assert Matching(paths[2..], "csharp") == [paths[2]];
    assert Matching(paths[1..], "csharp") == [paths[2]];
    assert Matching(paths, "csharp") == [paths[0], paths[2]];
    assert ["csharp"][..0] == [];
  }

  /** A language given twice selects its files twice. */
  lemma RepeatedLanguageExample()
    ensures Selected(["a.csharp", "b.css", "bin\\c.csharp"], ["csharp", "csharp"])
         == ["a.csharp", "bin\\c.csharp", "a.csharp", "bin\\c.csharp"]
  {
    var paths := ["a.csharp", "b.css", "bin\\c.csharp"];
    SelectionExamples();
    ByLanguagesAppend(paths, ["csharp"], ["csharp"]);
    assert ["csharp"] + ["csharp"] == ["csharp", "csharp"];
  }

  /** With "all", the same path under "bin" is not selected. */
  lemma AllExcludesBinExample()
    ensures Selected(["a.csharp", "b.css", "bin\\c.csharp"], ["all"]) == ["a.csharp", "b.css"]
  {
    var paths := ["a.csharp", "b.css", "bin\\c.csharp"];
    var a, b := paths[0], paths[1];
    assert forall j :: 0 <= j < |a| ==> FoldCase(a[j]) != 'b' && FoldCase(a[j]) != 'd';
    AbsentLetter(a, "bin", 0);
    AbsentLetter(a, "debug", 0);
    assert forall j :: 0 <= j < |b| ==> FoldCase(b[j]) != 'i' && FoldCase(b[j]) != 'd';
    AbsentLetter(b, "bin", 1);
    AbsentLetter(b, "debug", 0);
    assert OccursIgnoreCaseAt(paths[2], "bin", 0);
    assert Filter(ShouldIncludeFile, paths[2..]) == [];
    assert Filter(ShouldIncludeFile, paths[1..]) == [b];
  }

  /** A needle with a letter that `s` lacks, case folded, occurs nowhere in `s`. */
  lemma AbsentLetter(s: string, needle: string, k: int)
    requires 0 <= k < |needle|
    requires forall j :: 0 <= j < |s| ==> FoldCase(s[j]) != FoldCase(needle[k])
    ensures forall i :: !OccursIgnoreCaseAt(s, needle, i)
  {
    forall i ensures !OccursIgnoreCaseAt(s, needle, i) {
      if 0 <= i && i + |needle| <= |s| {
        var t := s[i..i + |needle|];
        assert t[k] == s[i + k] && FoldCase(t[k]) != FoldCase(needle[k]);
      }
    }
  }

  // ---------------------------------------------------------------------
  // Sort keys: Path.GetExtension
  // ---------------------------------------------------------------------

  /** The directory separators of a Windows path. */
  predicate IsDirectorySeparator(c: char) {
    c == '\\' || c == '/'
  }

  /** Every '.' among the first `i` characters is followed by a separator before `i`. */
  ghost predicate NoExtensionBefore(path: string, i: int)
    requires 0 <= i <= |path|
  {
    forall k :: 0 <= k < i && path[k] == '.' ==> exists m :: k < m < i && IsDirectorySeparator(path[m])
  }

  /** `Path.GetExtension` scanning backwards from position `i`. */
  function ExtensionFrom(path: string, i: nat): string
    requires i <= |path|
    decreases i
  {
    if i == 0 then ""
    else if path[i - 1] == '.' then (if i == |path| then "" else path[i - 1..])
    else if IsDirectorySeparator(path[i - 1]) then ""
    else ExtensionFrom(path, i - 1)
  }

  /**
   * Scanning from a position after which the path has no dot and no
   * separator finds a suffix that is either empty or a dot followed by at
   * least one character, none of them a dot or a separator.
   */
  lemma {:induction false} ExtensionFromShape(path: string, i: nat)
    requires i <= |path|
    requires forall k :: i <= k < |path| ==> path[k] != '.' && !IsDirectorySeparator(path[k])
    ensures var r := ExtensionFrom(path, i);
      && |r| <= |path| && r == path[|path| - |r|..]
      && (r != [] ==> |r| >= 2 && r[0] == '.')
      && (forall k :: 1 <= k < |r| ==> r[k] != '.' && !IsDirectorySeparator(r[k]))
    decreases i
  {
    if i > 0 && path[i - 1] != '.' && !IsDirectorySeparator(path[i - 1]) {
      ExtensionFromShape(path, i - 1);
    }
  }

  /**
   * `Path.GetExtension(path)`: the text from the last '.' of the file name
   * on, or "" when the file name has no '.' or ends with one. The result is
   * a suffix of the path holding a single '.' and no separator.
   */
  function Extension(path: string): (r: string)
    ensures |r| <= |path| && r == path[|path| - |r|..]
    ensures r != [] ==> |r| >= 2 && r[0] == '.'
    ensures forall k :: 1 <= k < |r| ==> r[k] != '.' && !IsDirectorySeparator(r[k])
  {
    ExtensionFromShape(path, |path|);
    ExtensionFrom(path, |path|)
  }

  lemma {:induction false} ExtensionFromEmpty(path: string, i: nat)
    requires i <= |path|
    requires forall k :: i <= k < |path| ==> path[k] != '.' && !IsDirectorySeparator(path[k])
    ensures ExtensionFrom(path, i) == [] <==> (0 < |path| && path[|path| - 1] == '.') || NoExtensionBefore(path, i)
    decreases i
  {
    if i == 0 {
      assert NoExtensionBefore(path, i);
    } else if path[i - 1] == '.' {
      if i < |path| {
        assert path[|path| - 1] != '.';
        DotStartsExtension(path, i);
      }
    } else if IsDirectorySeparator(path[i - 1]) {
      SeparatorEndsSearch(path, i);
    } else {
      ExtensionFromEmpty(path, i - 1);
      NoExtensionStep(path, i);
    }
  }

  lemma DotStartsExtension(path: string, i: nat)
    requires 0 < i <= |path| && path[i - 1] == '.'
    ensures !NoExtensionBefore(path, i)
  {
    var k := i - 1;
    assert 0 <= k < i && path[k] == '.';
  }

  lemma SeparatorEndsSearch(path: string, i: nat)
    requires 0 < i <= |path| && IsDirectorySeparator(path[i - 1])
    ensures NoExtensionBefore(path, i)
  {
    forall k | 0 <= k < i && path[k] == '.'
      ensures exists m :: k < m < i && IsDirectorySeparator(path[m])
    {
      assert k < i - 1 && IsDirectorySeparator(path[i - 1]);
    }
  }

  lemma NoExtensionStep(path: string, i: nat)
    requires 0 < i <= |path| && path[i - 1] != '.' && !IsDirectorySeparator(path[i - 1])
    ensures NoExtensionBefore(path, i) <==> NoExtensionBefore(path, i - 1)
  {
    if NoExtensionBefore(path, i - 1) {
      forall k | 0 <= k < i && path[k] == '.'
        ensures exists m :: k < m < i && IsDirectorySeparator(path[m])
      {
        var m :| k < m < i - 1 && IsDirectorySeparator(path[m]);
      }
    }
    if NoExtensionBefore(path, i) {
      forall k | 0 <= k < i - 1 && path[k] == '.'
        ensures exists m :: k < m < i - 1 && IsDirectorySeparator(path[m])
      {
        var m :| k < m < i && IsDirectorySeparator(path[m]);
        assert m != i - 1;
      }
    }
  }

  /**
   * A path has no extension exactly when it ends with '.' or each of its
   * dots lies in a directory name rather than in the file name.
   */
  lemma ExtensionEmptyIff(path: string)
    ensures Extension(path) == [] <==> (0 < |path| && path[|path| - 1] == '.') || NoExtensionBefore(path, |path|)
  {
    ExtensionFromEmpty(path, |path|);
  }

  lemma ExtensionOfSourceFile()
    ensures Extension("src\\a.cs") == ".cs"
  {
    var p := "src\\a.cs";
    assert p[7] == 's' && p[6] == 'c' && p[5] == '.';
    assert ExtensionFrom(p, 7) == ExtensionFrom(p, 6);
    assert ExtensionFrom(p, 6) == p[5..];
  }

  lemma ExtensionOfDottedDirectory()
    ensures Extension("a.d\\Make") == ""
  {
    var q := "a.d\\Make";
    ExtensionEmptyIff(q);
    forall k | 0 <= k < |q| && q[k] == '.'
      ensures exists m :: k < m < |q| && IsDirectorySeparator(q[m])
    {
      assert k == 1 && IsDirectorySeparator(q[3]);
    }
  }

  /** "type" (in any letter case) sorts by extension; any other value by full path. */
  function SortKey(sort: string): (key: string -> string)
    ensures LowerAscii(sort) == "type" ==> forall p :: key(p) == Extension(p)
    ensures LowerAscii(sort) != "type" ==> forall p :: key(p) == p
  {
    if LowerAscii(sort) == "type" then Extension else p => p
  }

  // ---------------------------------------------------------------------
  // RemoveEmptyLinesFromFile, on one file's text
  // ---------------------------------------------------------------------

  /** The text `RemoveEmptyLinesFromFile` writes back: the non-blank lines joined by the newline. */
  function StripBlankLines(content: string, nl: string): string {
    Join(nl, Filter(IsNotBlank, SplitLines(content)))
  }

  /** Reading the stripped file gives exactly its non-blank lines, in their original order. */
  lemma StripBlankLinesReadsBack(content: string, nl: string)
    requires IsNewLine(nl)
    ensures SplitLines(StripBlankLines(content, nl)) == Filter(IsNotBlank, SplitLines(content))
  {
    var kept := Filter(IsNotBlank, SplitLines(content));
    SplitLinesHaveNoBreaks(content);
    forall l | l in kept ensures l != [] && HasNoLineBreak(l) {
      assert IsNotBlank(l);
    }
    JoinRoundTrip(kept, nl);
  }

  /** Stripping a file a second time leaves it as the first time did. */
  lemma StripBlankLinesIdempotent(content: string, nl: string)
    requires IsNewLine(nl)
    ensures StripBlankLines(StripBlankLines(content, nl), nl) == StripBlankLines(content, nl)
  {
    StripBlankLinesReadsBack(content, nl);
    FilterKeepsAll(IsNotBlank, Filter(IsNotBlank, SplitLines(content)));
  }

  /** The file map after `RemoveEmptyLinesFromFile` has run on each of `paths` in turn. */
  function StripAll(files: map<string, string>, paths: seq<string>, nl: string): (r: map<string, string>)
    requires forall p :: p in paths ==> p in files
    ensures r.Keys == files.Keys
    decreases |paths|
  {
    if paths == [] then files
    else
      assert forall p :: p in paths[..|paths| - 1] ==> p in paths;
      var before := StripAll(files, paths[..|paths| - 1], nl);
      var last := paths[|paths| - 1];
      before[last := StripBlankLines(before[last], nl)]
  }

  /**
   * Stripping the selected files one after the other, a file selected
   * several times included, leaves each selected file stripped once and
   * every other file as it was.
   */
  lemma {:induction false} StripAllPointwise(files: map<string, string>, paths: seq<string>, nl: string)
    requires IsNewLine(nl)
    requires forall p :: p in paths ==> p in files
    ensures forall p :: p in files ==>
      StripAll(files, paths, nl)[p] == if p in paths then StripBlankLines(files[p], nl) else files[p]
    decreases |paths|
  {
    if paths != [] {
      var init, last := paths[..|paths| - 1], paths[|paths| - 1];
      assert forall p :: p in init ==> p in paths;
      assert forall p :: p in paths <==> p in init || p == last;
      StripAllPointwise(files, init, nl);
      StripBlankLinesIdempotent(files[last], nl);
    }
  }

  // ---------------------------------------------------------------------
  // The bundle's text
  // ---------------------------------------------------------------------

  /** `File.ReadAllText` of each path, in order. */
  function FileTexts(files: map<string, string>, paths: seq<string>): (texts: seq<string>)
    requires forall p :: p in paths ==> p in files
    ensures |texts| == |paths|
    ensures forall i :: 0 <= i < |paths| ==> texts[i] == files[paths[i]]
  {
    seq(|paths|, i requires 0 <= i < |paths| => files[paths[i]])
  }

  /** The files' texts joined by the newline, before any header. */
  function BundleText(files: map<string, string>, order: seq<string>, nl: string): string
    requires forall p :: p in order ==> p in files
  {
    Join(nl, FileTexts(files, order))
  }

  const NoteTag := "// Source Note: "

  function NoteHeader(note: bool, cwd: string): string {
    if note then NoteTag + cwd + "\n\n" else ""
  }

  function AuthorHeader(author: Option<string>, now: string): string {
    if author.Some? then NoteTag + author.value + " - " + now + "\n\n" else ""
  }

  /**
   * The bundle with its headers: the directory note is prefixed first and
   * the author note after it, so when both are present the author note
   * comes first in the file.
   */
  function Annotate(body: string, note: bool, cwd: string, author: Option<string>, now: string): string {
    AuthorHeader(author, now) + NoteHeader(note, cwd) + body
  }

  /** The two `if`s that prefix the bundle with the note and author headers. */
  method AddHeaders(bundleContent: string, note: bool, cwd: string, author: Option<string>, now: string)
    returns (annotated: string)
    ensures annotated == Annotate(bundleContent, note, cwd, author, now)
  {
    annotated := bundleContent;
    if note {
      annotated := NoteTag + cwd + "\n\n" + annotated;
    }
    if author.Some? {
      annotated := NoteTag + author.value + " - " + now + "\n\n" + annotated;
    }
  }

  /** One selected file, no headers: the output is that file's text exactly. */
  lemma SingleFileBundle(files: map<string, string>, path: string, nl: string, cwd: string, now: string)
    requires path in files
    ensures Annotate(BundleText(files, [path], nl), false, cwd, None, now) == files[path]
  {
  }

  // ---------------------------------------------------------------------
  // The loops of BundleCode that build the selection
  // ---------------------------------------------------------------------

  /** The loop that collects `filesShouldInclude`. */
  method IncludedFiles(files: seq<string>) returns (included: seq<string>)
    ensures included == Included(files)
  {
    included := [];
    for i := 0 to |files|
      invariant included == Included(files[..i])
    {
      FilterAppend(ShouldIncludeFile, files[..i], [files[i]]);
      assert files[..i + 1] == files[..i] + [files[i]];
      if ShouldIncludeFile(files[i]) {
        included := included + [files[i]];
      }
    }
    assert files[..|files|] == files;
  }

  /** The selection of `BundleCode`, before the empty-selection check. */
  method SelectFiles(files: seq<string>, languages: seq<string>) returns (selectedFiles: seq<string>)
    ensures selectedFiles == Selected(files, languages)
  {
    var filesShouldInclude := IncludedFiles(files);
    if "all" in languages {
      selectedFiles := filesShouldInclude;
    } else {
      selectedFiles := SelectByLanguages(files, languages);
    }
  }

  /** The loop that `AddRange`s the matches of each requested language. */
  method SelectByLanguages(files: seq<string>, languages: seq<string>) returns (selected: seq<string>)
    ensures selected == ByLanguages(files, languages)
  {
    selected := [];
    for i := 0 to |languages|
      invariant selected == ByLanguages(files, languages[..i])
    {
      assert languages[..i + 1][..i] == languages[..i];
      selected := selected + Matching(files, languages[i]);
    }
    assert languages[..|languages|] == languages;
  }

  /** `selectedFiles.Sort(...)`: by extension when `sort` is "type", else by full path. */
  method SortFiles(selectedFiles: seq<string>, sort: string, le: (string, string) -> bool)
    returns (order: seq<string>)
    requires TotalPreorder(le)
    ensures multiset(order) == multiset(selectedFiles)
    ensures forall p :: p in order <==> p in selectedFiles
    ensures SortedBy(order, SortKey(sort), le)
  {
    var buffer := new string[|selectedFiles|](i requires 0 <= i < |selectedFiles| => selectedFiles[i]);
    assert buffer[..] == selectedFiles;
    SortInPlace(buffer, SortKey(sort), le);
    order := buffer[..];
    forall p ensures p in order <==> p in selectedFiles {
      assert p in order <==> p in multiset(order);
    }
  }
}
