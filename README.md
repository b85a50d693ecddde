# File bundler CLI: the `bundle` and `create-rsp` commands

This project models the core of a small C# command-line tool
(`my_cli/Program.cs`), written in Dafny, and proves properties of that model.
The tool's `bundle` command works in these steps:

1. It lists every file under the working directory and its subdirectories.
2. With "all", it keeps every file whose path mentions neither "bin" nor
   "debug". Otherwise, for each requested language, it keeps the files whose
   names end in `.` plus that language.
3. It can strip their whitespace-only lines, rewriting the files in place.
4. It sorts them by name or by extension.
5. It joins their texts into one output file. An optional
   `// Source Note:` header can name the directory, and another can name the
   author and the time.

The `create-rsp` command prompts once per option. It writes a
`name value` line for every answered prompt into a response file, reads
that file back, and folds its lines into one command string.

Modules:

- `Wrappers`: `Option`, standing in for a possibly-null reference.
- `Text`: the .NET string operations the tool relies on. These are
  ordinal case-insensitive `Contains`/`EndsWith`, `char.IsWhiteSpace`,
  `File.ReadAllLines` (lines end at `\r\n`, `\r` or `\n`) and `string.Join`.
  The module also has the text that a run of `WriteLine` calls leaves in a
  file.
- `Sequences`: LINQ `Where` as `Filter`, and `List<string>.Sort` as an
  in-place insertion sort on an array. The sort is ordered by a comparer
  that is only assumed to be a total preorder.
- `Bundler`: the pure parts of `bundle`:
  - `ShouldIncludeFile`;
  - the selection, as specification functions;
  - `Path.GetExtension`;
  - the text of a stripped file;
  - the bundle text and its headers;
  - the loops that build and sort the selection, as methods proved against
    those functions.
- `ResponseFile`: the prompt labels, the response lines, the command string,
  and the loops that write and fold them.
- `Disk`: the class `FileSystem`. Its field `files` maps paths to contents.
  Its methods `BundleCode`, `RemoveEmptyLinesFromFile` and
  `CreateResponseFile` update that field as the commands update the disk.

The model follows the code as written: on the branch without "all",
`my_cli/Program.cs:105` draws the matches from `files`, not from
`filesShouldInclude`. As a result:

- A path under `bin` or `debug` is selected by its language, though "all"
  leaves it out.
- A language given twice selects its files twice.

`SelectionExamples`, `AllExcludesBinExample`, `RepeatedLanguageExample` and
`SelectedByLanguageCount` state this behaviour.

## Model

| member | source | states |
|---|---|---|
| `Bundler.ShouldIncludeFile` | my_cli/Program.cs:71-77 | A path is eligible iff neither "bin" nor "debug" occurs at any position of it, letter case ignored. |
| `Bundler.ShouldIncludeFileExamples` | my_cli/Program.cs:71-77 | `bin\Debug\app.cs` is excluded. So are `Debugger.cs` and `Cabinet.cs`, because a directory name inside a longer name counts too. |
| `Text.ContainsIgnoreCaseIff` | my_cli/Program.cs:76 | The left-to-right `Contains(..., OrdinalIgnoreCase)` scan is true iff the needle occurs case-insensitively at some index. |
| `Bundler.IncludedFiles` | my_cli/Program.cs:83-92 | The `foreach` over the enumeration collects exactly the eligible paths, in enumeration order. |
| `Bundler.SelectedWithAll` | my_cli/Program.cs:86-100 | With "all", the selection of a concatenation is the concatenation of the selections. Each path occurs in it as often as it was enumerated if it is eligible, and otherwise not at all. |
| `Bundler.Selected` | my_cli/Program.cs:97-107 | Every selected path is one of the enumerated paths. |
| `Bundler.SelectFiles` | my_cli/Program.cs:83-107 | The selection the method builds is the specified one: the eligible paths with "all", the per-language matches otherwise. |
| `Bundler.ByLanguages` | my_cli/Program.cs:103-106 | The per-language matches are drawn from the enumerated paths. |
| `Bundler.SelectByLanguages` | my_cli/Program.cs:103-106 | The `AddRange` loop appends the matches of each language, in the order the languages are given. |
| `Bundler.ByLanguagesAppend` | my_cli/Program.cs:103-106 | The matches for the languages `a + b` are the matches for `a` followed by the matches for `b`. |
| `Bundler.ByLanguagesCount` | my_cli/Program.cs:103-106 | A path occurs in the matches once per requested language it ends with (repetitions counted), times the number of times it was enumerated. |
| `Bundler.SelectedByLanguageCount` | my_cli/Program.cs:103-106 | Without "all", a path is selected as many times as it matches a requested language, times its enumeration count, whether it is eligible or not. |
| `Bundler.SelectionExamples` | my_cli/Program.cs:103-106 | With `["csharp"]`, `bin\c.csharp` is selected next to `a.csharp`, and `b.css` is not. |
| `Bundler.RepeatedLanguageExample` | my_cli/Program.cs:103-106 | With `["csharp", "csharp"]`, both `.csharp` paths are selected twice, in language order. |
| `Bundler.AllExcludesBinExample` | my_cli/Program.cs:86-100 | With `["all"]`, `a.csharp` and `b.css` are selected and `bin\c.csharp` is not. |
| `Bundler.AbsentLetter` | my_cli/Program.cs:76 | A needle containing a letter that the path lacks, case folded, occurs nowhere in the path. |
| `Disk.FileSystem.RemoveEmptyLinesFromFile` | my_cli/Program.cs:149-155 | The method returns its path. Only that file changes. Read back, the file holds exactly its old non-whitespace lines, in their order. |
| `Bundler.StripBlankLinesReadsBack` | my_cli/Program.cs:151-153 | Reading a stripped file line by line gives exactly the non-blank lines of the original, in order. |
| `Bundler.StripBlankLinesIdempotent` | my_cli/Program.cs:149-155 | Stripping a stripped file changes nothing. |
| `Text.JoinRoundTrip` | my_cli/Program.cs:152 | Non-empty lines without breaks, joined by the newline, are read back unchanged by `ReadAllLines`. |
| `Text.SplitLinesHaveNoBreaks` | my_cli/Program.cs:151 | No line returned by `ReadAllLines` contains `\r` or `\n`. |
| `Bundler.StripAll` | my_cli/Program.cs:115-118 | Stripping the selected files one by one keeps the set of paths on disk. |
| `Bundler.StripAllPointwise` | my_cli/Program.cs:115-118 | After the stripping loop, each selected file is stripped once, even if it was selected several times, and every other file is unchanged. |
| `Disk.FileSystem.RemoveEmptyLinesFromAll` | my_cli/Program.cs:115-118 | `Select(RemoveEmptyLinesFromFile)` leaves the path list unchanged. Each selected file is stripped, and every other file is untouched. |
| `Bundler.Extension` | my_cli/Program.cs:122 | `Path.GetExtension` returns either "" or a suffix of the path that starts with `.` and has at least one more character, with no further dot and no separator. |
| `Bundler.ExtensionFromShape` | my_cli/Program.cs:122 | The backwards scan from any position after which there is no dot and no separator returns such a suffix. |
| `Bundler.ExtensionFromEmpty` | my_cli/Program.cs:122 | The backwards scan returns "" iff the path ends with `.` or every dot before the start position is followed by a separator. |
| `Bundler.ExtensionEmptyIff` | my_cli/Program.cs:122 | A path has no extension iff it ends with `.` or each of its dots lies in a directory name. |
| `Bundler.ExtensionOfSourceFile` | my_cli/Program.cs:122 | The extension of `src\a.cs` is `.cs`. |
| `Bundler.ExtensionOfDottedDirectory` | my_cli/Program.cs:122 | `a.d\Make` has no extension: a dot in a directory name does not count. |
| `Sequences.SortInPlace` | my_cli/Program.cs:120-127 | The in-place sort leaves the array as a permutation of its old contents, non-decreasing by the key under the comparer. |
| `Sequences.InsertLast` | my_cli/Program.cs:122-126 | One insertion step extends the sorted prefix by one element and keeps the array a permutation. |
| `Sequences.SwapStep` | my_cli/Program.cs:122-126 | Swapping the moving element with a larger left neighbour keeps every other pair of the prefix in order. |
| `Sequences.InsertionDone` | my_cli/Program.cs:122-126 | Once the moving element is not below its left neighbour, the whole prefix is sorted. |
| `Sequences.OrdinalLeIsTotalPreorder` | my_cli/Program.cs:122-126 | Ordinal string comparison is total and transitive, so it is one of the comparers the sort may be given. |
| `Bundler.SortFiles` | my_cli/Program.cs:120-127 | The sorted list is a permutation of the selection that holds the same paths. It is non-decreasing by extension when `sort`, lower-cased, is "type", and by full path otherwise. |
| `Bundler.AddHeaders` | my_cli/Program.cs:131-138 | The two `if`s produce the author header, then the note header, then the joined texts. The author header is added last, so it comes first. |
| `Bundler.SingleFileBundle` | my_cli/Program.cs:129-138 | One selected file and no headers give that file's text unchanged. |
| `Disk.FileSystem.BundleCode` | my_cli/Program.cs:78-148 | See the note after this table. |
| `ResponseFile.OptionName` | my_cli/Program.cs:56 | `option.Split(" ")[0]` is the longest prefix of the label without a space. The next character, if any, is a space. |
| `ResponseFile.OptionNameOfLabel` | my_cli/Program.cs:56 | A label made of a space-free name followed by nothing or by text starting with a space yields that name. |
| `ResponseFile.PromptOptionNames` | my_cli/Program.cs:43-56 | The five prompts write `--language`, `--note`, `--sort`, `--remove-empty-lines` and `--author`. |
| `ResponseFile.PromptOptionsHaveNoBreaks` | my_cli/Program.cs:43-56 | No prompt's option name contains a line break. |
| `ResponseFile.ResponseLines` | my_cli/Program.cs:50-57 | There are never more response lines than prompts. |
| `ResponseFile.ResponseLinesAppend` | my_cli/Program.cs:50-57 | Prompts contribute their lines in prompt order. |
| `ResponseFile.ResponseLinesCount` | my_cli/Program.cs:55-56 | The number of response lines is the number of answers that are neither null nor empty. |
| `ResponseFile.ResponseLinesHaveNoBreaks` | my_cli/Program.cs:52-56 | Lines built from break-free names and console answers contain no line break. |
| `ResponseFile.WriteResponseLines` | my_cli/Program.cs:47-58 | The `foreach` writes exactly one `WriteLine` per answered prompt, in prompt order. |
| `Text.WriteLinesRoundTrip` | my_cli/Program.cs:56-61 | Lines without breaks written one per `WriteLine` are read back unchanged by `ReadAllLines`. |
| `ResponseFile.JoinCommand` | my_cli/Program.cs:62-67 | The `lines = lines + " " + line` loop yields the command string of the lines. |
| `ResponseFile.CommandStringAppend` | my_cli/Program.cs:62-67 | The command string of `a + b` is the command string of `a` followed by that of `b`. |
| `ResponseFile.CommandStringLength` | my_cli/Program.cs:62-67 | The command string has one leading space per line, plus the lines themselves. |
| `Disk.FileSystem.CreateResponseFile` | my_cli/Program.cs:40-70 | The response file holds one line per given answer, in prompt order. The command string is built from exactly those lines as they are read back. |

`Disk.FileSystem.BundleCode` ensures the following:

- An empty selection ends the run with no file changed.
- Otherwise the outcome's order is a permutation of the selection, sorted
  by the chosen key.
- The content is the headers followed by the texts of the possibly stripped
  files in that order, joined by the newline.
- The output is written iff its directory exists.
- Every file other than the output is either unchanged or stripped once,
  and stripped exactly when stripping was requested and the file was
  selected.

## Left out

- Directory enumeration (`Directory.GetFiles`, line 80): the enumerated
  paths are an input of `BundleCode`. The model requires each of them to be
  present in the file map. A missing file would make the source throw.
- Real file I/O: file contents are a map from path to text. Encodings and
  byte-order marks are not modelled.
- `RunCommand` (lines 6-39): it starts a process and pipes the command into
  it. It is foreign process I/O, so the model stops at the command string it
  would be given.
- Console prompts and logging: the answers are an input sequence and printed
  output is dropped. `None` stands for the `null` that `Console.ReadLine`
  returns at end of input.
- Parameters: `DateTime.Now`, as its formatted text; the current directory;
  and `Environment.NewLine`, which is "\n" or "\r\n".
- Sort order: the culture-sensitive `string.CompareTo` and the default
  string comparer are abstracted as a comparer `le` that is only assumed to
  be a total preorder. Ordinal comparison is proved to be one.
- `Sequences.SortInPlace`: specifies permutation and sortedness but not the
  order of equal keys. .NET's `List.Sort` is unstable, so the source
  promises no tie order either.
- The `DirectoryNotFoundException` catch (lines 139-146) becomes the flag
  `outputWritable`. Other exceptions from `File.WriteAllText` are not
  modelled.
- Letter case: case-insensitive comparison and `ToLower` fold ASCII letters
  only. Non-ASCII case mappings are not modelled.
- `Path.GetExtension`: follows the Windows rules, with `\` and `/` as
  separators. Drive-letter colons and the Unix rules are not modelled.
- `System.CommandLine`: the option declarations, aliases, defaults and
  handler wiring (lines 157-208) are library glue, so the model takes the
  parsed option values as method parameters.
- `Disk.FileSystem.BundleCode`: paths are compared as strings. `output` is
  assumed to be spelled as the enumeration spells the same file. The source
  resolves a relative `output` against the working directory, and Windows
  ignores letter case in names. So a run that picks up and then overwrites
  a previous bundle under another spelling is not described: the model
  leaves that enumerated entry unchanged.
- Line 81: the unused expression `languages.ToString().Split(' ')` has no
  effect and is not modelled.
- `Disk.FileSystem.CreateResponseFile`: takes a path that can be opened. A
  null or empty path, or one in a missing directory, makes
  `new StreamWriter(output)` (line 47) throw before any prompt, so no file
  is written and no command is built; the model requires a non-empty path
  and does not model the missing-directory failure.
- `CreateResponseFile`: the response file's path comes from the console and
  is a parameter of the model. The success message (line 60) is console
  output.
