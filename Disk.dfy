/**
 * The commands of my_cli/Program.cs run against a file system: a map from
 * path to text that `BundleCode`, `RemoveEmptyLinesFromFile` and
 * `CreateResponseFile` read and overwrite in place.
 */
module Disk {
  import opened Wrappers
  import opened Text
  import opened Sequences
  import opened Bundler
  import opened ResponseFile

  /** How a `bundle` run ends. */
  datatype Outcome =
    | NoFilesFound
      // the selection was empty: nothing was stripped, nothing written
    | Bundled(order: seq<string>, content: string, written: bool)
      // the sorted selection and the text meant for the output; `written`
      // is false when the output's directory did not exist

  /** The file map once the selected files have been stripped, when asked to. */
  function AfterStripping(files: map<string, string>, selection: seq<string>, removeEmptyLines: bool, nl: string)
    : map<string, string>
    requires forall p :: p in selection ==> p in files
  {
    if removeEmptyLines then StripAll(files, selection, nl) else files
  }

  class FileSystem {
    var files: map<string, string>

    constructor (initial: map<string, string>)
      ensures files == initial
    {
      files := initial;
    }

    /** Rewrites one file with its blank lines removed and returns its path. */
    method RemoveEmptyLinesFromFile(filePath: string, nl: string) returns (r: string)
      requires filePath in files
      requires IsNewLine(nl)
      modifies this
      ensures r == filePath
      ensures files == old(files)[filePath := StripBlankLines(old(files)[filePath], nl)]
      ensures SplitLines(files[filePath]) == Filter(IsNotBlank, SplitLines(old(files)[filePath]))
    {
      var lines := SplitLines(files[filePath]);
      var content := Join(nl, Filter(IsNotBlank, lines));
      StripBlankLinesReadsBack(files[filePath], nl);
      files := files[filePath := content];
      r := filePath;
    }

    /**
     * The `bundle` command. `enumerated` is what the recursive directory
     * listing returned, `cwd` the working directory, `now` the formatted
     * time, `nl` the platform newline, `le` the string comparer's order, and
     * `outputWritable` whether the output path's directory exists.
     */
    method BundleCode(output: string, languages: seq<string>, note: bool, sort: string,
                      removeEmptyLines: bool, author: Option<string>,
                      enumerated: seq<string>, cwd: string, now: string, nl: string,
                      le: (string, string) -> bool, outputWritable: bool)
      returns (outcome: Outcome)
      requires forall p :: p in enumerated ==> p in files
      requires IsNewLine(nl)
      requires TotalPreorder(le)
      modifies this
      ensures Selected(enumerated, languages) == [] ==> outcome == NoFilesFound && files == old(files)
      ensures Selected(enumerated, languages) != [] ==> outcome.Bundled?
      ensures outcome.Bundled? ==> multiset(outcome.order) == multiset(Selected(enumerated, languages))
      ensures outcome.Bundled? ==> SortedBy(outcome.order, SortKey(sort), le)
      ensures outcome.Bundled? ==>
        var stripped := AfterStripping(old(files), Selected(enumerated, languages), removeEmptyLines, nl);
        && (forall p :: p in outcome.order ==> p in stripped)
        && outcome.content == Annotate(BundleText(stripped, outcome.order, nl), note, cwd, author, now)
        && outcome.written == outputWritable
        && files == if outputWritable then stripped[output := outcome.content] else stripped
      ensures outcome.Bundled? ==> forall p :: p in old(files) && p != output ==>
        files[p] == if removeEmptyLines && p in Selected(enumerated, languages)
                    then StripBlankLines(old(files)[p], nl) else old(files)[p]
    {
      var selectedFiles := SelectFiles(enumerated, languages);
      ghost var selection := selectedFiles;
      if selectedFiles == [] {
        return NoFilesFound;
      }

      if removeEmptyLines {
        selectedFiles := RemoveEmptyLinesFromAll(selectedFiles, nl);
      }
      ghost var stripped := files;
      assert stripped == AfterStripping(old(files), selection, removeEmptyLines, nl);

      var order := SortFiles(selectedFiles, sort, le);

      var bundleContent := BundleText(files, order, nl);
      bundleContent := AddHeaders(bundleContent, note, cwd, author, now);
      if outputWritable {
        files := files[output := bundleContent];
      }
      outcome := Bundled(order, bundleContent, outputWritable);
    }

    /** `selectedFiles.Select(RemoveEmptyLinesFromFile).ToList()` */
    method RemoveEmptyLinesFromAll(selectedFiles: seq<string>, nl: string) returns (mapped: seq<string>)
      requires forall p :: p in selectedFiles ==> p in files
      requires IsNewLine(nl)
      modifies this
      ensures mapped == selectedFiles
      ensures files == StripAll(old(files), selectedFiles, nl)
      ensures forall p :: p in old(files) ==>
        files[p] == if p in selectedFiles then StripBlankLines(old(files)[p], nl) else old(files)[p]
    {
      mapped := [];
      for i := 0 to |selectedFiles|
        invariant mapped == selectedFiles[..i]
        invariant files == StripAll(old(files), selectedFiles[..i], nl)
      {
        assert selectedFiles[..i + 1][..i] == selectedFiles[..i];
        var path := RemoveEmptyLinesFromFile(selectedFiles[i], nl);
        mapped := mapped + [path];
      }
      assert selectedFiles[..|selectedFiles|] == selectedFiles;
      StripAllPointwise(old(files), selectedFiles, nl);
    }

    /**
     * The `create-rsp` command: asks each prompt in turn, writes one line per
     * given answer to `rspPath`, reads the file back line by line and
     * returns the command string built from those lines. `rspPath` is a
     * path the response file can be created at.
     */
    method CreateResponseFile(rspPath: string, answers: seq<Option<string>>, nl: string)
      returns (command: string)
      requires rspPath != ""
      requires |answers| == |PromptOptions|
      requires forall i :: 0 <= i < |answers| ==> IsAnswer(answers[i])
      requires IsNewLine(nl)
      modifies this
      ensures files == old(files)[rspPath := WriteLines(ResponseLines(PromptOptions, answers), nl)]
      ensures command == CommandString(ResponseLines(PromptOptions, answers))
    {
      var text := WriteResponseLines(PromptOptions, answers, nl);
      files := files[rspPath := text];

      PromptOptionsHaveNoBreaks();
      ResponseLinesHaveNoBreaks(PromptOptions, answers);
      WriteLinesRoundTrip(ResponseLines(PromptOptions, answers), nl);
      var responseLines := SplitLines(files[rspPath]);
      command := JoinCommand(responseLines);
    }
  }
}
