/**
 * The `create-rsp` command (my_cli/Program.cs, CreateResponseFile): one
 * `name value` line per answered prompt, and the command string folded from
 * the lines read back from the response file.
 */
module ResponseFile {
  import opened Wrappers
  import opened Text

  /** The prompt labels, in the order they are asked. */
  const PromptOptions: seq<string> :=
    ["--language" + " [csharp, css, vb,html, docx, pwsh, sql,all]", "--note", "--sort", "--remove-empty-lines", "--author"]

  /** `option.Split(" ")[0]`: the label up to its first space. */
  function OptionName(option: string): (name: string)
    ensures |name| <= |option| && name == option[..|name|]
    ensures ' ' !in name
    ensures |name| < |option| ==> option[|name|] == ' '
  {
    if option == [] then ""
    else if option[0] == ' ' then ""
    else [option[0]] + OptionName(option[1..])
  }

  /** A label made of a name and text starting with a space yields that name. */
  lemma {:induction false} OptionNameOfLabel(name: string, rest: string)
    requires ' ' !in name
    requires rest == [] || rest[0] == ' '
    ensures OptionName(name + rest) == name
    decreases |name|
  {
    if name == [] {
      assert name + rest == rest;
    } else {
      assert (name + rest)[0] == name[0];
      assert (name + rest)[1..] == name[1..] + rest;
      assert ' ' !in name[1..] by {
        assert forall c :: c in name[1..] ==> c in name;
      }
      OptionNameOfLabel(name[1..], rest);
      assert [name[0]] + name[1..] == name;
    }
  }

  lemma PromptOptionNames()
    ensures OptionName(PromptOptions[0]) == "--language"
    ensures OptionName(PromptOptions[1]) == "--note"
    ensures OptionName(PromptOptions[2]) == "--sort"
    ensures OptionName(PromptOptions[3]) == "--remove-empty-lines"
    ensures OptionName(PromptOptions[4]) == "--author"
  {
    OptionNameOfLabel("--language", " [csharp, css, vb,html, docx, pwsh, sql,all]");
    var labels := ["--note", "--sort", "--remove-empty-lines", "--author"];
    forall i | 0 <= i < |labels| ensures OptionName(labels[i]) == labels[i] {
      OptionNameOfLabel(labels[i], []);
      assert labels[i] + [] == labels[i];
    }
    assert PromptOptions[1..] == labels;
  }

  /** An answer read from the console: `null` at end of input, else one line. */
  predicate IsAnswer(answer: Option<string>) {
    answer.Some? ==> HasNoLineBreak(answer.value)
  }

  /** `!string.IsNullOrEmpty(value)` */
  predicate IsGiven(answer: Option<string>) {
    answer.Some? && answer.value != ""
  }

  /** The line written for an answered prompt. */
  function ResponseLine(option: string, value: string): string {
    OptionName(option) + " " + value
  }

  /** The lines written to the response file, one per given answer, in prompt order. */
  function ResponseLines(options: seq<string>, answers: seq<Option<string>>): (lines: seq<string>)
    requires |options| == |answers|
    ensures |lines| <= |options|
    decreases |options|
  {
    if options == [] then []
    else
      var n := |options| - 1;
      ResponseLines(options[..n], answers[..n])
      + (if IsGiven(answers[n]) then [ResponseLine(options[n], answers[n].value)] else [])
  }

  /**
   * Prompts contribute their lines in the order they are asked, so the lines
   * of a run are the lines of its first prompts followed by those of the rest.
   */
  lemma {:induction false} ResponseLinesAppend(o1: seq<string>, a1: seq<Option<string>>, o2: seq<string>, a2: seq<Option<string>>)
    requires |o1| == |a1| && |o2| == |a2|
    ensures ResponseLines(o1 + o2, a1 + a2) == ResponseLines(o1, a1) + ResponseLines(o2, a2)
    decreases |o2|
  {
    if o2 == [] {
      assert o1 + o2 == o1 && a1 + a2 == a1;
    } else {
      var n := |o2| - 1;
      assert (o1 + o2)[..|o1| + n] == o1 + o2[..n];
      assert (a1 + a2)[..|a1| + n] == a1 + a2[..n];
      assert (o1 + o2)[|o1| + n] == o2[n];
      assert (a1 + a2)[|a1| + n] == a2[n];
      ResponseLinesAppend(o1, a1, o2[..n], a2[..n]);
    }
  }

  /** One line per given answer, and none for an empty or missing one. */
  lemma {:induction false} ResponseLinesCount(options: seq<string>, answers: seq<Option<string>>)
    requires |options| == |answers|
    ensures |ResponseLines(options, answers)| == |set i | 0 <= i < |answers| && IsGiven(answers[i])|
    decreases |options|
  {
    if options != [] {
      var n := |options| - 1;
      ResponseLinesCount(options[..n], answers[..n]);
      var before := set i | 0 <= i < n && IsGiven(answers[..n][i]);
      var after := set i | 0 <= i < |answers| && IsGiven(answers[i]);
      if IsGiven(answers[n]) {
        assert after == before + {n};
      } else {
        assert after == before;
      }
    }
  }

  /** Lines built from labels and console answers never contain a line break. */
  lemma {:induction false} ResponseLinesHaveNoBreaks(options: seq<string>, answers: seq<Option<string>>)
    requires |options| == |answers|
    requires forall i :: 0 <= i < |options| ==> HasNoLineBreak(OptionName(options[i])) && IsAnswer(answers[i])
    ensures forall l :: l in ResponseLines(options, answers) ==> HasNoLineBreak(l)
    decreases |options|
  {
    if options != [] {
      var n := |options| - 1;
      ResponseLinesHaveNoBreaks(options[..n], answers[..n]);
      if IsGiven(answers[n]) {
        var line := ResponseLine(options[n], answers[n].value);
        assert HasNoLineBreak(line);
      }
    }
  }

  /** The option names of the prompts never contain a line break. */
  lemma PromptOptionsHaveNoBreaks()
    ensures forall i :: 0 <= i < |PromptOptions| ==> HasNoLineBreak(OptionName(PromptOptions[i]))
  {
    PromptOptionNames();
    ShortNamesHaveNoBreaks();
    forall i | 0 <= i < |PromptOptions| ensures HasNoLineBreak(OptionName(PromptOptions[i])) {
      assert i == 0 || i == 1 || i == 2 || i == 3 || i == 4;
    }
  }

  lemma ShortNamesHaveNoBreaks()
    ensures HasNoLineBreak("--language") && HasNoLineBreak("--note") && HasNoLineBreak("--sort")
    ensures HasNoLineBreak("--remove-empty-lines") && HasNoLineBreak("--author")
  {
    var names := ["--language", "--note", "--sort", "--remove-empty-lines", "--author"];
    forall k | 0 <= k < |names| ensures HasNoLineBreak(names[k]) {
      var name := names[k];
      assert forall i :: 0 <= i < |name| ==> !IsLineBreak(name[i]);
    }
    assert names[0] == "--language" && names[3] == "--remove-empty-lines";
  }

  /** The command string: " " + line for each line, in order. */
  function CommandString(lines: seq<string>): string
    decreases |lines|
  {
    if lines == [] then "" else CommandString(lines[..|lines| - 1]) + " " + lines[|lines| - 1]
  }

  /** The command of several lines is the command of the first ones followed by that of the rest. */
  lemma {:induction false} CommandStringAppend(first: seq<string>, rest: seq<string>)
    ensures CommandString(first + rest) == CommandString(first) + CommandString(rest)
    decreases |rest|
  {
    if rest == [] {
      assert first + rest == first;
    } else {
      var n := |rest| - 1;
      assert (first + rest)[..|first| + n] == first + rest[..n];
      assert (first + rest)[|first| + n] == rest[n];
      CommandStringAppend(first, rest[..n]);
    }
  }

  /** The command has one leading space per line on top of the lines themselves. */
  lemma {:induction false} CommandStringLength(lines: seq<string>)
    ensures |CommandString(lines)| == |lines| + TotalLength(lines)
    decreases |lines|
  {
    if lines != [] {
      CommandStringLength(lines[..|lines| - 1]);
    }
  }

  function TotalLength(lines: seq<string>): nat
    decreases |lines|
  {
    if lines == [] then 0 else TotalLength(lines[..|lines| - 1]) + |lines[|lines| - 1]|
  }

  /** The `lines = lines + " " + line` loop. */
  method JoinCommand(lines: seq<string>) returns (command: string)
    ensures command == CommandString(lines)
  {
    command := "";
    for i := 0 to |lines|
      invariant command == CommandString(lines[..i])
    {
      assert lines[..i + 1][..i] == lines[..i];
      command := command + " " + lines[i];
    }
    assert lines[..|lines|] == lines;
  }

  /** The loop that writes one line per given answer to the response file. */
  method WriteResponseLines(options: seq<string>, answers: seq<Option<string>>, nl: string) returns (text: string)
    requires |options| == |answers|
    ensures text == WriteLines(ResponseLines(options, answers), nl)
  {
    text := "";
    for i := 0 to |options|
      invariant text == WriteLines(ResponseLines(options[..i], answers[..i]), nl)
    {
      ghost var before := ResponseLines(options[..i], answers[..i]);
      assert options[..i + 1][..i] == options[..i];
      assert answers[..i + 1][..i] == answers[..i];
      var value := answers[i];
      if IsGiven(value) {
        var line := OptionName(options[i]) + " " + value.value;
        assert ResponseLines(options[..i + 1], answers[..i + 1]) == before + [line];
        WriteLinesSnoc(before, line, nl);
        text := text + line + nl;
      } else {
        assert ResponseLines(options[..i + 1], answers[..i + 1]) == before + [];
        assert before + [] == before;
      }
    }
    assert options[..|options|] == options;
    assert answers[..|answers|] == answers;
  }
}
