/** The Markdown reference of the `sg` command line (dev/sg/internal/docgen/
    markdown.go): the sorted lines of a command's flags, the usage and
    usage-text paragraphs, and the sections of all visible commands, each
    subcommand right after its parent. The `cli` library's commands and
    flags are plain records here. */
module DocGen {
  import opened Strings

  /** A flag of a command, as far as the generator looks into it: whether it
      can document itself (`cli.DocGenerationFlag`), its names, whether it
      takes a value, its usage and its default value. */
  datatype Flag = Flag(docGeneration: bool, names: seq<string>, takesValue: bool,
                       usage: string, defaultValue: string)

  /** A command; `name` is the first of its `Names()`. */
  datatype Command = Command(name: string, hidden: bool, usage: string, usageText: string,
                             argsUsage: string, description: string, flags: seq<Flag>,
                             subcommands: seq<Command>)

  // ---------------------------------------------------------------------------
  // Flags

  /** `flagDetails`: the usage, followed by the default value when there is
      one. */
  function FlagDetails(f: Flag): (r: string)
    ensures HasPrefix(r, ": " + f.usage)
    ensures f.defaultValue == "" <==> r == ": " + f.usage
    ensures f.defaultValue != "" ==> HasSuffix(r, " (default: " + f.defaultValue + ")")
  {
    var description := f.usage;
    if f.defaultValue != "" then ": " + description + " (default: " + f.defaultValue + ")"
    else ": " + description
  }

  /** One name of a flag as it is written on the command line: trimmed, and
      after two dashes when its UTF-8 encoding is longer than one byte, one
      otherwise. */
  function DashedName(name: string): (r: string)
    ensures |r| >= 1 && r[0] == '-'
  {
    var trimmed := TrimSpace(name);
    if Utf8Length(trimmed) > 1 then "--" + trimmed else "-" + trimmed
  }

  /** The dashed names of a list of names. */
  function DashedNames(names: seq<string>): (r: seq<string>)
    ensures |r| == |names|
    decreases |names|
  {
    if names == [] then [] else DashedNames(names[..|names| - 1]) + [DashedName(names[|names| - 1])]
  }

  /** The `i`th dashed name is that of the `i`th name. */
  lemma {:induction false} DashedNamesAt(names: seq<string>)
    ensures forall i :: 0 <= i < |names| ==> DashedNames(names)[i] == DashedName(names[i])
    decreases |names|
  {
    if names != [] {
      DashedNamesAt(names[..|names| - 1]);
    }
  }

  /** The line `prepareFlags` makes of one flag. */
  function FlagLine(f: Flag, sep: string, opener: string, closer: string, value: string, addDetails: bool): string {
    opener + JoinWith(DashedNames(f.names), sep) + closer
    + (if f.takesValue then "=" + value else "")
    + (if addDetails then FlagDetails(f) else "")
    + "\n"
  }

  /** The lines of the flags that document themselves, in flag order. */
  function FlagLines(flags: seq<Flag>, sep: string, opener: string, closer: string, value: string,
                     addDetails: bool): seq<string>
    decreases |flags|
  {
    if flags == [] then []
    else
      var f := flags[|flags| - 1];
      FlagLines(flags[..|flags| - 1], sep, opener, closer, value, addDetails)
      + (if f.docGeneration then [FlagLine(f, sep, opener, closer, value, addDetails)] else [])
  }

  /** The number of flags that document themselves. */
  function DocFlagCount(flags: seq<Flag>): nat
    decreases |flags|
  {
    if flags == [] then 0
    else DocFlagCount(flags[..|flags| - 1]) + (if flags[|flags| - 1].docGeneration then 1 else 0)
  }

  // ---------------------------------------------------------------------------
  // `sort.Strings`: Go orders strings byte by byte in UTF-8, which is the
  // order of their code points.

  /** `a` sorts before `b` or equals it. */
  predicate LessEq(a: string, b: string)
    decreases |a|
  {
    a == [] || (b != [] && (a[0] < b[0] || (a[0] == b[0] && LessEq(a[1..], b[1..]))))
  }

  lemma {:induction false} LessEqTotal(a: string, b: string)
    ensures LessEq(a, b) || LessEq(b, a)
    decreases |a|
  {
    if a != [] && b != [] && a[0] == b[0] {
      LessEqTotal(a[1..], b[1..]);
    }
  }

  lemma {:induction false} LessEqReflexive(a: string)
    ensures LessEq(a, a)
    decreases |a|
  {
    if a != [] {
      LessEqReflexive(a[1..]);
    }
  }

  lemma {:induction false} LessEqTransitive(a: string, b: string, c: string)
    requires LessEq(a, b) && LessEq(b, c)
    ensures LessEq(a, c)
    decreases |a|
  {
    if a != [] && a[0] == b[0] && b[0] == c[0] {
      LessEqTransitive(a[1..], b[1..], c[1..]);
    }
  }

  lemma {:induction false} LessEqAntisymmetric(a: string, b: string)
    requires LessEq(a, b) && LessEq(b, a)
    ensures a == b
    decreases |a|
  {
    if a != [] {
      LessEqAntisymmetric(a[1..], b[1..]);
      assert a == [a[0]] + a[1..] && b == [b[0]] + b[1..];
    }
  }

  predicate Sorted(s: seq<string>) {
    forall i, j :: 0 <= i < j < |s| ==> LessEq(s[i], s[j])
  }

  /** `x` put into the sorted list `s` before the first element it does not
      sort after. */
  function Insert(x: string, s: seq<string>): seq<string>
    decreases |s|
  {
    if s == [] || LessEq(x, s[0]) then [x] + s else [s[0]] + Insert(x, s[1..])
  }

  lemma {:induction false} InsertPermutes(x: string, s: seq<string>)
    ensures multiset(Insert(x, s)) == multiset(s) + multiset{x}
    decreases |s|
  {
    if s != [] && !LessEq(x, s[0]) {
      InsertPermutes(x, s[1..]);
      assert s == [s[0]] + s[1..];
    }
  }

  lemma {:induction false} InsertSorted(x: string, s: seq<string>)
    requires Sorted(s)
    ensures Sorted(Insert(x, s))
    decreases |s|
  {
    var r := Insert(x, s);
    if s == [] {
    } else if LessEq(x, s[0]) {
      forall i, j | 0 <= i < j < |r| ensures LessEq(r[i], r[j]) {
        if i == 0 && j > 1 { LessEqTransitive(x, s[0], s[j - 1]); }
      }
    } else {
      var t := Insert(x, s[1..]);
      InsertSorted(x, s[1..]);
      InsertPermutes(x, s[1..]);
      LessEqTotal(x, s[0]);
      forall j | 0 <= j < |t| ensures LessEq(s[0], t[j]) {
        assert t[j] in multiset(t);
        if t[j] != x {
          assert t[j] in multiset(s[1..]);
          var k :| 0 <= k < |s[1..]| && s[1..][k] == t[j];
          assert s[k + 1] == t[j];
        }
      }
    }
  }

  /** `sort.Strings`. */
  function SortStrings(s: seq<string>): seq<string>
    decreases |s|
  {
    if s == [] then [] else Insert(s[|s| - 1], SortStrings(s[..|s| - 1]))
  }

  /** The sorted list is sorted and has the elements of the input, each as
      often. */
  lemma {:induction false} SortStringsSortsAndPermutes(s: seq<string>)
    ensures Sorted(SortStrings(s)) && multiset(SortStrings(s)) == multiset(s)
    decreases |s|
  {
    if s != [] {
      SortStringsSortsAndPermutes(s[..|s| - 1]);
      InsertSorted(s[|s| - 1], SortStrings(s[..|s| - 1]));
      InsertPermutes(s[|s| - 1], SortStrings(s[..|s| - 1]));
      assert s == s[..|s| - 1] + [s[|s| - 1]];
    }
  }

  lemma SortedTail(a: seq<string>)
    requires Sorted(a) && a != []
    ensures Sorted(a[1..])
  {
    forall i, j | 0 <= i < j < |a[1..]| ensures LessEq(a[1..][i], a[1..][j]) {
      assert a[1..][i] == a[i + 1] && a[1..][j] == a[j + 1];
    }
  }

  /** The first element of a sorted list sorts before all of its elements. */
  lemma HeadIsLeast(a: seq<string>, x: string)
    requires Sorted(a) && x in multiset(a)
    ensures LessEq(a[0], x)
  {
    var i :| 0 <= i < |a| && a[i] == x;
    if i == 0 {
      LessEqReflexive(x);
    } else {
      assert LessEq(a[0], a[i]);
    }
  }

  /** Two sorted lists with the same elements start with the same one. */
  lemma SameHead(a: seq<string>, b: seq<string>)
    requires Sorted(a) && Sorted(b) && multiset(a) == multiset(b) && a != []
    ensures b != [] && a[0] == b[0]
  {
    assert a[0] in multiset(b);
    HeadIsLeast(b, a[0]);
    assert b[0] in multiset(a);
    HeadIsLeast(a, b[0]);
    LessEqAntisymmetric(a[0], b[0]);
  }

  /** Removing the same first element leaves the same elements. */
  lemma SameTail(a: seq<string>, b: seq<string>)
    requires multiset(a) == multiset(b) && a != [] && b != [] && a[0] == b[0]
    ensures multiset(a[1..]) == multiset(b[1..])
  {
    assert a == [a[0]] + a[1..] && b == [b[0]] + b[1..];
    assert multiset(a[1..]) == multiset(a) - multiset{a[0]};
    assert multiset(b[1..]) == multiset(b) - multiset{b[0]};
  }

  /** Strings have one sorted order: two sorted lists with the same elements
      are the same list. */
  lemma {:induction false} SortedPermutationUnique(a: seq<string>, b: seq<string>)
    requires Sorted(a) && Sorted(b) && multiset(a) == multiset(b)
    ensures a == b
    decreases |a|
  {
    if a == [] {
      assert |multiset(b)| == 0;
    } else {
      SameHead(a, b);
      SameTail(a, b);
      SortedTail(a);
      SortedTail(b);
      SortedPermutationUnique(a[1..], b[1..]);
      assert a == [a[0]] + a[1..] && b == [b[0]] + b[1..];
    }
  }

  /** The loop of `prepareFlags` over the names of one flag: the dashed
      names after `opener`, the separator only between two of them. */
  method AppendNames(opener: string, names: seq<string>, sep: string) returns (modifiedArg: string)
    ensures modifiedArg == opener + JoinWith(DashedNames(names), sep)
  {
    modifiedArg := opener;
    for j := 0 to |names|
      invariant modifiedArg == opener + JoinWith(DashedNames(names[..j]), sep)
      invariant j == 0 <==> |modifiedArg| == |opener|
    {
      var dashed := DashedName(names[j]);
      AppendNamesStep(opener, names, j, sep);
      if |modifiedArg| > |opener| {
        modifiedArg := modifiedArg + sep;
      }
      modifiedArg := modifiedArg + dashed;
    }
    assert names[..|names|] == names;
  }

  /** One turn of the loop of `AppendNames`. */
  lemma AppendNamesStep(opener: string, names: seq<string>, j: nat, sep: string)
    requires j < |names|
    ensures var joined := JoinWith(DashedNames(names[..j]), sep);
      opener + JoinWith(DashedNames(names[..j + 1]), sep)
        == if j == 0 then opener + DashedName(names[j]) else opener + joined + sep + DashedName(names[j])
  {
    assert names[..j + 1][..j] == names[..j];
    JoinWithSnoc(DashedNames(names[..j]), DashedName(names[j]), sep);
  }

  /** `prepareFlags`: the lines of the flags that document themselves,
      sorted. */
  method PrepareFlags(flags: seq<Flag>, sep: string, opener: string, closer: string, value: string,
                      addDetails: bool) returns (args: seq<string>)
    ensures args == SortStrings(FlagLines(flags, sep, opener, closer, value, addDetails))
    ensures Sorted(args) && multiset(args) == multiset(FlagLines(flags, sep, opener, closer, value, addDetails))
  {
    args := [];
    for i := 0 to |flags|
      invariant args == FlagLines(flags[..i], sep, opener, closer, value, addDetails)
    {
      assert flags[..i + 1][..i] == flags[..i];
      var flag := flags[i];
      assert FlagLines(flags[..i + 1], sep, opener, closer, value, addDetails)
        == FlagLines(flags[..i], sep, opener, closer, value, addDetails)
           + (if flag.docGeneration then [FlagLine(flag, sep, opener, closer, value, addDetails)] else []);
      if !flag.docGeneration {
        continue;
      }
      var modifiedArg := AppendNames(opener, flag.names, sep);
      modifiedArg := modifiedArg + closer;
      if flag.takesValue {
        modifiedArg := modifiedArg + "=" + value;
      }
      if addDetails {
        modifiedArg := modifiedArg + FlagDetails(flag);
      }
      assert modifiedArg + "\n" == FlagLine(flag, sep, opener, closer, value, addDetails);
      args := args + [modifiedArg + "\n"];
    }
    assert flags[..|flags|] == flags;
    args := SortStrings(args);
    SortStringsSortsAndPermutes(FlagLines(flags, sep, opener, closer, value, addDetails));
  }

  /** The separator, the brackets and the value placeholder of the flag
      lines of the reference. */
  const ArgSeparator := ", "
  const ArgOpener := "**"
  const ArgCloser := "**"
  const ArgValue := "\"\""

  /** What `prepareArgsWithValues` returns. */
  function ArgsWithValues(flags: seq<Flag>): seq<string> {
    SortStrings(FlagLines(flags, ArgSeparator, ArgOpener, ArgCloser, ArgValue, true))
  }

  /** `prepareArgsWithValues`: the flag lines with bold names, an empty
      quoted value and the details. */
  method PrepareArgsWithValues(flags: seq<Flag>) returns (args: seq<string>)
    ensures args == ArgsWithValues(flags)
    ensures Sorted(args) && multiset(args) == multiset(FlagLines(flags, ArgSeparator, ArgOpener, ArgCloser, ArgValue, true))
  {
    args := PrepareFlags(flags, ArgSeparator, ArgOpener, ArgCloser, ArgValue, true);
  }

  /** A line is made for exactly the flags that document themselves. */
  lemma {:induction false} FlagLinesCount(flags: seq<Flag>, sep: string, opener: string, closer: string,
                                          value: string, addDetails: bool)
    ensures |FlagLines(flags, sep, opener, closer, value, addDetails)| == DocFlagCount(flags)
    ensures |SortStrings(FlagLines(flags, sep, opener, closer, value, addDetails))| == DocFlagCount(flags)
    decreases |flags|
  {
    if flags != [] {
      FlagLinesCount(flags[..|flags| - 1], sep, opener, closer, value, addDetails);
    }
    SortStringsSortsAndPermutes(FlagLines(flags, sep, opener, closer, value, addDetails));
    assert |multiset(SortStrings(FlagLines(flags, sep, opener, closer, value, addDetails)))|
      == |multiset(FlagLines(flags, sep, opener, closer, value, addDetails))|;
  }

  /** Every line comes from a flag that documents itself, and every such
      flag has its line. */
  lemma {:induction false} FlagLinesMembership(flags: seq<Flag>, sep: string, opener: string, closer: string,
                                               value: string, addDetails: bool, line: string)
    ensures line in FlagLines(flags, sep, opener, closer, value, addDetails) <==>
      exists i :: 0 <= i < |flags| && flags[i].docGeneration && line == FlagLine(flags[i], sep, opener, closer, value, addDetails)
    decreases |flags|
  {
    if flags != [] {
      var init := flags[..|flags| - 1];
      FlagLinesMembership(init, sep, opener, closer, value, addDetails, line);
      if line in FlagLines(flags, sep, opener, closer, value, addDetails) {
        if line in FlagLines(init, sep, opener, closer, value, addDetails) {
          var i :| 0 <= i < |init| && init[i].docGeneration && line == FlagLine(init[i], sep, opener, closer, value, addDetails);
          assert flags[i] == init[i];
        }
      } else {
        forall i | 0 <= i < |flags| && flags[i].docGeneration
          ensures line != FlagLine(flags[i], sep, opener, closer, value, addDetails)
        {
          if i < |init| { assert flags[i] == init[i]; }
        }
      }
    }
  }

  /** The names in a flag's line are its dashed names with the separator
      between them: the line without the opener, the closer and what follows
      holds exactly the names, and a one-character separator splits them
      apart again. */
  lemma FlagNamesSplit(f: Flag, sep: char)
    requires f.names != []
    requires forall i :: 0 <= i < |f.names| ==> sep !in DashedName(f.names[i])
    ensures Split(JoinWith(DashedNames(f.names), [sep]), sep) == DashedNames(f.names)
  {
    DashedNamesAt(f.names);
    SplitJoin(DashedNames(f.names), sep);
  }

  /** A trimmed name of more than one character, or of one character beyond
      ASCII (more than one byte), gets two dashes; an empty name or a single
      ASCII character gets one. */
  lemma DashedNameShape(name: string)
    ensures var t := TrimSpace(name);
      ((|t| > 1 || (|t| == 1 && t[0] as int >= 0x80)) ==> DashedName(name) == "--" + t)
      && ((t == [] || (|t| == 1 && t[0] as int < 0x80)) ==> DashedName(name) == "-" + t && |DashedName(name)| <= 2)
  {
    Utf8LengthAboveOne(TrimSpace(name));
  }

  /** `len` counts bytes, so a one-letter name beyond ASCII is written with
      two dashes. */
  lemma NonAsciiLetterGetsTwoDashes()
    ensures DashedName("\U{E9}") == "--\U{E9}" && DashedName("v") == "-v"
  {
    DashedNameShape("\U{E9}");
    DashedNameShape("v");
  }

  /** `=value` follows the closer exactly when the flag takes a value. */
  lemma FlagLineValue(f: Flag, sep: string, opener: string, closer: string, value: string)
    ensures var head := opener + JoinWith(DashedNames(f.names), sep) + closer;
      var line := FlagLine(f, sep, opener, closer, value, false);
      HasPrefix(line, head)
      && (f.takesValue <==> line == head + "=" + value + "\n")
      && (!f.takesValue ==> line == head + "\n")
  {
    var head := opener + JoinWith(DashedNames(f.names), sep) + closer;
    var line := FlagLine(f, sep, opener, closer, value, false);
    if !f.takesValue {
      assert line == head + "\n";
      assert |line| < |head + "=" + value + "\n"|;
    }
  }

  // ---------------------------------------------------------------------------
  // Usage

  /** The lines of a multi-line usage text, each after a newline and a
      prompt. */
  function PromptedLines(lines: seq<string>): string
    decreases |lines|
  {
    if lines == [] then "" else PromptedLines(lines[..|lines| - 1]) + "\n$ " + lines[|lines| - 1]
  }

  /** What `prepareUsageText` returns. */
  function UsageText(c: Command): string {
    if c.usageText == "" then
      if TrimSpace(c.argsUsage) != "" then "**Arguments:** `" + c.argsUsage + "`\n" else ""
    else
      var prepared := TrimChar(c.usageText, '\n');
      if '\n' in prepared then "```sh" + PromptedLines(Split(prepared, '\n')) + "```"
      else "```sh\n$ " + prepared + "\n```\n"
  }

  /** `prepareUsageText`. */
  method PrepareUsageText(command: Command) returns (usageText: string)
    ensures usageText == UsageText(command)
  {
    if command.usageText == "" {
      if TrimSpace(command.argsUsage) != "" {
        return "**Arguments:** `" + command.argsUsage + "`\n";
      }
      return "";
    }
    var preparedUsageText := TrimChar(command.usageText, '\n');
    usageText := "";
    if '\n' in preparedUsageText {
      usageText := usageText + "```sh";
      var lines := Split(preparedUsageText, '\n');
      for k := 0 to |lines|
        invariant usageText == "```sh" + PromptedLines(lines[..k])
      {
        assert lines[..k + 1][..k] == lines[..k];
        usageText := usageText + "\n$ " + lines[k];
      }
      assert lines[..|lines|] == lines;
      usageText := usageText + "```";
    } else {
      usageText := "```sh\n$ " + preparedUsageText + "\n```\n";
    }
  }

  /** Without a usage text, the arguments are shown exactly when they are
      not blank. */
  lemma UsageTextArguments(c: Command)
    requires c.usageText == ""
    ensures UsageText(c) == "" <==> TrimSpace(c.argsUsage) == ""
    ensures UsageText(c) != "" ==> UsageText(c) == "**Arguments:** `" + c.argsUsage + "`\n"
  {
  }

  /** Split at its newlines, the prompted form of the lines is an empty
      first piece and then each line after `$ `. */
  lemma {:induction false} PromptedLinesSplit(lines: seq<string>)
    requires forall i :: 0 <= i < |lines| ==> '\n' !in lines[i]
    ensures Split(PromptedLines(lines), '\n') == [""] + seq(|lines|, i requires 0 <= i < |lines| => "$ " + lines[i])
    decreases |lines|
  {
    if lines != [] {
      var init := lines[..|lines| - 1];
      var last := lines[|lines| - 1];
      PromptedLinesSplit(init);
      assert PromptedLines(lines) == PromptedLines(init) + ['\n'] + ("$ " + last);
      SplitConcat(PromptedLines(init), "$ " + last, '\n');
      assert '\n' !in "$ " + last;
      SplitWithoutSeparator("$ " + last, '\n');
    }
  }

  /** A one-line usage text is a fenced `sh` block holding one prompted
      line; the text is shown without its surrounding newlines. */
  lemma UsageTextSingleLine(c: Command)
    requires c.usageText != "" && '\n' !in TrimChar(c.usageText, '\n')
    ensures Split(UsageText(c), '\n') == ["```sh", "$ " + TrimChar(c.usageText, '\n'), "```", ""]
  {
    var p := TrimChar(c.usageText, '\n');
    assert UsageText(c) == "```sh\n$ " + p + "\n```\n";
    FencedLineSplit(p);
  }

  /** The pieces of one fenced prompted line. */
  lemma FencedLineSplit(p: string)
    requires '\n' !in p
    ensures Split("```sh\n$ " + p + "\n```\n", '\n') == ["```sh", "$ " + p, "```", ""]
  {
    var line := "$ " + p;
    assert '\n' !in line;
    assert "```sh\n$ " + p + "\n```\n" == "```sh" + ['\n'] + (line + ['\n'] + ("```" + ['\n'] + ""));
    ThreeLinesSplit("```sh", line, "```");
  }

  /** Three lines, each ended by a newline, split into those lines and an
      empty last piece. */
  lemma ThreeLinesSplit(x: string, y: string, z: string)
    requires '\n' !in x && '\n' !in y && '\n' !in z
    ensures Split(x + ['\n'] + (y + ['\n'] + (z + ['\n'] + "")), '\n') == [x, y, z, ""]
  {
    SplitConcat(x, y + ['\n'] + (z + ['\n'] + ""), '\n');
    SplitConcat(y, z + ['\n'] + "", '\n');
    SplitConcat(z, "", '\n');
    SplitWithoutSeparator(x, '\n');
    SplitWithoutSeparator(y, '\n');
    SplitWithoutSeparator(z, '\n');
  }

  /** A usage text of several lines is the opening fence, then each of its
      lines after a newline and `$ `; the closing fence follows the last
      line directly, on the same line. */
  lemma UsageTextMultiLine(c: Command)
    requires c.usageText != "" && '\n' in TrimChar(c.usageText, '\n')
    ensures var lines := Split(TrimChar(c.usageText, '\n'), '\n');
      UsageText(c) == "```sh" + PromptedLines(lines) + "```"
      && Split(PromptedLines(lines), '\n') == [""] + seq(|lines|, i requires 0 <= i < |lines| => "$ " + lines[i])
  {
    PromptedLinesSplit(Split(TrimChar(c.usageText, '\n'), '\n'));
  }

  /** `prepareUsage`: the usage with a full stop and a newline, one more
      newline when a usage text follows; nothing without a usage. */
  function PrepareUsage(c: Command, usageText: string): (r: string)
    ensures c.usage == "" <==> r == ""
    ensures c.usage != "" ==> HasPrefix(r, c.usage + ".\n")
    ensures c.usage != "" ==> (usageText != "" <==> r == c.usage + ".\n\n")
    ensures c.usage != "" ==> (usageText == "" <==> r == c.usage + ".\n")
  {
    if c.usage == "" then ""
    else
      var usage := c.usage + ".\n";
      if usageText != "" then usage + "\n" else usage
  }

  // ---------------------------------------------------------------------------
  // Commands

  /** The heading of a command's section: `level + 2` hashes, then the
      command's full name. */
  function Heading(lineage: string, c: Command, level: nat): string {
    Repeat('#', level + 2) + " " + lineage + " " + c.name + "\n\n"
  }

  /** A section from its parts: the heading, the usage and usage text, the
      flag lines after a blank line, and the description after another. */
  function Assemble(heading: string, usage: string, usageText: string, flags: seq<string>,
                    description: string): string {
    heading + usage + usageText
    + (if |flags| > 0 then "\n" + JoinWith(flags, "\n") else "")
    + (if |description| > 0 then "\n" + description else "")
  }

  /** The section `prepareCommands` makes of one visible command. */
  function Prepared(lineage: string, c: Command, level: nat): string {
    var usageText := UsageText(c);
    Assemble(Heading(lineage, c, level), PrepareUsage(c, usageText), usageText, ArgsWithValues(c.flags), c.description)
  }

  /** `Prepared` as a value, for the definitions below. */
  function Preparer(): (string, Command, nat) -> string {
    (lineage: string, c: Command, level: nat) => Prepared(lineage, c, level)
  }

  /** The sections of the visible commands of `commands`, each followed by
      the sections of its subcommands; `prepare` makes the section of one
      command, so that the structure below is proved whatever a section
      holds. */
  function Sections(prepare: (string, Command, nat) -> string, lineage: string, commands: seq<Command>,
                    level: nat): seq<string>
    decreases commands
  {
    if commands == [] then []
    else Sections(prepare, lineage, commands[..|commands| - 1], level) + Section(prepare, lineage, commands[|commands| - 1], level)
  }

  /** The sections of one command: none when it is hidden. */
  function Section(prepare: (string, Command, nat) -> string, lineage: string, c: Command, level: nat): seq<string>
    decreases c
  {
    if c.hidden then []
    else [prepare(lineage, c, level)] + Sections(prepare, lineage + " " + c.name, c.subcommands, level + 1)
  }

  /** The body of the loop of `prepareCommands` for a visible command: its
      heading, usage, usage text, flags and description. */
  method PrepareSection(lineage: string, command: Command, level: nat) returns (prepared: string)
    ensures prepared == Preparer()(lineage, command, level)
  {
    var usageText := PrepareUsageText(command);
    var flags := PrepareArgsWithValues(command.flags);
    prepared := Assemble(Heading(lineage, command, level), PrepareUsage(command, usageText), usageText,
                         flags, command.description);
  }

  /** `prepareCommands`. */
  method PrepareCommands(lineage: string, commands: seq<Command>, level: nat) returns (coms: seq<string>)
    ensures coms == Sections(Preparer(), lineage, commands, level)
    decreases commands
  {
    coms := [];
    for i := 0 to |commands|
      invariant coms == Sections(Preparer(), lineage, commands[..i], level)
    {
      assert commands[..i + 1][..i] == commands[..i];
      var command := commands[i];

      if command.hidden {
        continue;
      }
      var prepared := PrepareSection(lineage, command, level);
      coms := coms + [prepared];
      var sub := [];
      if |command.subcommands| > 0 {
        sub := PrepareCommands(lineage + " " + command.name, command.subcommands, level + 1);
        coms := coms + sub;
      }
      assert sub == Sections(Preparer(), lineage + " " + command.name, command.subcommands, level + 1);
    }
    assert commands[..|commands|] == commands;
  }

  /** The sections of two lists of commands are those of the first, then
      those of the second. */
  lemma {:induction false} SectionsAppend(prepare: (string, Command, nat) -> string, lineage: string,
                                          a: seq<Command>, b: seq<Command>, level: nat)
    ensures Sections(prepare, lineage, a + b, level) == Sections(prepare, lineage, a, level) + Sections(prepare, lineage, b, level)
    decreases |b|
  {
    if b == [] {
      assert a + b == a;
    } else {
      assert (a + b)[..|a + b| - 1] == a + b[..|b| - 1];
      SectionsAppend(prepare, lineage, a, b[..|b| - 1], level);
    }
  }

  /** A hidden command contributes nothing, and leaves its subcommands out
      too; a visible one contributes its section first, then those of its
      subcommands under the extended lineage one level deeper. */
  lemma SectionOrder(p: (string, Command, nat) -> string, lineage: string, before: seq<Command>, c: Command,
                     after: seq<Command>, level: nat)
    ensures c.hidden ==>
      (Sections(p, lineage, before + [c] + after, level) == Sections(p, lineage, before, level) + Sections(p, lineage, after, level))
    ensures !c.hidden ==>
      (Sections(p, lineage, before + [c] + after, level)
         == Sections(p, lineage, before, level) + [p(lineage, c, level)]
            + Sections(p, lineage + " " + c.name, c.subcommands, level + 1) + Sections(p, lineage, after, level))
  {
    SectionsAppend(p, lineage, before + [c], after, level);
    assert (before + [c])[..|before + [c]| - 1] == before;
  }

  /** Every one of `sections` starts with `n` hashes. */
  predicate HeadedAtLeast(sections: seq<string>, n: nat) {
    forall k :: 0 <= k < |sections| ==> HasPrefix(sections[k], Repeat('#', n))
  }

  /** `prepare` starts the section of a command at `level` with `level + 2`
      hashes. */
  ghost predicate HeadsSections(prepare: (string, Command, nat) -> string) {
    forall lineage: string, c: Command, level: nat :: HasPrefix(prepare(lineage, c, level), Repeat('#', level + 2))
  }

  /** Every section of commands at `level` starts with at least `level + 2`
      hashes: their own heading has `level + 2`, those of subcommands
      more. */
  lemma {:induction false} SectionsHeadingDepth(prepare: (string, Command, nat) -> string, lineage: string,
                                                commands: seq<Command>, level: nat)
    requires HeadsSections(prepare)
    ensures HeadedAtLeast(Sections(prepare, lineage, commands, level), level + 2)
    decreases commands
  {
    if commands != [] {
      SectionsHeadingDepth(prepare, lineage, commands[..|commands| - 1], level);
      SectionHeadingDepth(prepare, lineage, commands[|commands| - 1], level);
    }
  }

  lemma {:induction false} SectionHeadingDepth(prepare: (string, Command, nat) -> string, lineage: string,
                                               c: Command, level: nat)
    requires HeadsSections(prepare)
    ensures HeadedAtLeast(Section(prepare, lineage, c, level), level + 2)
    decreases c
  {
    if !c.hidden {
      var subs := Sections(prepare, lineage + " " + c.name, c.subcommands, level + 1);
      SectionsHeadingDepth(prepare, lineage + " " + c.name, c.subcommands, level + 1);
      RepeatPrefix('#', level + 2, level + 3);
      forall k | 0 <= k < |subs| ensures HasPrefix(subs[k], Repeat('#', level + 2)) {
        assert HasPrefix(subs[k], Repeat('#', level + 3));
      }
    }
  }

  lemma RepeatPrefix(c: char, m: nat, n: nat)
    requires m <= n
    ensures Repeat(c, m) <= Repeat(c, n)
  {
  }

  /** The section of a visible command starts with its heading: `level + 2`
      hashes, a space, the lineage and the command's name. */
  lemma PreparedHeading(lineage: string, c: Command, level: nat)
    ensures HasPrefix(Prepared(lineage, c, level), Heading(lineage, c, level))
    ensures var h := Heading(lineage, c, level);
      |h| >= level + 3 && (forall i :: 0 <= i < level + 2 ==> h[i] == '#') && h[level + 2] == ' '
  {
  }

  /** The sections `prepareCommands` makes all start with enough hashes. */
  lemma PrepareCommandsHeadingDepth(lineage: string, commands: seq<Command>, level: nat)
    ensures HeadedAtLeast(Sections(Preparer(), lineage, commands, level), level + 2)
  {
    forall l: string, c: Command, lv: nat ensures HasPrefix(Preparer()(l, c, lv), Repeat('#', lv + 2)) {
      PreparedHeading(l, c, lv);
    }
    SectionsHeadingDepth(Preparer(), lineage, commands, level);
  }

  /** The number of visible commands, counting the subcommands of visible
      commands only. */
  function VisibleCount(commands: seq<Command>): nat
    decreases commands
  {
    if commands == [] then 0
    else
      var c := commands[|commands| - 1];
      VisibleCount(commands[..|commands| - 1]) + (if c.hidden then 0 else 1 + VisibleCount(c.subcommands))
  }

  /** One section per visible command. */
  lemma {:induction false} SectionsCount(prepare: (string, Command, nat) -> string, lineage: string,
                                         commands: seq<Command>, level: nat)
    ensures |Sections(prepare, lineage, commands, level)| == VisibleCount(commands)
    decreases commands
  {
    if commands != [] {
      var c := commands[|commands| - 1];
      SectionsCount(prepare, lineage, commands[..|commands| - 1], level);
      if !c.hidden {
        SectionsCount(prepare, lineage + " " + c.name, c.subcommands, level + 1);
      }
    }
  }
}
