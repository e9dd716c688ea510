/**
 * Shell completion scripts generated from a command tree
 * (src/generators.rs): fish `complete` lines for every option name of every
 * command, reached in pre-order; a zsh `_arguments` script for the root's
 * options; and a bash `compgen` word list of the root's option names.
 * Names that are a lone `-` or `--` are never emitted.
 */
module Generators {
  import opened Wrappers
  import opened Strings
  import opened Types
  import Seqs

  // ------------------------------------------------------------ shared helpers

  /** `should_skip_option` (and the same test inlined in the zsh and bash generators). */
  predicate ShouldSkip(name: OptName) {
    name.optType == SingleDashAlone || name.optType == DoubleDashAlone
  }

  /** A name the generators emit. */
  predicate IsKept(name: OptName) {
    !ShouldSkip(name)
  }

  /** Of the spellings `from_text` accepts, exactly the lone `-` and `--` are skipped. */
  lemma SkippedAreDashAlone(s: string)
    requires FromText(s).Some?
    ensures ShouldSkip(FromText(s).value) <==> s == "-" || s == "--"
  {
  }

  /**
   * `truncate_after_period`: the text before the first `.`, or the whole
   * text when it has none (`split('.').next()`).
   */
  function TruncateAfterPeriod(line: string): (r: string)
    ensures |r| <= |line| && r == line[..|r|] && '.' !in r
    ensures |r| < |line| ==> line[|r|] == '.'
  {
    match IndexOf(line, '.')
    case None => line
    case Some(k) => line[..k]
  }

  /** The truncation stops exactly at the first period. */
  lemma TruncateAtFirstPeriod(a: string, b: string)
    requires '.' !in a
    ensures TruncateAfterPeriod(a + "." + b) == a
  {
    var line := a + "." + b;
    assert line[|a|] == '.';
    assert line[..|a|] == a;
  }

  /** The source's test of `truncate_after_period`. */
  lemma ExampleTruncate(a: string, b: string)
    requires a == "This is a description" && b == " With more text."
    ensures TruncateAfterPeriod(a + "." + b) == "This is a description"
  {
    assert '.' !in a by {
      assert forall i :: 0 <= i < |a| ==> a[i] != '.';
    }
    TruncateAtFirstPeriod(a, b);
  }


  /**
   * The lines of the names of one option that are not skipped, in name order:
   * the name loops of the generators. `lineOf` renders one name of an option.
   */
  function Rendered(opt: Opt, names: seq<OptName>, lineOf: (Opt, OptName) -> string): seq<string> {
    if names == [] then []
    else
      var last := names[|names| - 1];
      Rendered(opt, names[..|names| - 1], lineOf) + (if IsKept(last) then [lineOf(opt, last)] else [])
  }

  /** Exactly one line per emitted name, in the order of the names. */
  lemma {:induction false} RenderedKeptNames(opt: Opt, names: seq<OptName>, lineOf: (Opt, OptName) -> string)
    ensures Rendered(opt, names, lineOf) == Seqs.Map(Seqs.Filter(names, IsKept), name => lineOf(opt, name))
  {
    if names != [] {
      var init := names[..|names| - 1];
      var last := names[|names| - 1];
      RenderedKeptNames(opt, init, lineOf);
      if IsKept(last) {
        Seqs.MapSnoc(Seqs.Filter(init, IsKept), last, name => lineOf(opt, name));
      }
    }
  }

  /** Some emitted name among `names` renders to `l`. */
  ghost predicate RendersTo(opt: Opt, names: seq<OptName>, lineOf: (Opt, OptName) -> string, l: string) {
    exists j :: 0 <= j < |names| && IsKept(names[j]) && l == lineOf(opt, names[j])
  }

  /** A line is present exactly when some emitted name renders to it. */
  lemma {:induction false} RenderedMembers(opt: Opt, names: seq<OptName>, lineOf: (Opt, OptName) -> string, l: string)
    ensures l in Rendered(opt, names, lineOf) <==> RendersTo(opt, names, lineOf, l)
  {
    if names != [] {
      var init := names[..|names| - 1];
      RenderedMembers(opt, init, lineOf, l);
      if RendersTo(opt, names, lineOf, l) {
        var j :| 0 <= j < |names| && IsKept(names[j]) && l == lineOf(opt, names[j]);
        if j < |init| {
          assert init[j] == names[j];
        }
      }
      if RendersTo(opt, init, lineOf, l) {
        var j :| 0 <= j < |init| && IsKept(init[j]) && l == lineOf(opt, init[j]);
        assert names[j] == init[j];
      }
    }
  }

  /** One more name of a name loop. */
  lemma RenderedStep(opt: Opt, names: seq<OptName>, j: nat, lineOf: (Opt, OptName) -> string)
    requires j < |names|
    ensures Rendered(opt, names[..j + 1], lineOf) ==
              Rendered(opt, names[..j], lineOf) + (if IsKept(names[j]) then [lineOf(opt, names[j])] else [])
  {
    assert names[..j + 1][..j] == names[..j];
  }

  /** The lines of all options, in option order and then name order: the option loops of the generators. */
  function OptionLines(options: seq<Opt>, lineOf: (Opt, OptName) -> string): seq<string> {
    if options == [] then []
    else
      var last := options[|options| - 1];
      OptionLines(options[..|options| - 1], lineOf) + Rendered(last, last.names, lineOf)
  }

  /** One more option of an option loop. */
  lemma OptionLinesStep(options: seq<Opt>, i: nat, lineOf: (Opt, OptName) -> string)
    requires i < |options|
    ensures OptionLines(options[..i + 1], lineOf) ==
              OptionLines(options[..i], lineOf) + Rendered(options[i], options[i].names, lineOf)
  {
    assert options[..i + 1][..i] == options[..i];
  }

  /** Some option has an emitted name that renders to `l`. */
  ghost predicate Emits(options: seq<Opt>, lineOf: (Opt, OptName) -> string, l: string) {
    exists i :: 0 <= i < |options| && RendersTo(options[i], options[i].names, lineOf, l)
  }

  /** A line is present exactly when some emitted name of some option renders to it. */
  lemma {:induction false} OptionLinesMembers(options: seq<Opt>, lineOf: (Opt, OptName) -> string, l: string)
    ensures l in OptionLines(options, lineOf) <==> Emits(options, lineOf, l)
  {
    if options != [] {
      var init := options[..|options| - 1];
      var last := options[|options| - 1];
      OptionLinesMembers(init, lineOf, l);
      RenderedMembers(last, last.names, lineOf, l);
      if Emits(options, lineOf, l) {
        var i :| 0 <= i < |options| && RendersTo(options[i], options[i].names, lineOf, l);
        if i < |init| {
          assert init[i] == options[i];
        }
      }
      if Emits(init, lineOf, l) {
        var i :| 0 <= i < |init| && RendersTo(init[i], init[i].names, lineOf, l);
        assert options[i] == init[i];
      }
    }
  }

  // ------------------------------------------------------------ fish

  /** `opt_type_to_flag`. */
  function TypeFlag(t: OptNameType): (r: string)
    ensures r == [] <==> t == SingleDashAlone || t == DoubleDashAlone
  {
    match t
    case LongType => "-l"
    case ShortType => "-s"
    case OldType => "-o"
    case _ => ""
  }

  /** The three emitted kinds get three different flags. */
  lemma TypeFlagsDistinct(t: OptNameType, u: OptNameType)
    requires TypeFlag(t) != [] && TypeFlag(u) != []
    ensures TypeFlag(t) == TypeFlag(u) <==> t == u
  {
  }

  /** The words whose presence asks fish to complete file names. */
  predicate MentionsPath(opt: Opt) {
    var arg := ToLower(opt.argument);
    var desc := ToLower(opt.description);
    Contains(arg, "file") || Contains(arg, "dir") || Contains(arg, "path") || Contains(arg, "archive")
    || Contains(desc, "file") || Contains(desc, "dir") || Contains(desc, "path")
  }

  /**
   * `opt_arg_to_flag`: nothing for an option without argument, `-r` (files)
   * when the argument or the description speaks of files, `-x` otherwise.
   */
  function ArgFlag(opt: Opt): (r: string)
    ensures r == [] <==> opt.argument == []
    ensures r == "-r" <==> opt.argument != [] && MentionsPath(opt)
    ensures r == "-x" <==> opt.argument != [] && !MentionsPath(opt)
  {
    if opt.argument == [] then ""
    else if MentionsPath(opt) then "-r"
    else "-x"
  }

  /** A `FILE` placeholder asks for file completion, whatever the description says. */
  lemma ExampleFileArgument(opt: Opt)
    requires opt.argument == "FILE"
    ensures ArgFlag(opt) == "-r"
  {
    var arg := ToLower(opt.argument);
    assert arg == "file" by {
      assert forall i :: 0 <= i < 4 ==> arg[i] == LowerChar(opt.argument[i]);
    }
    assert StartsWith(arg, "file");
  }

  /** `str::replace('\'', "\\'")`: every quote of the description gets a backslash. */
  function EscapeQuotes(s: string): string {
    ReplaceChar(s, '\'', "\\'")
  }

  /** After escaping, every quote is preceded by a backslash, and text without quotes is unchanged. */
  lemma {:induction false} QuotesEscaped(s: string)
    ensures forall i :: 0 <= i < |EscapeQuotes(s)| && EscapeQuotes(s)[i] == '\'' ==>
              i > 0 && EscapeQuotes(s)[i - 1] == '\\'
    ensures '\'' !in s ==> EscapeQuotes(s) == s
  {
    if s != [] {
      QuotesEscaped(s[1..]);
      var head: string := if s[0] == '\'' then "\\'" else [s[0]];
      var rest := EscapeQuotes(s[1..]);
      assert EscapeQuotes(s) == head + rest;
      forall i | 0 <= i < |head + rest| && (head + rest)[i] == '\''
        ensures i > 0 && (head + rest)[i - 1] == '\\'
      {
        if i >= |head| {
          assert rest[i - |head|] == '\'';
          if i - |head| == 0 {
            assert false;
          }
        }
      }
    }
  }

  /** The part of every fish line that names the command path. */
  function FishPrefix(path: seq<string>): string {
    "complete -c " + Join(path, "_") + " "
  }

  /**
   * `make_option_line`: the command path joined by `_`, the kind flag, the
   * name without its leading dashes in quotes, the argument flag and the
   * description up to its first period with its quotes escaped.
   */
  function OptionLine(path: seq<string>, name: OptName, opt: Opt): (r: string)
    ensures StartsWith(r, FishPrefix(path))
  {
    var rest := TypeFlag(name.optType) + " '" + TrimStartMatches(name.raw, '-') + "' " + ArgFlag(opt)
                + " -d '" + EscapeQuotes(TruncateAfterPeriod(opt.description)) + "'";
    assert (FishPrefix(path) + rest)[..|FishPrefix(path)|] == FishPrefix(path);
    FishPrefix(path) + rest
  }


  /** The fish line of one name of one option under a path. */
  function FishLineOf(path: seq<string>): (Opt, OptName) -> string {
    (opt, name) => OptionLine(path, name, opt)
  }

  /** What `generate_rec` appends for a command: its own lines, then each subtree in order. */
  function FishLines(path: seq<string>, cmd: Command): seq<string>
    decreases cmd, 1
  {
    var current := path + [cmd.name];
    OptionLines(cmd.options, FishLineOf(current)) + Seqs.Flatten(ChildLines(current, cmd))
  }

  /** The lines of each subcommand's subtree. */
  function ChildLines(current: seq<string>, cmd: Command): (r: seq<seq<string>>)
    ensures |r| == |cmd.subcommands|
    ensures forall k :: 0 <= k < |r| ==> r[k] == FishLines(current, cmd.subcommands[k])
    decreases cmd, 0
  {
    seq(|cmd.subcommands|, k requires 0 <= k < |cmd.subcommands| => FishLines(current, cmd.subcommands[k]))
  }

  /** The name loop of `generate_rec`, for one option. */
  method AppendNameLines(lines: seq<string>, path: seq<string>, opt: Opt) returns (out: seq<string>)
    ensures out == lines + Rendered(opt, opt.names, FishLineOf(path))
  {
    out := lines;
    for j := 0 to |opt.names|
      invariant out == lines + Rendered(opt, opt.names[..j], FishLineOf(path))
    {
      var name := opt.names[j];
      RenderedStep(opt, opt.names, j, FishLineOf(path));
      if !ShouldSkip(name) {
        var line := OptionLine(path, name, opt);
        assert FishLineOf(path)(opt, name) == line;
        Seqs.AppendAssoc(lines, Rendered(opt, opt.names[..j], FishLineOf(path)), [line]);
        out := out + [line];
      }
    }
    assert opt.names[..|opt.names|] == opt.names;
  }

  /** The option loop of `generate_rec`. */
  method AppendOptionLines(lines: seq<string>, path: seq<string>, options: seq<Opt>) returns (out: seq<string>)
    ensures out == lines + OptionLines(options, FishLineOf(path))
  {
    out := lines;
    for i := 0 to |options|
      invariant out == lines + OptionLines(options[..i], FishLineOf(path))
    {
      OptionLinesStep(options, i, FishLineOf(path));
      out := AppendNameLines(out, path, options[i]);
      Seqs.AppendAssoc(lines, OptionLines(options[..i], FishLineOf(path)),
                       Rendered(options[i], options[i].names, FishLineOf(path)));
    }
    assert options[..|options|] == options;
  }

  /** `FishGenerator::generate_rec`: appends this command's lines, then recurses into each subcommand. */
  method GenerateRec(lines: seq<string>, path: seq<string>, cmd: Command) returns (out: seq<string>)
    ensures out == lines + FishLines(path, cmd)
    decreases cmd
  {
    var currentPath := path + [cmd.name];
    out := AppendOptionLines(lines, currentPath, cmd.options);
    ghost var own := OptionLines(cmd.options, FishLineOf(currentPath));
    ghost var children := ChildLines(currentPath, cmd);
    for k := 0 to |cmd.subcommands|
      invariant out == lines + own + Seqs.Flatten(children[..k])
    {
      out := GenerateRec(out, currentPath, cmd.subcommands[k]);
      assert children[..k + 1] == children[..k] + [children[k]];
      Seqs.FlattenSnoc(children[..k], children[k]);
      Seqs.AppendAssoc(lines + own, Seqs.Flatten(children[..k]), children[k]);
    }
    assert children[..|children|] == children;
    Seqs.AppendAssoc(lines, own, Seqs.Flatten(children));
  }

  /** `FishGenerator::generate`: every line of the tree, joined by newlines. */
  method FishGenerate(cmd: Command) returns (script: string)
    ensures script == Join(FishLines([], cmd), "\n")
  {
    var lines := GenerateRec([], [], cmd);
    assert [] + FishLines([], cmd) == FishLines([], cmd);
    script := Join(lines, "\n");
  }

  /** Every emitted name of the command's own options has its line, under the command's path. */
  lemma FishCoversNames(path: seq<string>, cmd: Command, i: nat, j: nat)
    requires i < |cmd.options| && j < |cmd.options[i].names| && IsKept(cmd.options[i].names[j])
    ensures OptionLine(path + [cmd.name], cmd.options[i].names[j], cmd.options[i]) in FishLines(path, cmd)
  {
    var current := path + [cmd.name];
    var opt := cmd.options[i];
    var l := OptionLine(current, opt.names[j], opt);
    assert Emits(cmd.options, FishLineOf(current), l) by {
      assert FishLineOf(current)(opt, opt.names[j]) == l;
      assert RendersTo(opt, opt.names, FishLineOf(current), l);
    }
    OptionLinesMembers(cmd.options, FishLineOf(current), l);
  }

  /** Every line of a command's own options starts with the command's path. */
  lemma OwnLinesPrefix(path: seq<string>, options: seq<Opt>, l: string)
    requires l in OptionLines(options, FishLineOf(path))
    ensures StartsWith(l, FishPrefix(path))
  {
    OptionLinesMembers(options, FishLineOf(path), l);
    var i :| 0 <= i < |options| && RendersTo(options[i], options[i].names, FishLineOf(path), l);
    var j :| 0 <= j < |options[i].names| && IsKept(options[i].names[j]) &&
      l == FishLineOf(path)(options[i], options[i].names[j]);
    assert l == OptionLine(path, options[i].names[j], options[i]);
  }

  /** Every line of a subtree is also a line of the tree (pre-order walk). */
  lemma SubtreeLinesIncluded(path: seq<string>, cmd: Command, k: nat, l: string)
    requires k < |cmd.subcommands| && l in FishLines(path + [cmd.name], cmd.subcommands[k])
    ensures l in FishLines(path, cmd)
  {
    var children := ChildLines(path + [cmd.name], cmd);
    Seqs.FlattenMembers(children, l);
    assert l in children[k];
  }

  /** The line names a command path that extends `p`. */
  ghost predicate UnderPath(l: string, p: seq<string>) {
    exists ext :: StartsWith(l, FishPrefix(p + ext))
  }

  /** A line under a longer path is under each of its prefixes. */
  lemma UnderPrefix(l: string, p: seq<string>, q: seq<string>)
    requires UnderPath(l, p + q)
    ensures UnderPath(l, p)
  {
    var ext :| StartsWith(l, FishPrefix(p + q + ext));
    assert p + q + ext == p + (q + ext);
  }

  /**
   * Every line of a tree's script names a path that starts with the path to
   * the tree's root and its own name: the path grows by one name per level.
   */
  lemma {:induction false} FishLinesPaths(path: seq<string>, cmd: Command, l: string)
    requires l in FishLines(path, cmd)
    ensures UnderPath(l, path + [cmd.name])
    decreases cmd
  {
    var current := path + [cmd.name];
    var children := ChildLines(current, cmd);
    if l in OptionLines(cmd.options, FishLineOf(current)) {
      OwnLinesPrefix(current, cmd.options, l);
      assert current + [] == current;
      assert StartsWith(l, FishPrefix(current + []));
    } else {
      assert l in Seqs.Flatten(children);
      Seqs.FlattenMembers(children, l);
      var k :| 0 <= k < |children| && l in children[k];
      var child := cmd.subcommands[k];
      FishLinesPaths(current, child, l);
      UnderPrefix(l, current, [child.name]);
    }
  }

  // ------------------------------------------------------------ zsh

  /** The `_arguments` spec of one name: `'name[desc]'`, or `'name[arg desc]'` with an argument. */
  function ZshSpec(name: OptName, opt: Opt): string {
    var desc := TruncateAfterPeriod(opt.description);
    if opt.argument == [] then "'" + name.raw + "[" + desc + "]'"
    else "'" + name.raw + "[" + opt.argument + " " + desc + "]'"
  }

  /** The `options+=` line of one name. */
  function ZshLine(opt: Opt, name: OptName): string {
    "  options+=(" + ZshSpec(name, opt) + ")"
  }

  /** What `ZshGenerator::generate_opt` returns. */
  function ZshOptLines(opt: Opt): seq<string> {
    Rendered(opt, opt.names, ZshLine)
  }

  /** `ZshGenerator::generate_opt`: a name loop that skips dash-alone names with `continue`. */
  method GenerateOpt(opt: Opt) returns (lines: seq<string>)
    ensures lines == ZshOptLines(opt)
  {
    lines := [];
    var desc := TruncateAfterPeriod(opt.description);
    for j := 0 to |opt.names|
      invariant lines == Rendered(opt, opt.names[..j], ZshLine)
    {
      var name := opt.names[j];
      RenderedStep(opt, opt.names, j, ZshLine);
      if name.optType == SingleDashAlone || name.optType == DoubleDashAlone {
        continue;
      }
      var spec;
      if opt.argument == [] {
        spec := "'" + name.raw + "[" + desc + "]'";
      } else {
        spec := "'" + name.raw + "[" + opt.argument + " " + desc + "]'";
      }
      lines := lines + ["  options+=(" + spec + ")"];
    }
    assert opt.names[..|opt.names|] == opt.names;
  }

  /** The five lines before the options. */
  function ZshHeader(): seq<string> {
    ["#compdef _hcl hcl", "", "_hcl() {", "  local -a options", ""]
  }

  /** The four lines after the options. */
  function ZshFooter(): seq<string> {
    ["  _arguments -s -S $options", "}", "", "_hcl \"$@\""]
  }

  /** The lines of the zsh script: only the root's options are visited. */
  function ZshLines(cmd: Command): seq<string> {
    ZshHeader() + OptionLines(cmd.options, ZshLine) + ZshFooter()
  }

  /** `ZshGenerator::generate`: header lines, the lines of every option, footer lines. */
  method ZshGenerate(cmd: Command) returns (script: string)
    ensures script == Join(ZshLines(cmd), "\n")
  {
    var lines := ZshHeader();
    for i := 0 to |cmd.options|
      invariant lines == ZshHeader() + OptionLines(cmd.options[..i], ZshLine)
    {
      var optLines := GenerateOpt(cmd.options[i]);
      OptionLinesStep(cmd.options, i, ZshLine);
      Seqs.AppendAssoc(ZshHeader(), OptionLines(cmd.options[..i], ZshLine), optLines);
      lines := lines + optLines;
    }
    assert cmd.options[..|cmd.options|] == cmd.options;
    lines := lines + ["  _arguments -s -S $options"];
    lines := lines + ["}"];
    lines := lines + [""];
    lines := lines + ["_hcl \"$@\""];
    assert lines == ZshLines(cmd);
    script := Join(lines, "\n");
  }

  /**
   * The zsh script is five header lines, the option lines of the root in
   * order, and four footer lines.
   */
  lemma ZshShape(cmd: Command)
    ensures |ZshLines(cmd)| == 9 + |OptionLines(cmd.options, ZshLine)|
    ensures ZshLines(cmd)[..5] == ZshHeader()
    ensures ZshLines(cmd)[|ZshLines(cmd)| - 4..] == ZshFooter()
    ensures ZshLines(cmd)[5..|ZshLines(cmd)| - 4] == OptionLines(cmd.options, ZshLine)
  {
    var middle := OptionLines(cmd.options, ZshLine);
    assert ZshLines(cmd) == ZshHeader() + middle + ZshFooter();
  }

  /** Each option contributes one zsh line per emitted name. */
  lemma ZshOptLinesCount(opt: Opt)
    ensures |ZshOptLines(opt)| == |Seqs.Filter(opt.names, IsKept)|
  {
    RenderedKeptNames(opt, opt.names, ZshLine);
  }

  /** A zsh option line is present exactly when some emitted name of some root option renders to it. */
  lemma ZshLinesMembers(cmd: Command, l: string)
    ensures l in OptionLines(cmd.options, ZshLine) <==> Emits(cmd.options, ZshLine, l)
  {
    OptionLinesMembers(cmd.options, ZshLine, l);
  }

  /** The zsh script does not depend on the subcommands. */
  lemma ZshIgnoresSubcommands(cmd: Command, subcommands: seq<Command>)
    ensures ZshLines(cmd.(subcommands := subcommands)) == ZshLines(cmd)
  {
  }

  // ------------------------------------------------------------ bash

  /** The raw spelling of a name: what the bash option loop collects. */
  function RawLine(opt: Opt, name: OptName): string {
    name.raw
  }

  /** The word list of the bash script: the emitted raw names as a `BTreeSet`. */
  function BashOpts(options: seq<Opt>): seq<string> {
    Seqs.SortedSet(OptionLines(options, RawLine), StringLess)
  }

  /** The word list is strictly increasing: sorted and without duplicates. */
  lemma BashOptsSorted(options: seq<Opt>)
    ensures Seqs.StrictlySorted(BashOpts(options), StringLess)
  {
    StringOrderIsTotal();
    Seqs.SortedSetProperties(OptionLines(options, RawLine), StringLess);
  }

  /** A word is in the list exactly when some emitted name of some root option is spelled so. */
  lemma BashOptsMembers(options: seq<Opt>, s: string)
    ensures s in BashOpts(options) <==>
              exists i, j :: 0 <= i < |options| && 0 <= j < |options[i].names| &&
                IsKept(options[i].names[j]) && options[i].names[j].raw == s
  {
    StringOrderIsTotal();
    Seqs.SortedSetProperties(OptionLines(options, RawLine), StringLess);
    OptionLinesMembers(options, RawLine, s);
    if Emits(options, RawLine, s) {
      var i :| 0 <= i < |options| && RendersTo(options[i], options[i].names, RawLine, s);
      var j :| 0 <= j < |options[i].names| && IsKept(options[i].names[j]) && s == RawLine(options[i], options[i].names[j]);
    }
    if exists i, j :: 0 <= i < |options| && 0 <= j < |options[i].names| &&
         IsKept(options[i].names[j]) && options[i].names[j].raw == s {
      var i, j :| 0 <= i < |options| && 0 <= j < |options[i].names| &&
        IsKept(options[i].names[j]) && options[i].names[j].raw == s;
      assert RendersTo(options[i], options[i].names, RawLine, s);
    }
  }

  /** The lines of the bash script. */
  function BashLines(cmd: Command): seq<string> {
    [ "_hcl_" + cmd.name + "()",
      "{",
      "  local cur prev opts",
      "  COMPREPLY=()",
      "  cur=\"${COMP_WORDS[COMP_CWORD]}\"",
      "  prev=\"${COMP_WORDS[COMP_CWORD-1]}\"",
      "",
      "  opts=\"" + Join(BashOpts(cmd.options), " ") + "\"",
      "",
      "  COMPREPLY=($(compgen -W \"${opts}\" -- ${cur}))",
      "}",
      "",
      "complete -o bashdefault -o default -o nospace -F _hcl_" + cmd.name + " " + cmd.name ]
  }

  /** `BashGenerator::generate`: the fixed lines around the word list. */
  method BashGenerate(cmd: Command) returns (script: string)
    ensures script == Join(BashLines(cmd), "\n")
  {
    var lines := [
      "_hcl_" + cmd.name + "()",
      "{",
      "  local cur prev opts",
      "  COMPREPLY=()",
      "  cur=\"${COMP_WORDS[COMP_CWORD]}\"",
      "  prev=\"${COMP_WORDS[COMP_CWORD-1]}\"",
      ""];
    var allOpts := BashOpts(cmd.options);
    lines := lines + ["  opts=\"" + Join(allOpts, " ") + "\""];
    lines := lines + [""];
    lines := lines + ["  COMPREPLY=($(compgen -W \"${opts}\" -- ${cur}))"];
    lines := lines + ["}"];
    lines := lines + [""];
    lines := lines + ["complete -o bashdefault -o default -o nospace -F _hcl_" + cmd.name + " " + cmd.name];
    assert lines == BashLines(cmd);
    script := Join(lines, "\n");
  }

  /** Thirteen lines; the function is named after the command and the word list sits on the eighth line. */
  lemma BashShape(cmd: Command)
    ensures |BashLines(cmd)| == 13
    ensures BashLines(cmd)[0] == "_hcl_" + cmd.name + "()"
    ensures BashLines(cmd)[7] == "  opts=\"" + Join(BashOpts(cmd.options), " ") + "\""
  {
  }
}
