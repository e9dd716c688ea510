/**
 * Option-line parsing (src/parser.rs): pairing option lines with their
 * descriptions, splitting the option text into flag spellings and an
 * argument placeholder, and collecting the options of a block without
 * repeats.
 */
module Parser {
  import opened Wrappers
  import opened Strings
  import opened Types
  import Seqs

  /** An option text and its description text. */
  type Pair = (string, string)

  // ---------------------------------------------------------------- preprocess

  /**
   * The description found for the dash line `lines[0]`: the fully trimmed next
   * line, provided there is one and it is not itself dash-led; empty otherwise.
   */
  function NextDescription(lines: seq<string>): string {
    if |lines| > 1 && !StartsWithChar(TrimStart(lines[1]), '-') then Trim(lines[1])
    else []
  }

  /**
   * The pairs `preprocess` produces from `lines`. A line that is not
   * dash-led after `trim_start` is skipped. A dash line yields its
   * left-trimmed text with the next line's description, consuming both lines
   * when that description is non-empty and only itself otherwise.
   */
  function Pairs(lines: seq<string>): seq<Pair>
  {
    if lines == [] then []
    else
      var t := TrimStart(lines[0]);
      if !StartsWithChar(t, '-') then Pairs(lines[1..])
      else
        var desc := NextDescription(lines);
        if desc != [] then [(t, desc)] + Pairs(lines[2..])
        else [(t, [])] + Pairs(lines[1..])
  }

  /** The rest of the lines after the pair that `lines[0]` starts. */
  function PairRest(lines: seq<string>): (r: seq<string>)
    requires lines != []
    ensures |r| < |lines| && r == lines[|lines| - |r|..]
  {
    if NextDescription(lines) != [] then lines[2..] else lines[1..]
  }

  /** One step of `Pairs` at a line that is not dash-led. */
  lemma PairsSkip(lines: seq<string>)
    requires lines != [] && !StartsWithChar(TrimStart(lines[0]), '-')
    ensures Pairs(lines) == Pairs(lines[1..])
  {
  }

  /** One step of `Pairs` at a dash line. */
  lemma PairsAtDash(lines: seq<string>)
    requires lines != [] && StartsWithChar(TrimStart(lines[0]), '-')
    ensures Pairs(lines) == [(TrimStart(lines[0]), NextDescription(lines))] + Pairs(PairRest(lines))
  {
  }

  /**
   * The token loop of `preprocess`, kept as written. Its `break` needs a token
   * that neither starts with `-` nor fails to start with `-`, so the loop
   * always runs to the end and `opt_end` is the number of tokens.
   */
  method OptionEnd(parts: seq<string>) returns (optEnd: nat)
    ensures optEnd == |parts|
  {
    optEnd := 0;
    for idx := 0 to |parts|
      invariant optEnd == idx
    {
      var part := parts[idx];
      if StartsWithChar(part, '-') || idx == 0 {
        optEnd := idx + 1;
      } else if '=' in part || !StartsWithChar(part, '-') {
        // what the source calls a possible argument marker
        optEnd := idx + 1;
      } else {
        assert false;
        break;
      }
    }
  }

  /** A dash-led text has at least one whitespace token. */
  lemma DashLineHasTokens(t: string)
    requires StartsWithChar(t, '-')
    ensures |SplitWhitespace(t)| > 0
  {
    SplitWhitespaceHead(t);
  }

  /**
   * `Parser::preprocess`. Because the token loop never stops early, the
   * "description on the same line" branch is dead: its `assert false` is
   * proved, and a dash line's option text is always the whole left-trimmed line.
   */
  method Preprocess(s: string) returns (result: seq<Pair>)
    ensures result == Pairs(Lines(s))
  {
    var lines := Lines(s);
    result := [];
    var i := 0;
    while i < |lines|
      invariant 0 <= i <= |lines|
      invariant result + Pairs(lines[i..]) == Pairs(lines)
      decreases |lines| - i
    {
      var line := lines[i];
      var trimmed := TrimStart(line);
      if !StartsWithChar(trimmed, '-') {
        PairsSkipAt(lines, i);
        i := i + 1;
        continue;
      }
      var parts := SplitWhitespace(trimmed);
      DashLineHasTokens(trimmed);
      var optEnd := OptionEnd(parts);
      if optEnd > 0 && optEnd < |parts| {
        // The same-line split into option and description words: unreachable.
        assert false;
      } else if optEnd > 0 {
        var optStr := trimmed;
        var descStr: string :=
          if i + 1 < |lines| && !StartsWithChar(TrimStart(lines[i + 1]), '-') then Trim(lines[i + 1])
          else [];
        PairsAtDashAt(lines, i);
        if descStr != [] {
          Seqs.AppendAssoc(result, [(optStr, descStr)], Pairs(lines[i + 2..]));
          result := result + [(optStr, descStr)];
          i := i + 2;
        } else {
          Seqs.AppendAssoc(result, [(optStr, [])], Pairs(lines[i + 1..]));
          result := result + [(optStr, [])];
          i := i + 1;
        }
      } else {
        // No tokens on a dash line: unreachable.
        assert false;
      }
    }
  }

  /** `Pairs` from line `i` on, at a line that is not dash-led. */
  lemma PairsSkipAt(lines: seq<string>, i: nat)
    requires i < |lines| && !StartsWithChar(TrimStart(lines[i]), '-')
    ensures Pairs(lines[i..]) == Pairs(lines[i + 1..])
  {
    assert lines[i..][0] == lines[i];
    assert lines[i..][1..] == lines[i + 1..];
    PairsSkip(lines[i..]);
  }

  /** `Pairs` from line `i` on, at a dash line: its pair, then the lines after it. */
  lemma PairsAtDashAt(lines: seq<string>, i: nat)
    requires i < |lines| && StartsWithChar(TrimStart(lines[i]), '-')
    ensures i + 1 < |lines| && !StartsWithChar(TrimStart(lines[i + 1]), '-') && Trim(lines[i + 1]) != [] ==>
              Pairs(lines[i..]) == [(TrimStart(lines[i]), Trim(lines[i + 1]))] + Pairs(lines[i + 2..])
    ensures !(i + 1 < |lines| && !StartsWithChar(TrimStart(lines[i + 1]), '-') && Trim(lines[i + 1]) != []) ==>
              Pairs(lines[i..]) == [(TrimStart(lines[i]), [])] + Pairs(lines[i + 1..])
  {
    var rest := lines[i..];
    assert rest[0] == lines[i];
    assert i + 1 < |lines| ==> rest[1] == lines[i + 1];
    assert rest[1..] == lines[i + 1..];
    assert i + 1 < |lines| ==> rest[2..] == lines[i + 2..];
    PairsAtDash(rest);
  }

  /** `o` is the left-trimmed text of one of the lines. */
  ghost predicate TrimmedLineOf(lines: seq<string>, o: string) {
    exists j :: 0 <= j < |lines| && o == TrimStart(lines[j])
  }

  /** A trimmed line of a suffix is a trimmed line of the whole. */
  lemma TrimmedLineOfSuffix(lines: seq<string>, m: nat, o: string)
    requires m <= |lines| && TrimmedLineOf(lines[m..], o)
    ensures TrimmedLineOf(lines, o)
  {
    var j :| 0 <= j < |lines[m..]| && o == TrimStart(lines[m..][j]);
    var line := lines[m + j];
    assert lines[m..][j] == line;
    assert 0 <= m + j < |lines| && o == TrimStart(line);
  }

  /** `o` is dash-led and the left-trimmed text of one of the lines. */
  ghost predicate DashLineText(lines: seq<string>, o: string) {
    StartsWithChar(o, '-') && TrimmedLineOf(lines, o)
  }

  /** Every option text of `ps` is dash-led and one of the left-trimmed lines. */
  ghost predicate FromDashLines(ps: seq<Pair>, lines: seq<string>) {
    forall k :: 0 <= k < |ps| ==> DashLineText(lines, ps[k].0)
  }

  /** Pairs taken from a suffix of the lines are taken from the lines. */
  lemma FromDashLinesSuffix(ps: seq<Pair>, lines: seq<string>, m: nat)
    requires m <= |lines| && FromDashLines(ps, lines[m..])
    ensures FromDashLines(ps, lines)
  {
    forall k | 0 <= k < |ps| ensures DashLineText(lines, ps[k].0) {
      TrimmedLineOfSuffix(lines, m, ps[k].0);
    }
  }

  /** The first line, left-trimmed, is a trimmed line. */
  lemma TrimmedFirstLine(lines: seq<string>)
    requires lines != []
    ensures TrimmedLineOf(lines, TrimStart(lines[0]))
  {
  }

  /** One more pair in front. */
  lemma FromDashLinesCons(p: Pair, ps: seq<Pair>, lines: seq<string>)
    requires DashLineText(lines, p.0) && FromDashLines(ps, lines)
    ensures FromDashLines([p] + ps, lines)
  {
    var all := [p] + ps;
    forall k | 0 <= k < |all| ensures DashLineText(lines, all[k].0) {
      if k > 0 {
        assert all[k] == ps[k - 1];
      }
    }
  }

  /**
   * Every pair comes from a dash line: its option text is one of the
   * left-trimmed lines, and it starts with `-`.
   */
  lemma {:induction false} PairsFromDashLines(lines: seq<string>)
    ensures FromDashLines(Pairs(lines), lines)
  {
    if lines != [] {
      if !StartsWithChar(TrimStart(lines[0]), '-') {
        PairsSkip(lines);
        PairsFromDashLines(lines[1..]);
        FromDashLinesSuffix(Pairs(lines[1..]), lines, 1);
      } else {
        PairsAtDash(lines);
        var rest := PairRest(lines);
        PairsFromDashLines(rest);
        FromDashLinesSuffix(Pairs(rest), lines, |lines| - |rest|);
        TrimmedFirstLine(lines);
        FromDashLinesCons((TrimStart(lines[0]), NextDescription(lines)), Pairs(rest), lines);
      }
    }
  }

  /** `i` grows by one or two per pair, so there are no more pairs than lines. */
  lemma {:induction false} PairsBound(lines: seq<string>)
    ensures |Pairs(lines)| <= |lines|
  {
    if lines != [] {
      var t := TrimStart(lines[0]);
      if !StartsWithChar(t, '-') || NextDescription(lines) == [] {
        PairsBound(lines[1..]);
      } else {
        PairsBound(lines[2..]);
      }
    }
  }

  /** The lines of the example in the source's tests. */
  lemma ExampleLines(s: string, l0: string, l1: string, l2: string)
    requires l0 == "  " + "-a, --all  show all" && l1 == "  " + "-b" && l2 == "    " + "show b"
    requires s == l0 + "\n" + (l1 + "\n" + l2)
    ensures Lines(s) == [l0, l1, l2]
  {
    PlainLine("  ", "-a, --all  show all");
    PlainLine("  ", "-b");
    PlainLine("    ", "show b");
    ThreeLines(l0, l1, l2);
  }

  /** An example line has no line break and no carriage return at its end. */
  lemma PlainLine(blanks: string, text: string)
    requires blanks == "  " || blanks == "    "
    requires text == "-a, --all  show all" || text == "-b" || text == "show b"
    ensures '\n' !in blanks + text && StripCr(blanks + text) == blanks + text
  {
    assert (blanks + text)[|blanks + text| - 1] == text[|text| - 1];
  }

  /** Three lines without line breaks, joined by `\n`, split back into those lines. */
  lemma ThreeLines(l0: string, l1: string, l2: string)
    requires '\n' !in l0 && '\n' !in l1 && '\n' !in l2 && l2 != []
    requires StripCr(l0) == l0 && StripCr(l1) == l1
    ensures Lines(l0 + "\n" + (l1 + "\n" + l2)) == [l0, l1, l2]
  {
    LinesCons(l0, l1 + "\n" + l2);
    LinesCons(l1, l2);
    LinesLast(l2);
  }

  /** How `trim_start` and `trim` treat the example's three lines. */
  lemma ExampleTrims(l0: string, l1: string, l2: string)
    requires l0 == "  " + "-a, --all  show all" && l1 == "  " + "-b" && l2 == "    " + "show b"
    ensures TrimStart(l0) == "-a, --all  show all" && TrimStart(l1) == "-b"
    ensures TrimStart(l2) == "show b" && Trim(l2) == "show b"
  {
    LeftTrimmed("  ", "-a, --all  show all");
    LeftTrimmed("  ", "-b");
    LeftTrimmed("    ", "show b");
    TrimEndKeeps("show b");
  }

  /** Leading blanks of an example line go, the text after them stays. */
  lemma LeftTrimmed(blanks: string, text: string)
    requires blanks == "  " || blanks == "    "
    requires text != [] && !IsWhitespace(text[0])
    ensures TrimStart(blanks + text) == text
  {
    TrimStartAppend(blanks, text);
  }

  /** A dash line directly followed by another dash line gets no description. */
  lemma DashBeforeDash(lines: seq<string>)
    requires |lines| >= 2
    requires StartsWithChar(TrimStart(lines[0]), '-') && StartsWithChar(TrimStart(lines[1]), '-')
    ensures Pairs(lines) == [(TrimStart(lines[0]), [])] + Pairs(lines[1..])
  {
  }

  /** A dash line followed by a last, plain, non-blank line takes it as description. */
  lemma DashThenText(lines: seq<string>)
    requires |lines| == 2
    requires StartsWithChar(TrimStart(lines[0]), '-') && !StartsWithChar(TrimStart(lines[1]), '-')
    requires Trim(lines[1]) != []
    ensures Pairs(lines) == [(TrimStart(lines[0]), Trim(lines[1]))]
  {
    assert lines[2..] == [];
  }

  /** The last two of three lines, a dash line and its description, make one pair. */
  lemma DashThenTextLast(lines: seq<string>)
    requires |lines| == 3
    requires StartsWithChar(TrimStart(lines[1]), '-') && !StartsWithChar(TrimStart(lines[2]), '-')
    requires Trim(lines[2]) != []
    ensures Pairs(lines[1..]) == [(TrimStart(lines[1]), Trim(lines[2]))]
  {
    var tail := lines[1..];
    assert tail[0] == lines[1] && tail[1] == lines[2];
    DashThenText(tail);
  }

  /** A pair followed by exactly one more pair. */
  lemma PairsOfTwo(lines: seq<string>, p: Pair, q: Pair)
    requires lines != []
    requires Pairs(lines) == [p] + Pairs(lines[1..]) && Pairs(lines[1..]) == [q]
    ensures Pairs(lines) == [p, q]
  {
  }

  /** Two dash lines and a plain line: only the second dash line gets a description. */
  lemma DashDashText(lines: seq<string>)
    requires |lines| == 3
    requires StartsWithChar(TrimStart(lines[0]), '-') && StartsWithChar(TrimStart(lines[1]), '-')
    requires !StartsWithChar(TrimStart(lines[2]), '-') && Trim(lines[2]) != []
    ensures Pairs(lines) == [(TrimStart(lines[0]), []), (TrimStart(lines[1]), Trim(lines[2]))]
  {
    DashThenTextLast(lines);
    DashBeforeDash(lines);
    PairsOfTwo(lines, (TrimStart(lines[0]), []), (TrimStart(lines[1]), Trim(lines[2])));
  }

  /** The pairs of the example's lines, from how they trim. */
  lemma ExamplePairs(l0: string, l1: string, l2: string, o0: string, o1: string, d1: string)
    requires TrimStart(l0) == o0 && TrimStart(l1) == o1 && TrimStart(l2) == d1 && Trim(l2) == d1
    requires StartsWithChar(o0, '-') && StartsWithChar(o1, '-')
    requires d1 != [] && !StartsWithChar(d1, '-')
    ensures Pairs([l0, l1, l2]) == [(o0, []), (o1, d1)]
  {
    DashDashText([l0, l1, l2]);
  }

  /** The pairs of the example's three lines. */
  lemma ExampleLinePairs(l0: string, l1: string, l2: string)
    requires l0 == "  " + "-a, --all  show all" && l1 == "  " + "-b" && l2 == "    " + "show b"
    ensures Pairs([l0, l1, l2]) == [("-a, --all  show all", ""), ("-b", "show b")]
  {
    ExampleTrims(l0, l1, l2);
    ExamplePairs(l0, l1, l2, "-a, --all  show all", "-b", "show b");
  }

  /**
   * The example from the source's tests: the first line stays whole because
   * the same-line split never happens; the second takes the next line as its
   * description.
   */
  lemma PreprocessKeepsWholeLine(s: string)
    requires s == ("  " + "-a, --all  show all") + "\n" + (("  " + "-b") + "\n" + ("    " + "show b"))
    ensures Pairs(Lines(s)) == [("-a, --all  show all", ""), ("-b", "show b")]
  {
    var l0, l1, l2 := "  " + "-a, --all  show all", "  " + "-b", "    " + "show b";
    ExampleLines(s, l0, l1, l2);
    ExampleLinePairs(l0, l1, l2);
  }
  // ------------------------------------------------------ flag spellings

  /** The characters `parse_opt_names` and `parse_opt_arg` split an option text on. */
  const OptSeparators: set<char> := {',', '/', '|'}

  /** The name a whitespace token contributes: one when it starts with `-`, none otherwise. */
  function WordName(w: string): (r: seq<OptName>)
    ensures r == [] <==> !StartsWithChar(w, '-')
  {
    if StartsWithChar(w, '-') then [FromText(w).value] else []
  }

  /** The names of one separator group: none when it trims to nothing. */
  function GroupNames(group: string): seq<OptName> {
    var t := Trim(group);
    if t == [] then [] else Seqs.FlatMap(SplitWhitespace(t), WordName)
  }

  /** What the loops of `parse_opt_names` push, before sorting. */
  function NameCandidates(s: string): seq<OptName> {
    Seqs.FlatMap(SplitOn(s, OptSeparators), GroupNames)
  }

  /** The result of `parse_opt_names`: the candidates sorted, with duplicates removed. */
  function OptNames(s: string): seq<OptName> {
    Seqs.SortedSet(NameCandidates(s), OptNameLess)
  }

  /** Some dash-led token of `words` is spelled as `n`. */
  ghost predicate NamedByToken(words: seq<string>, n: OptName) {
    exists j :: 0 <= j < |words| && StartsWithChar(words[j], '-') && n == FromText(words[j]).value
  }

  /** Some group of `groups` gives the name `n`. */
  ghost predicate NamedByGroup(groups: seq<string>, n: OptName) {
    exists g :: 0 <= g < |groups| && n in GroupNames(groups[g])
  }

  /** The names of a token list are those of its dash-led tokens. */
  lemma WordNamesMembers(words: seq<string>, n: OptName)
    ensures n in Seqs.FlatMap(words, WordName) <==> NamedByToken(words, n)
  {
    Seqs.FlatMapMembers(words, WordName, n);
  }

  /**
   * A group gives exactly the names of the dash-led tokens of its trimmed
   * text, each keeping the token as `raw`.
   */
  lemma GroupNamesMembers(group: string, n: OptName)
    ensures n in GroupNames(group) <==> NamedByToken(SplitWhitespace(Trim(group)), n)
  {
    var t := Trim(group);
    if t == [] {
      assert SplitWhitespace(t) == [];
    } else {
      assert GroupNames(group) == Seqs.FlatMap(SplitWhitespace(t), WordName);
      WordNamesMembers(SplitWhitespace(t), n);
    }
  }

  /** The candidates of a list of groups are those of its groups. */
  lemma GroupListNamesMembers(groups: seq<string>, n: OptName)
    ensures n in Seqs.FlatMap(groups, GroupNames) <==> NamedByGroup(groups, n)
  {
    Seqs.FlatMapMembers(groups, GroupNames, n);
  }

  /** `parse_opt_names` yields a strictly increasing list: sorted, with no repeats. */
  lemma OptNamesSorted(s: string)
    ensures Seqs.StrictlySorted(OptNames(s), OptNameLess)
  {
    SortedNamesSorted(NameCandidates(s));
  }

  /** The names `parse_opt_names` yields are exactly those its separator groups give. */
  lemma OptNamesCharacterized(s: string, n: OptName)
    ensures n in OptNames(s) <==> NamedByGroup(SplitOn(s, OptSeparators), n)
  {
    var groups := SplitOn(s, OptSeparators);
    SortedNamesMembers(NameCandidates(s), n);
    assert NameCandidates(s) == Seqs.FlatMap(groups, GroupNames);
    GroupListNamesMembers(groups, n);
  }

  /** Every name keeps a dash-led token as `raw` and carries its classification. */
  lemma OptNamesAreDashLed(s: string, n: OptName)
    requires n in OptNames(s)
    ensures StartsWithChar(n.raw, '-') && DetermineType(n.raw) == Some(n.optType)
  {
    OptNamesCharacterized(s, n);
    var groups := SplitOn(s, OptSeparators);
    var g :| 0 <= g < |groups| && n in GroupNames(groups[g]);
    GroupNamesMembers(groups[g], n);
  }

  /** The inner loop of `parse_opt_names`: the names of the dash-led tokens of one group. */
  method DashWordNames(words: seq<string>) returns (found: seq<OptName>)
    ensures found == Seqs.FlatMap(words, WordName)
  {
    found := [];
    for j := 0 to |words|
      invariant found == Seqs.FlatMap(words[..j], WordName)
    {
      Seqs.FlatMapPrefix(words, j, WordName);
      var word := words[j];
      if StartsWithChar(word, '-') {
        match FromText(word)
        case Some(name) =>
          found := found + [name];
        case None =>
      }
    }
    assert words[..|words|] == words;
  }

  /**
   * `Parser::parse_opt_names`: the loop over separator groups, skipping those
   * that trim to nothing, then the sort and the removal of duplicates.
   */
  method ParseOptNames(s: string) returns (names: seq<OptName>)
    ensures names == OptNames(s)
  {
    var groups := SplitOn(s, OptSeparators);
    var collected: seq<OptName> := [];
    for g := 0 to |groups|
      invariant collected == Seqs.FlatMap(groups[..g], GroupNames)
    {
      Seqs.FlatMapPrefix(groups, g, GroupNames);
      var trimmed := Trim(groups[g]);
      if trimmed == [] {
        continue;
      }
      var found := DashWordNames(SplitWhitespace(trimmed));
      collected := collected + found;
    }
    assert groups[..|groups|] == groups;
    // `sort` followed by `dedup`: the strictly increasing list of the collected names
    names := Seqs.SortedSet(collected, OptNameLess);
  }

  // ---------------------------------------------------- argument placeholder

  /**
   * `Parser::extract_arg_from_part`: the tokens after the first, joined by
   * single spaces, unless there are fewer than two tokens or that tail is `.`.
   * The tail is never empty, so the source's emptiness test cannot fire.
   */
  function ExtractArg(s: string): (r: Option<string>)
    ensures var words := SplitWhitespace(s);
            r.None? <==> |words| < 2 || Join(words[1..], " ") == "."
    ensures var words := SplitWhitespace(s);
            r.Some? ==> r.value == Join(words[1..], " ") && r.value != []
  {
    var words := SplitWhitespace(s);
    if |words| < 2 then None
    else
      var argPart := Join(words[1..], " ");
      assert argPart != [] by {
        SplitWhitespaceTokens(s, 1);
        JoinNonEmpty(words[1..], " ");
      }
      if argPart == [] || argPart == "." then None else Some(argPart)
  }

  /**
   * The argument one separator group contributes to `parse_opt_arg`: the one
   * `extract_arg_from_part` finds in the trimmed group, or empty.
   */
  function GroupArg(group: string): (r: string)
    ensures r == [] <==> ExtractArg(Trim(group)).None?
    ensures r != [] ==> ExtractArg(Trim(group)) == Some(r)
  {
    match ExtractArg(Trim(group))
    case Some(arg) => if arg != [] then arg else []
    case None => []
  }

  /** What `parse_opt_arg` returns for an option text: the first group argument. */
  function OptArg(s: string): string {
    Seqs.FirstNonEmpty(SplitOn(s, OptSeparators), GroupArg)
  }

  /** No group has an argument. */
  ghost predicate NoGroupArg(groups: seq<string>) {
    forall g :: 0 <= g < |groups| ==> ExtractArg(Trim(groups[g])).None?
  }

  /** Group `g` is the first with an argument, and its argument is `a`. */
  ghost predicate FirstArgGroup(groups: seq<string>, g: int, a: string) {
    0 <= g < |groups| && ExtractArg(Trim(groups[g])) == Some(a) &&
    forall h :: 0 <= h < g ==> ExtractArg(Trim(groups[h])).None?
  }

  /** The first group argument, characterized over any sequence of groups. */
  lemma FirstGroupArg(groups: seq<string>)
    ensures Seqs.FirstNonEmpty(groups, GroupArg) == [] <==> NoGroupArg(groups)
    ensures Seqs.FirstNonEmpty(groups, GroupArg) != [] ==>
              exists g :: FirstArgGroup(groups, g, Seqs.FirstNonEmpty(groups, GroupArg))
  {
    Seqs.FirstNonEmptyCharacterized(groups, GroupArg);
    if Seqs.FirstNonEmpty(groups, GroupArg) != [] {
      var g :| 0 <= g < |groups| && GroupArg(groups[g]) == Seqs.FirstNonEmpty(groups, GroupArg) &&
        forall h :: 0 <= h < g ==> GroupArg(groups[h]) == [];
      assert FirstArgGroup(groups, g, Seqs.FirstNonEmpty(groups, GroupArg));
    }
  }

  /**
   * The argument is empty exactly when no separator group has one; otherwise
   * it is the argument of a group that has one, and no earlier group has one.
   */
  lemma OptArgCharacterized(s: string)
    ensures OptArg(s) == [] <==> NoGroupArg(SplitOn(s, OptSeparators))
    ensures OptArg(s) != [] ==> exists g :: FirstArgGroup(SplitOn(s, OptSeparators), g, OptArg(s))
  {
    FirstGroupArg(SplitOn(s, OptSeparators));
  }

  /** `Parser::parse_opt_arg`: the loop over separator groups with its early return. */
  method ParseOptArg(s: string) returns (arg: string)
    ensures arg == OptArg(s)
  {
    var groups := SplitOn(s, OptSeparators);
    for g := 0 to |groups|
      invariant Seqs.FirstNonEmpty(groups[g..], GroupArg) == OptArg(s)
    {
      Seqs.FirstNonEmptyStep(groups, g, GroupArg);
      var trimmed := Trim(groups[g]);
      match ExtractArg(trimmed)
      case Some(a) =>
        if a != [] {
          return a;
        }
      case None =>
    }
    assert groups[|groups|..] == [];
    arg := [];
  }

  // ------------------------------------------------------------- options

  /**
   * `Parser::parse_with_opt_part`: no option when the text has no flag
   * spelling, otherwise exactly one, carrying the description unchanged.
   */
  function ParseWithOptPart(optStr: string, descStr: string): (r: seq<Opt>)
    ensures r == [] <==> OptNames(optStr) == []
    ensures r != [] ==> |r| == 1 && r[0].names == OptNames(optStr) &&
                        r[0].argument == OptArg(optStr) && r[0].description == descStr
  {
    var names := OptNames(optStr);
    var arg := OptArg(optStr);
    if names == [] then [] else [Opt(names, arg, descStr)]
  }

  /** The options of one pair. */
  function PairOpts(p: Pair): seq<Opt> {
    ParseWithOptPart(p.0, p.1)
  }

  /** The options of all pairs of a text, in pair order, repeats included. */
  function AllPairOpts(s: string): seq<Opt> {
    Seqs.FlatMap(Pairs(Lines(s)), PairOpts)
  }

  /** Options are compared whole in the `seen` set. */
  function OptIdentity(o: Opt): Opt {
    o
  }

  /** What `parse_line` returns: the options of all pairs, each at its first occurrence. */
  function LineOpts(s: string): seq<Opt> {
    Seqs.DedupBy(AllPairOpts(s), OptIdentity)
  }

  /**
   * The inner loop of `parse_line`: every option not yet in `seen` is added
   * to it and kept; `before` is what the earlier iterations have looked at.
   */
  method KeepUnseen(ghost before: seq<Opt>, opts: seq<Opt>, seen: set<Opt>, parsed: seq<Opt>)
    returns (kept: seq<Opt>, seenAfter: set<Opt>)
    requires opts == Seqs.DedupBy(before, OptIdentity)
    requires seen == Seqs.KeySet(before, OptIdentity)
    ensures kept == Seqs.DedupBy(before + parsed, OptIdentity)
    ensures seenAfter == Seqs.KeySet(before + parsed, OptIdentity)
  {
    kept, seenAfter := opts, seen;
    assert before + parsed[..0] == before;
    for j := 0 to |parsed|
      invariant kept == Seqs.DedupBy(before + parsed[..j], OptIdentity)
      invariant seenAfter == Seqs.KeySet(before + parsed[..j], OptIdentity)
    {
      var opt := parsed[j];
      KeepStep(before, parsed, j);
      if opt !in seenAfter {
        seenAfter := seenAfter + {opt};
        kept := kept + [opt];
      }
    }
    assert parsed[..|parsed|] == parsed;
  }

  /** One step of `KeepUnseen`: `parsed[j]` is kept exactly when it was not seen. */
  lemma KeepStep(before: seq<Opt>, parsed: seq<Opt>, j: nat)
    requires j < |parsed|
    ensures Seqs.DedupBy(before + parsed[..j + 1], OptIdentity) ==
            if parsed[j] in Seqs.KeySet(before + parsed[..j], OptIdentity)
            then Seqs.DedupBy(before + parsed[..j], OptIdentity)
            else Seqs.DedupBy(before + parsed[..j], OptIdentity) + [parsed[j]]
    ensures Seqs.KeySet(before + parsed[..j + 1], OptIdentity) ==
            Seqs.KeySet(before + parsed[..j], OptIdentity) + {parsed[j]}
  {
    var xs := before + parsed[..j];
    assert xs + [parsed[j]] == before + parsed[..j + 1];
    Seqs.DedupByKeepsFirst(xs, parsed[j], OptIdentity);
    Seqs.KeySetSnoc(xs, parsed[j], OptIdentity);
  }

  /**
   * `Parser::parse_line`: the options of all pairs of the text, each kept
   * only at its first occurrence.
   */
  method ParseLine(s: string) returns (opts: seq<Opt>)
    ensures opts == LineOpts(s)
    ensures forall i, j :: 0 <= i < j < |opts| ==> opts[i] != opts[j]
    ensures forall o :: o in opts <==> o in AllPairOpts(s)
    ensures Seqs.IsSubsequence(opts, AllPairOpts(s))
  {
    var pairs := Preprocess(s);
    opts := [];
    var seen: set<Opt> := {};
    for k := 0 to |pairs|
      invariant opts == Seqs.DedupBy(Seqs.FlatMap(pairs[..k], PairOpts), OptIdentity)
      invariant seen == Seqs.KeySet(Seqs.FlatMap(pairs[..k], PairOpts), OptIdentity)
    {
      var (optStr, descStr) := pairs[k];
      var parsed := ParseWithOptPart(optStr, descStr);
      Seqs.FlatMapPrefix(pairs, k, PairOpts);
      opts, seen := KeepUnseen(Seqs.FlatMap(pairs[..k], PairOpts), opts, seen, parsed);
    }
    assert pairs[..|pairs|] == pairs;
    DedupedOpts(AllPairOpts(s), opts);
  }

  /** What keeping first occurrences does to a sequence of options. */
  lemma DedupedOpts(all: seq<Opt>, opts: seq<Opt>)
    requires opts == Seqs.DedupBy(all, OptIdentity)
    ensures forall i, j :: 0 <= i < j < |opts| ==> opts[i] != opts[j]
    ensures forall o :: o in opts <==> o in all
    ensures Seqs.IsSubsequence(opts, all)
  {
    Seqs.DedupByProperties(all, OptIdentity);
    forall o ensures o in opts <==> o in all {
      assert o in opts <==> OptIdentity(o) in Seqs.KeySet(opts, OptIdentity) by {
        if o in opts {
          var i :| 0 <= i < |opts| && opts[i] == o;
        }
      }
      assert o in all <==> OptIdentity(o) in Seqs.KeySet(all, OptIdentity) by {
        if o in all {
          var i :| 0 <= i < |all| && all[i] == o;
        }
      }
    }
  }

  // ------------------------------------------------------------ usage header

  /** The part of the pattern after the keyword: `\s*:?\s*$`. */
  predicate HeaderTail(r: string) {
    AllWhitespace(r) ||
    exists k :: 0 <= k < |r| && AllWhitespace(r[..k]) && r[k] == ':' && AllWhitespace(r[k + 1..])
  }

  /**
   * The pattern `^\s*keyword\s*:?\s*$` with the keyword taken literally:
   * some whitespace, the keyword, some whitespace, at most one colon, some
   * whitespace, and nothing else.
   */
  predicate HeaderMatches(line: string, kw: string) {
    exists i :: 0 <= i && i + |kw| <= |line| && AllWhitespace(line[..i]) &&
      line[i..i + |kw|] == kw && HeaderTail(line[i + |kw|..])
  }

  /** The lowercased first line of a block. */
  function HeaderLine(block: string): string
    requires block != []
  {
    ToLower(Lines(block)[0])
  }

  /**
   * `Parser::parse_usage_header`: the lowercased first line, when the block
   * is not empty and that line matches the pattern of some keyword; none
   * otherwise, and none for an empty keyword list.
   */
  method ParseUsageHeader(keywords: seq<string>, block: string) returns (r: Option<string>)
    ensures r.Some? <==> block != [] && exists k :: 0 <= k < |keywords| && HeaderMatches(HeaderLine(block), keywords[k])
    ensures r.Some? ==> r.value == HeaderLine(block)
  {
    if keywords == [] || block == [] {
      return None;
    }
    var headerLine := ToLower(Lines(block)[0]);
    for k := 0 to |keywords|
      invariant forall h :: 0 <= h < k ==> !HeaderMatches(headerLine, keywords[h])
    {
      if HeaderMatches(headerLine, keywords[k]) {
        return Some(headerLine);
      }
    }
    return None;
  }

  /**
   * For a keyword that starts with a non-whitespace character, the pattern
   * is: the line without its leading whitespace starts with the keyword, and
   * what follows is whitespace with at most one colon in it.
   */
  lemma HeaderMatchesTrimmed(line: string, kw: string)
    requires kw != [] && !IsWhitespace(kw[0])
    ensures HeaderMatches(line, kw) <==>
              StartsWith(TrimStart(line), kw) && HeaderTail(TrimStart(line)[|kw|..])
  {
    if HeaderMatches(line, kw) {
      HeaderMatchesAtTrim(line, kw);
    }
    if StartsWith(TrimStart(line), kw) && HeaderTail(TrimStart(line)[|kw|..]) {
      HeaderMatchesFromTrim(line, kw);
    }
  }

  /** A match starts where `trim_start` stops. */
  lemma HeaderMatchesAtTrim(line: string, kw: string)
    requires kw != [] && !IsWhitespace(kw[0]) && HeaderMatches(line, kw)
    ensures StartsWith(TrimStart(line), kw) && HeaderTail(TrimStart(line)[|kw|..])
  {
    var i :| 0 <= i && i + |kw| <= |line| && AllWhitespace(line[..i]) &&
      line[i..i + |kw|] == kw && HeaderTail(line[i + |kw|..]);
    MatchAt(line, kw, i);
  }

  /** A match at `i` is a match at the left-trimmed text. */
  lemma MatchAt(line: string, kw: string, i: nat)
    requires kw != [] && !IsWhitespace(kw[0])
    requires i + |kw| <= |line| && AllWhitespace(line[..i])
    requires line[i..i + |kw|] == kw && HeaderTail(line[i + |kw|..])
    ensures StartsWith(TrimStart(line), kw) && HeaderTail(TrimStart(line)[|kw|..])
  {
    assert line[i..i + |kw|][0] == line[i];
    LeadingOffset(line, i);
    SuffixSlices(line, i, |kw|);
  }

  /** The keyword right after the leading whitespace is a match. */
  lemma HeaderMatchesFromTrim(line: string, kw: string)
    requires StartsWith(TrimStart(line), kw) && HeaderTail(TrimStart(line)[|kw|..])
    ensures HeaderMatches(line, kw)
  {
    var off := |line| - |TrimStart(line)|;
    SuffixSlices(line, off, |kw|);
    assert AllWhitespace(line[..off]);
  }

  /** The first non-whitespace character after a whitespace prefix is where `trim_start` stops. */
  lemma LeadingOffset(line: string, i: nat)
    requires i < |line| && AllWhitespace(line[..i]) && !IsWhitespace(line[i])
    ensures TrimStart(line) == line[i..]
  {
    TrimStartAppend(line[..i], line[i..]);
    assert line[..i] + line[i..] == line;
  }

  /** Slicing a suffix of a line. */
  lemma SuffixSlices(line: string, off: nat, n: nat)
    requires off + n <= |line|
    ensures line[off..][..n] == line[off..off + n] && line[off..][n..] == line[off + n..]
  {
  }

  /** The first line of a block is the text before its first newline. */
  lemma FirstLineOf(first: string, rest: string)
    requires '\n' !in first && (first == [] || first[|first| - 1] != '\r')
    ensures HeaderLine(first + "\n" + rest) == ToLower(first)
  {
    LinesCons(first, rest);
  }

  /** `Usage:` lowercased. */
  lemma LowerUsage(first: string)
    requires first == "Usage:"
    ensures ToLower(first) == "usage:"
  {
    var low := ToLower(first);
    assert forall i :: 0 <= i < 6 ==> low[i] == LowerChar(first[i]);
  }

  /** The first line of the source's test block, lowercased. */
  lemma ExampleHeaderLine(first: string, rest: string)
    requires first == "Usage:"
    ensures HeaderLine(first + "\n" + rest) == "usage:"
  {
    assert '\n' !in first && first[|first| - 1] != '\r' by {
      assert forall i :: 0 <= i < 6 ==> first[i] != '\n';
    }
    FirstLineOf(first, rest);
    LowerUsage(first);
  }

  /** The source's test: a block headed `Usage:` yields the header `usage:` for the keyword `usage`. */
  lemma ExampleUsageHeader(first: string, rest: string)
    requires first == "Usage:"
    ensures HeaderLine(first + "\n" + rest) == "usage:"
    ensures HeaderMatches(HeaderLine(first + "\n" + rest), "usage")
  {
    ExampleHeaderLine(first, rest);
    var line := "usage:";
    assert line[..0] == [] && line[0..5] == "usage";
    var tail := line[5..];
    assert tail == ":";
    assert tail[..0] == [] && tail[0] == ':' && tail[1..] == [];
    assert HeaderTail(tail);
  }

  // ------------------------------------------------------- test examples

  /** Text without `-` holds no flag spelling among its tokens. */
  lemma {:induction false} NoDashWordNames(s: string)
    requires '-' !in s
    ensures Seqs.FlatMap(SplitWhitespace(s), WordName) == []
    decreases |s|
  {
    var t := TrimStart(s);
    if t != [] {
      var w := Word(t);
      assert |w| > 0 by { assert !IsWhitespace(t[0]); }
      assert w[0] == t[0] == s[|s| - |t|];
      var rest := t[|w|..];
      assert rest == s[|s| - |rest|..];
      NoDashWordNames(rest);
      assert SplitWhitespace(s) == [w] + SplitWhitespace(rest);
      Seqs.FlatMapAppend([w], SplitWhitespace(rest), WordName);
      Seqs.FlatMapSnoc([], w, WordName);
      assert [] + [w] == [w];
    }
  }

  /** A separator group without `-` gives no name. */
  lemma NoDashGroup(g: string)
    requires '-' !in g
    ensures GroupNames(g) == []
  {
    TrimInside(g);
    var t := Trim(g);
    if t != [] {
      assert '-' !in t;
      NoDashWordNames(t);
    }
  }

  /** The tokens of a dash-led word and a dash-free rest give the word's one name. */
  lemma LeadingWordName(w: string, rest: string)
    requires StartsWithChar(w, '-') && NoWhitespace(w)
    requires (rest == [] || IsWhitespace(rest[0])) && '-' !in rest
    ensures Seqs.FlatMap(SplitWhitespace(w + rest), WordName) == [FromText(w).value]
  {
    var none: string := [];
    assert none + (w + rest) == w + rest;
    SplitWhitespaceCons(none, w, rest);
    var words := SplitWhitespace(rest);
    NoDashWordNames(rest);
    Seqs.FlatMapAppend([w], words, WordName);
    SingleWordName(w);
  }

  /** The names of a single token. */
  lemma SingleWordName(w: string)
    ensures Seqs.FlatMap([w], WordName) == WordName(w)
  {
    Seqs.FlatMapSnoc([], w, WordName);
    assert [] + [w] == [w];
  }

  /** Leading whitespace before text that ends in a non-space is all `trim` removes. */
  lemma TrimLeading(ws: string, t: string)
    requires AllWhitespace(ws) && t != [] && !IsWhitespace(t[0]) && !IsWhitespace(t[|t| - 1])
    ensures Trim(ws + t) == t
  {
    TrimStartAppend(ws, t);
    TrimEndKeeps(t);
  }

  /** A separator group whose one dash-led token comes first gives that one name. */
  lemma DashLedGroup(ws: string, w: string, rest: string)
    requires AllWhitespace(ws) && StartsWithChar(w, '-') && NoWhitespace(w)
    requires rest == [] || (IsWhitespace(rest[0]) && !IsWhitespace(rest[|rest| - 1]))
    requires '-' !in rest
    ensures GroupNames(ws + (w + rest)) == [FromText(w).value]
  {
    var t := w + rest;
    assert t[0] == w[0];
    assert t[|t| - 1] == if rest == [] then w[|w| - 1] else rest[|rest| - 1];
    TrimLeading(ws, t);
    LeadingWordName(w, rest);
  }

  /** A dash and one ASCII letter spell a short name. */
  lemma ShortName(x: string)
    requires |x| == 2 && x[0] == '-' && x[1] != '-' && x[1] < '\U{0080}'
    ensures FromText(x) == Some(OptName(x, ShortType))
  {
    assert x[..2] != "--";
    assert Utf8Length(x) == 2;
  }

  /** Two dashes and more spell a long name. */
  lemma LongName(x: string)
    requires |x| > 2 && x[0] == '-' && x[1] == '-'
    ensures FromText(x) == Some(OptName(x, LongType))
  {
    assert x[..2] == "--" && x != "--";
  }

  /** `-v, --verbose` splits into the groups `-v` and ` --verbose`. */
  lemma ExampleVerboseSplit(s: string, g0: string, g1: string)
    requires g0 == "-v" && g1 == " " + "--verbose" && s == g0 + "," + g1
    ensures SplitOn(s, OptSeparators) == [g0, g1]
  {
    SplitOnCons(g0, ',', g1, OptSeparators);
    SplitOnNoSeparator(g1, OptSeparators);
  }

  /** A group that is a dash and one ASCII letter names that short option. */
  lemma ShortGroup(g: string)
    requires |g| == 2 && g[0] == '-' && g[1] != '-' && g[1] < '\U{0080}' && !IsWhitespace(g[1])
    ensures GroupNames(g) == [OptName(g, ShortType)]
  {
    var none: string := [];
    assert none + (g + none) == g;
    DashLedGroup(none, g, none);
    ShortName(g);
  }

  /** A group whose first token is a long spelling, followed by dash-free words, names that long option. */
  lemma LongGroup(ws: string, w: string, rest: string)
    requires AllWhitespace(ws) && |w| > 2 && w[0] == '-' && w[1] == '-' && NoWhitespace(w)
    requires rest == [] || (IsWhitespace(rest[0]) && !IsWhitespace(rest[|rest| - 1]))
    requires '-' !in rest
    ensures GroupNames(ws + (w + rest)) == [OptName(w, LongType)]
  {
    DashLedGroup(ws, w, rest);
    LongName(w);
  }

  /** The candidates of a text of two separator groups: those of the first, then those of the second. */
  lemma TwoGroupCandidates(s: string, g0: string, g1: string)
    requires SplitOn(s, OptSeparators) == [g0, g1]
    ensures NameCandidates(s) == GroupNames(g0) + GroupNames(g1)
  {
    Seqs.FlatMapOfTwo(g0, g1, GroupNames);
  }

  /**
   * A text of two separator groups with one name each, the second one
   * smaller: the names are the second, then the first.
   */
  lemma OptNamesOfTwo(s: string, a: OptName, b: OptName)
    requires NameCandidates(s) == [a, b]
    requires a.raw != b.raw && OptNameLess(b, a)
    ensures OptNames(s) == [b, a]
  {
    Seqs.SortedSetOfTwo(a, b, OptNameLess);
  }

  /** Two groups with one name each, the second one smaller: that name first. */
  lemma TwoGroupNames(s: string, g0: string, g1: string, a: OptName, b: OptName)
    requires SplitOn(s, OptSeparators) == [g0, g1]
    requires GroupNames(g0) == [a] && GroupNames(g1) == [b]
    requires a.raw != b.raw && OptNameLess(b, a)
    ensures OptNames(s) == [b, a]
  {
    TwoGroupCandidates(s, g0, g1);
    Seqs.ConcatOfSingles(GroupNames(g0), GroupNames(g1), a, b);
    OptNamesOfTwo(s, a, b);
  }

  /** Three groups naming one, one and no option: those two candidates. */
  lemma ThreeGroupPair(s: string, g0: string, g1: string, g2: string, a: OptName, b: OptName)
    requires SplitOn(s, OptSeparators) == [g0, g1, g2]
    requires GroupNames(g0) == [a] && GroupNames(g1) == [b] && GroupNames(g2) == []
    ensures NameCandidates(s) == [a, b]
  {
    Seqs.FlatMapOneOneNone(g0, g1, g2, a, b, GroupNames);
  }


  /** A text that is one separator group with one name has that name alone. */
  lemma OptNamesOfOne(s: string, a: OptName)
    requires SplitOn(s, OptSeparators) == [s] && GroupNames(s) == [a]
    ensures OptNames(s) == [a]
  {
    Seqs.FlatMapSnoc([], s, GroupNames);
    assert [] + [s] == [s];
    assert NameCandidates(s) == [a];
    Seqs.SortedSetOfOne(a, OptNameLess);
  }

  /** A long spelling: two dashes and at least one more character. */
  predicate LongSpelling(long: OptName) {
    |long.raw| > 2 && long.raw[0] == '-' && long.raw[1] == '-'
  }

  /** A short spelling: a dash and one character that sorts after `-`. */
  predicate ShortSpelling(short: OptName) {
    |short.raw| == 2 && short.raw[0] == '-' && short.raw[1] > '-'
  }

  /** Names spelled as a dash and a letter, and as two dashes and a word, have the two shapes. */
  lemma Spellings(short: OptName, sv: string, long: OptName, lv: string)
    requires |sv| == 2 && sv[0] == '-' && 'a' <= sv[1] <= 'z' && short == OptName(sv, ShortType)
    requires |lv| > 2 && lv[..2] == "--" && long == OptName(lv, LongType)
    ensures ShortSpelling(short) && LongSpelling(long)
  {
    assert lv[0] == lv[..2][0] && lv[1] == lv[..2][1];
  }

  /** A long spelling sorts before a short one: after the common `-`, a `-` is smaller than a letter. */
  lemma LongBeforeShort(long: OptName, short: OptName)
    requires LongSpelling(long) && ShortSpelling(short)
    ensures OptNameLess(long, short)
  {
    assert long.raw[1..][0] == '-' && short.raw[1..][0] == short.raw[1];
  }

  /** Groups naming a short and then a long spelling: the long one sorts first. */
  lemma ShortLongNames(s: string, g0: string, g1: string, short: OptName, long: OptName)
    requires SplitOn(s, OptSeparators) == [g0, g1]
    requires GroupNames(g0) == [short] && GroupNames(g1) == [long]
    requires LongSpelling(long) && ShortSpelling(short)
    ensures OptNames(s) == [long, short]
  {
    LongBeforeShort(long, short);
    assert short.raw != long.raw;
    TwoGroupNames(s, g0, g1, short, long);
  }

  /** The group `-v` names the short option `-v`. */
  lemma ExampleShortGroup(g: string)
    requires g == "-v"
    ensures GroupNames(g) == [OptName("-v", ShortType)]
  {
    assert !IsWhitespace(g[1]);
    ShortGroup(g);
  }

  /** The group ` --verbose` names the long option `--verbose`. */
  lemma ExampleLongGroup(g: string, w: string)
    requires w == "--verbose" && g == " " + w
    ensures GroupNames(g) == [OptName("--verbose", LongType)]
  {
    var none: string := [];
    assert g == " " + (w + none);
    LongGroup(" ", w, none);
  }

  /** The source's test of `parse_opt_names`: `-v, --verbose` gives the names `--verbose` and `-v`. */
  lemma ExampleOptNames(s: string, g0: string, g1: string)
    requires g0 == "-v" && g1 == " " + "--verbose" && s == g0 + "," + g1
    ensures OptNames(s) == [OptName("--verbose", LongType), OptName("-v", ShortType)]
  {
    ExampleVerboseSplit(s, g0, g1);
    ExampleShortGroup(g0);
    ExampleLongGroup(g1, "--verbose");
    VerboseNames(s, g0, g1, OptName("-v", ShortType), OptName("--verbose", LongType));
  }

  /** Two groups naming `-v` and `--verbose`: the names are `--verbose`, then `-v`. */
  lemma VerboseNames(s: string, g0: string, g1: string, v: OptName, verbose: OptName)
    requires v == OptName("-v", ShortType) && verbose == OptName("--verbose", LongType)
    requires SplitOn(s, OptSeparators) == [g0, g1]
    requires GroupNames(g0) == [v] && GroupNames(g1) == [verbose]
    ensures OptNames(s) == [verbose, v]
  {
    Spellings(v, "-v", verbose, "--verbose");
    ShortLongNames(s, g0, g1, v, verbose);
  }


  /**
   * The source's test of `parse_with_opt_part`: `-v, --verbose` with a
   * description gives one option with both names and that description.
   */
  lemma ExampleWithOptPart(s: string, g0: string, g1: string, d: string)
    requires g0 == "-v" && g1 == " " + "--verbose" && s == g0 + "," + g1
    requires d == "Enable verbose mode"
    ensures |ParseWithOptPart(s, d)| == 1
    ensures ParseWithOptPart(s, d)[0].names == [OptName("--verbose", LongType), OptName("-v", ShortType)]
    ensures ParseWithOptPart(s, d)[0].description == d
  {
    ExampleOptNames(s, g0, g1);
  }

  // The repeated line of the deduplication test.

  /** A line without a newline or a final carriage return, written twice, is two lines. */
  lemma RepeatedLine(l: string)
    requires '\n' !in l && l != [] && l[|l| - 1] != '\r'
    ensures Lines(l + "\n" + l) == [l, l]
  {
    LinesCons(l, l);
    LinesLast(l);
  }

  /** A dash line twice: two pairs with the line's text and no description. */
  lemma RepeatedDashPairs(l: string)
    requires StartsWithChar(TrimStart(l), '-')
    ensures Pairs([l, l]) == [(TrimStart(l), []), (TrimStart(l), [])]
  {
    DashBeforeDash([l, l]);
    assert [l, l][1..] == [l];
    assert Pairs([l]) == [(TrimStart(l), [])];
  }

  /** The groups of `-v, --verbose  verbose`: the trailing word adds no name. */
  lemma ExampleDedupNames(t: string, g0: string, g1: string)
    requires g0 == "-v" && g1 == " " + ("--verbose" + "  verbose") && t == g0 + "," + g1
    ensures OptNames(t) == [OptName("--verbose", LongType), OptName("-v", ShortType)]
  {
    ExampleDedupSplit(t, g0, g1);
    ExampleShortGroup(g0);
    ExampleLongWordGroup(g1, "--verbose", "  verbose");
    VerboseNames(t, g0, g1, OptName("-v", ShortType), OptName("--verbose", LongType));
  }

  /** `-v, --verbose  verbose` splits into `-v` and ` --verbose  verbose`. */
  lemma ExampleDedupSplit(t: string, g0: string, g1: string)
    requires g0 == "-v" && g1 == " " + ("--verbose" + "  verbose") && t == g0 + "," + g1
    ensures SplitOn(t, OptSeparators) == [g0, g1]
  {
    SplitOnCons(g0, ',', g1, OptSeparators);
    SplitOnNoSeparator(g1, OptSeparators);
  }

  /** The group ` --verbose  verbose` names only `--verbose`. */
  lemma ExampleLongWordGroup(g: string, w: string, rest: string)
    requires w == "--verbose" && rest == "  verbose" && g == " " + (w + rest)
    ensures GroupNames(g) == [OptName("--verbose", LongType)]
  {
    assert rest[0] == ' ' && rest[|rest| - 1] == 'e';
    LongGroup(" ", w, rest);
  }

  /** The line of the deduplication test: two leading spaces, then the option text. */
  lemma ExampleDedupLineText(l: string, t: string)
    requires t == "-v" + "," + (" " + ("--verbose" + "  verbose")) && l == "  " + t
    ensures '\n' !in l && l[|l| - 1] != '\r' && TrimStart(l) == t && StartsWithChar(t, '-')
  {
    assert forall i :: 0 <= i < |t| ==> t[i] != '\n';
    assert t[|t| - 1] == 'e';
    IndentedOptionLine(l, t);
    assert l[|l| - 1] == t[|t| - 1];
  }

  /**
   * The source's test of `parse_line`: the same option line twice gives one
   * option, with the names `--verbose` and `-v`.
   */
  lemma ExampleDedupOptions(s: string, l: string, t: string)
    requires t == "-v" + "," + (" " + ("--verbose" + "  verbose")) && l == "  " + t
    requires s == l + "\n" + l
    ensures |LineOpts(s)| == 1
    ensures LineOpts(s)[0].names == [OptName("--verbose", LongType), OptName("-v", ShortType)]
  {
    ExampleDedupLineText(l, t);
    RepeatedLine(l);
    RepeatedDashPairs(l);
    ExampleDedupNames(t, "-v", " " + ("--verbose" + "  verbose"));
    Seqs.FlatMapRepeatDedup((t, []), ParseWithOptPart(t, [])[0], PairOpts, OptIdentity);
  }

  // The bioinformatics-style help text.

  /** Three dash lines in a row: three pairs without descriptions. */
  lemma ThreeDashPairs(l0: string, l1: string, l2: string)
    requires StartsWithChar(TrimStart(l0), '-') && StartsWithChar(TrimStart(l1), '-')
    requires StartsWithChar(TrimStart(l2), '-')
    ensures Pairs([l0, l1, l2]) == [(TrimStart(l0), []), (TrimStart(l1), []), (TrimStart(l2), [])]
  {
    DashBeforeDash([l0, l1, l2]);
    assert [l0, l1, l2][1..] == [l1, l2];
    RepeatedLastPair(l1, l2);
    Seqs.ConsOfTwo((TrimStart(l0), []), Pairs([l1, l2]), (TrimStart(l1), []), (TrimStart(l2), []));
  }

  /** Two dash lines: two pairs without descriptions. */
  lemma RepeatedLastPair(l1: string, l2: string)
    requires StartsWithChar(TrimStart(l1), '-') && StartsWithChar(TrimStart(l2), '-')
    ensures Pairs([l1, l2]) == [(TrimStart(l1), []), (TrimStart(l2), [])]
  {
    DashBeforeDash([l1, l2]);
    assert [l1, l2][1..] == [l2];
    assert Pairs([l2]) == [(TrimStart(l2), [])];
  }

  /**
   * Three option lines with pairwise different names, each its own pair
   * without description, give three options, in line order.
   */
  lemma ThreeLineOpts(s: string, t0: string, t1: string, t2: string,
                      n0: seq<OptName>, n1: seq<OptName>, n2: seq<OptName>)
    requires Pairs(Lines(s)) == [(t0, []), (t1, []), (t2, [])]
    requires OptNames(t0) == n0 && OptNames(t1) == n1 && OptNames(t2) == n2
    requires n0 != [] && n1 != [] && n2 != []
    requires n0 != n1 && n0 != n2 && n1 != n2
    ensures LineOpts(s) == [Opt(n0, OptArg(t0), []), Opt(n1, OptArg(t1), []), Opt(n2, OptArg(t2), [])]
  {
    Seqs.FlatMapThreeDedup((t0, []), (t1, []), (t2, []),
                           Opt(n0, OptArg(t0), []), Opt(n1, OptArg(t1), []),
                           Opt(n2, OptArg(t2), []), PairOpts, OptIdentity);
  }

  /** An option line indented by two spaces: one line, trimmed to its dash-led text. */
  lemma IndentedOptionLine(l: string, t: string)
    requires l == "  " + t && StartsWithChar(t, '-')
    requires '\n' !in t && t[|t| - 1] != '\r'
    ensures '\n' !in l && StripCr(l) == l && TrimStart(l) == t
  {
    assert !IsWhitespace('-');
    TrimStartAppend("  ", t);
  }

  /** Three indented option lines: three pairs of their texts, without descriptions. */
  lemma ThreeOptionLines(s: string, l0: string, l1: string, l2: string, t0: string, t1: string, t2: string)
    requires '\n' !in l0 && StripCr(l0) == l0 && TrimStart(l0) == t0 && StartsWithChar(t0, '-')
    requires '\n' !in l1 && StripCr(l1) == l1 && TrimStart(l1) == t1 && StartsWithChar(t1, '-')
    requires '\n' !in l2 && l2 != [] && TrimStart(l2) == t2 && StartsWithChar(t2, '-')
    requires s == l0 + "\n" + (l1 + "\n" + l2)
    ensures Pairs(Lines(s)) == [(t0, []), (t1, []), (t2, [])]
  {
    ThreeLines(l0, l1, l2);
    ThreeDashPairs(l0, l1, l2);
  }

  /** The input line of the bioinformatics-style text. */
  lemma ExampleInputLine(l: string, t: string)
    requires t == "-i" + "," + (" " + ("--input" + " FILE       Input FASTA")) + "/" + "FASTQ file"
    requires l == "  " + t
    ensures '\n' !in l && StripCr(l) == l && TrimStart(l) == t && StartsWithChar(t, '-')
  {
    assert forall i :: 0 <= i < |t| ==> t[i] != '\n';
    assert t[|t| - 1] == 'e';
    IndentedOptionLine(l, t);
  }

  /** The output line of the bioinformatics-style text. */
  lemma ExampleOutputLine(l: string, t: string)
    requires t == "-o" + "," + (" " + ("--output" + " FILE      Output BAM file"))
    requires l == "  " + t
    ensures '\n' !in l && StripCr(l) == l && TrimStart(l) == t && StartsWithChar(t, '-')
  {
    assert forall i :: 0 <= i < |t| ==> t[i] != '\n';
    assert t[|t| - 1] == 'e';
    IndentedOptionLine(l, t);
  }

  /** The mapping-quality line of the bioinformatics-style text. */
  lemma ExampleMapqLine(l: string, t: string)
    requires t == "--min-mapq" + (" INT         Minimum" + " mapping quality (default: 30)")
    requires l == "  " + t
    ensures '\n' !in l && l != [] && TrimStart(l) == t && StartsWithChar(t, '-')
  {
    var a, b := " INT         Minimum", " mapping quality (default: 30)";
    assert forall i :: 0 <= i < |a| ==> a[i] != '\n';
    assert forall i :: 0 <= i < |b| ==> b[i] != '\n';
    assert '\n' !in "--min-mapq";
    assert t[|t| - 1] == ')';
    IndentedOptionLine(l, t);
  }

  /** `-i, --input FILE       Input FASTA/FASTQ file` splits into three groups at `,` and `/`. */
  lemma ExampleInputSplit(t: string, g0: string, g1: string, g2: string)
    requires g0 == "-i" && g1 == " " + ("--input" + " FILE       Input FASTA") && g2 == "FASTQ file"
    requires t == g0 + "," + g1 + "/" + g2
    ensures SplitOn(t, OptSeparators) == [g0, g1, g2]
  {
    assert t == g0 + [','] + (g1 + ['/'] + g2);
    assert forall i :: 0 <= i < |g1| ==> g1[i] !in OptSeparators;
    ThreeGroupSplit(t, g0, g1, g2, ',', '/');
  }

  /** Three separator-free groups joined by two separators split back into those groups. */
  lemma ThreeGroupSplit(t: string, g0: string, g1: string, g2: string, c0: char, c1: char)
    requires forall i :: 0 <= i < |g0| ==> g0[i] !in OptSeparators
    requires forall i :: 0 <= i < |g1| ==> g1[i] !in OptSeparators
    requires forall i :: 0 <= i < |g2| ==> g2[i] !in OptSeparators
    requires c0 in OptSeparators && c1 in OptSeparators
    requires t == g0 + [c0] + (g1 + [c1] + g2)
    ensures SplitOn(t, OptSeparators) == [g0, g1, g2]
  {
    SplitOnCons(g0, c0, g1 + [c1] + g2, OptSeparators);
    SplitOnCons(g1, c1, g2, OptSeparators);
    SplitOnNoSeparator(g2, OptSeparators);
    Seqs.ConsOfTwo(g0, SplitOn(g1 + [c1] + g2, OptSeparators), g1, g2);
  }

  /** The group `-i` names the short option `-i`. */
  lemma ExampleShortGroupI(g: string)
    requires g == "-i"
    ensures GroupNames(g) == [OptName("-i", ShortType)]
  {
    assert !IsWhitespace(g[1]);
    ShortGroup(g);
  }

  /** The group ` --input FILE       Input FASTA` names only `--input`. */
  lemma ExampleInputGroup(g: string, w: string, rest: string)
    requires w == "--input" && rest == " FILE       Input FASTA" && g == " " + (w + rest)
    ensures GroupNames(g) == [OptName("--input", LongType)]
  {
    assert rest[0] == ' ' && rest[|rest| - 1] == 'A';
    LongGroup(" ", w, rest);
  }

  /** The words after the `/`, `FASTQ file`, name nothing. */
  lemma ExampleFileGroup(g: string)
    requires g == "FASTQ file"
    ensures GroupNames(g) == []
  {
    NoDashGroup(g);
  }

  /** Groups naming `-i`, `--input` and nothing: the names are `--input`, then `-i`. */
  lemma InputNames(t: string, g0: string, g1: string, g2: string)
    requires SplitOn(t, OptSeparators) == [g0, g1, g2]
    requires GroupNames(g0) == [OptName("-i", ShortType)]
    requires GroupNames(g1) == [OptName("--input", LongType)]
    requires GroupNames(g2) == []
    ensures OptNames(t) == [OptName("--input", LongType), OptName("-i", ShortType)]
  {
    var i, input := OptName("-i", ShortType), OptName("--input", LongType);
    InputBeforeShort(input, i);
    ThreeGroupPair(t, g0, g1, g2, i, input);
    OptNamesOfTwo(t, i, input);
  }

  /** `--input` sorts before `-i`. */
  lemma InputBeforeShort(input: OptName, i: OptName)
    requires input == OptName("--input", LongType) && i == OptName("-i", ShortType)
    ensures OptNameLess(input, i)
  {
    LongBeforeShort(input, i);
  }

  /** The names of the input line. */
  lemma ExampleInputNames(t: string)
    requires t == "-i" + "," + (" " + ("--input" + " FILE       Input FASTA")) + "/" + "FASTQ file"
    ensures OptNames(t) == [OptName("--input", LongType), OptName("-i", ShortType)]
  {
    var g0, g1, g2 := "-i", " " + ("--input" + " FILE       Input FASTA"), "FASTQ file";
    ExampleInputSplit(t, g0, g1, g2);
    ExampleShortGroupI(g0);
    ExampleInputGroup(g1, "--input", " FILE       Input FASTA");
    ExampleFileGroup(g2);
    InputNames(t, g0, g1, g2);
  }

  /** `-o, --output FILE      Output BAM file` splits into two groups at the `,`. */
  lemma ExampleOutputSplit(t: string, g0: string, g1: string)
    requires g0 == "-o" && g1 == " " + ("--output" + " FILE      Output BAM file") && t == g0 + "," + g1
    ensures SplitOn(t, OptSeparators) == [g0, g1]
  {
    SplitOnCons(g0, ',', g1, OptSeparators);
    SplitOnNoSeparator(g1, OptSeparators);
  }

  /** The group `-o` names the short option `-o`. */
  lemma ExampleShortGroupO(g: string)
    requires g == "-o"
    ensures GroupNames(g) == [OptName("-o", ShortType)]
  {
    assert !IsWhitespace(g[1]);
    ShortGroup(g);
  }

  /** The group ` --output FILE      Output BAM file` names only `--output`. */
  lemma ExampleOutputGroup(g: string, w: string, rest: string)
    requires w == "--output" && rest == " FILE      Output BAM file" && g == " " + (w + rest)
    ensures GroupNames(g) == [OptName("--output", LongType)]
  {
    assert rest[0] == ' ' && rest[|rest| - 1] == 'e';
    LongGroup(" ", w, rest);
  }

  /** `--output` sorts before `-o`. */
  lemma OutputBeforeShort(output: OptName, o: OptName)
    requires output == OptName("--output", LongType) && o == OptName("-o", ShortType)
    ensures OptNameLess(output, o)
  {
    LongBeforeShort(output, o);
  }

  /** Groups naming `-o` and `--output`: the names are `--output`, then `-o`. */
  lemma OutputNames(t: string, g0: string, g1: string)
    requires SplitOn(t, OptSeparators) == [g0, g1]
    requires GroupNames(g0) == [OptName("-o", ShortType)]
    requires GroupNames(g1) == [OptName("--output", LongType)]
    ensures OptNames(t) == [OptName("--output", LongType), OptName("-o", ShortType)]
  {
    var o, output := OptName("-o", ShortType), OptName("--output", LongType);
    OutputBeforeShort(output, o);
    TwoGroupNames(t, g0, g1, o, output);
  }

  /** The names of the output line. */
  lemma ExampleOutputNames(t: string)
    requires t == "-o" + "," + (" " + ("--output" + " FILE      Output BAM file"))
    ensures OptNames(t) == [OptName("--output", LongType), OptName("-o", ShortType)]
  {
    var g0, g1 := "-o", " " + ("--output" + " FILE      Output BAM file");
    ExampleOutputSplit(t, g0, g1);
    ExampleShortGroupO(g0);
    ExampleOutputGroup(g1, "--output", " FILE      Output BAM file");
    OutputNames(t, g0, g1);
  }

  /** The mapping-quality line is one group: its text has no `,`, `/` or `|`. */
  lemma ExampleMapqSplit(t: string, w: string, a: string, b: string)
    requires w == "--min-mapq" && a == " INT         Minimum" && b == " mapping quality (default: 30)"
    requires t == w + (a + b)
    ensures SplitOn(t, OptSeparators) == [t]
  {
    assert forall i :: 0 <= i < |a| ==> a[i] !in OptSeparators;
    assert forall i :: 0 <= i < |b| ==> b[i] !in OptSeparators;
    assert forall i :: 0 <= i < |w| ==> w[i] !in OptSeparators;
    SplitOnNoSeparator(t, OptSeparators);
  }

  /** The mapping-quality group names only `--min-mapq`: its other words have no `-`. */
  lemma ExampleMapqGroup(t: string, w: string, a: string, b: string)
    requires w == "--min-mapq" && a == " INT         Minimum" && b == " mapping quality (default: 30)"
    requires t == w + (a + b)
    ensures GroupNames(t) == [OptName("--min-mapq", LongType)]
  {
    var none: string := [];
    var rest := a + b;
    assert '-' !in a && '-' !in b;
    assert forall i :: 0 <= i < |w| ==> !IsWhitespace(w[i]);
    assert rest[0] == ' ' && rest[|rest| - 1] == ')';
    assert none + (w + rest) == t;
    LongGroup(none, w, rest);
  }

  /** The names of the mapping-quality line. */
  lemma ExampleMapqNames(t: string)
    requires t == "--min-mapq" + (" INT         Minimum" + " mapping quality (default: 30)")
    ensures OptNames(t) == [OptName("--min-mapq", LongType)]
  {
    var w, a, b := "--min-mapq", " INT         Minimum", " mapping quality (default: 30)";
    ExampleMapqSplit(t, w, a, b);
    ExampleMapqGroup(t, w, a, b);
    OptNamesOfOne(t, OptName("--min-mapq", LongType));
  }

  /**
   * The source's test of `parse_line` on a bioinformatics-style help text:
   * three option lines give three options, named `--input` and `-i`,
   * `--output` and `-o`, and `--min-mapq`.
   */
  lemma ExampleBioinformaticsOptions(s: string, l0: string, l1: string, l2: string,
                                     t0: string, t1: string, t2: string)
    requires t0 == "-i" + "," + (" " + ("--input" + " FILE       Input FASTA")) + "/" + "FASTQ file"
    requires t1 == "-o" + "," + (" " + ("--output" + " FILE      Output BAM file"))
    requires t2 == "--min-mapq" + (" INT         Minimum" + " mapping quality (default: 30)")
    requires l0 == "  " + t0 && l1 == "  " + t1 && l2 == "  " + t2
    requires s == l0 + "\n" + (l1 + "\n" + l2)
    ensures |LineOpts(s)| == 3
    ensures LineOpts(s)[0].names == [OptName("--input", LongType), OptName("-i", ShortType)]
    ensures LineOpts(s)[1].names == [OptName("--output", LongType), OptName("-o", ShortType)]
    ensures LineOpts(s)[2].names == [OptName("--min-mapq", LongType)]
  {
    ExampleInputLine(l0, t0);
    ExampleOutputLine(l1, t1);
    ExampleMapqLine(l2, t2);
    ThreeOptionLines(s, l0, l1, l2, t0, t1, t2);
    ExampleInputNames(t0);
    ExampleOutputNames(t1);
    ExampleMapqNames(t2);
    BioOptions(s, t0, t1, t2, OptNames(t0), OptNames(t1), OptNames(t2));
  }

  /** Three pairs whose texts name `--input`/`-i`, `--output`/`-o` and `--min-mapq`: three options. */
  lemma BioOptions(s: string, t0: string, t1: string, t2: string,
                   n0: seq<OptName>, n1: seq<OptName>, n2: seq<OptName>)
    requires Pairs(Lines(s)) == [(t0, []), (t1, []), (t2, [])]
    requires n0 == [OptName("--input", LongType), OptName("-i", ShortType)]
    requires n1 == [OptName("--output", LongType), OptName("-o", ShortType)]
    requires n2 == [OptName("--min-mapq", LongType)]
    requires OptNames(t0) == n0 && OptNames(t1) == n1 && OptNames(t2) == n2
    ensures |LineOpts(s)| == 3
    ensures LineOpts(s)[0].names == n0 && LineOpts(s)[1].names == n1 && LineOpts(s)[2].names == n2
  {
    BioNamesDiffer(n0, n1, n2);
    ThreeLineOpts(s, t0, t1, t2, n0, n1, n2);
  }

  /** The three name lists of the bioinformatics-style text differ from each other. */
  lemma BioNamesDiffer(n0: seq<OptName>, n1: seq<OptName>, n2: seq<OptName>)
    requires n0 == [OptName("--input", LongType), OptName("-i", ShortType)]
    requires n1 == [OptName("--output", LongType), OptName("-o", ShortType)]
    requires n2 == [OptName("--min-mapq", LongType)]
    ensures n0 != n1 && n0 != n2 && n1 != n2
  {
    assert n0[0].raw[2] != n1[0].raw[2];
    assert |n0| != |n2| && |n1| != |n2|;
  }


  // The block-wise help text.

  /** `-a, --all        show all` splits into `-a` and the rest. */
  lemma ExampleAllSplit(t: string, g0: string, g1: string)
    requires g0 == "-a" && g1 == " " + ("--all" + "        show all") && t == g0 + "," + g1
    ensures SplitOn(t, OptSeparators) == [g0, g1]
  {
    SplitOnCons(g0, ',', g1, OptSeparators);
    SplitOnNoSeparator(g1, OptSeparators);
  }

  /** The group `-a` names the short option `-a`. */
  lemma ExampleShortGroupA(g: string)
    requires g == "-a"
    ensures GroupNames(g) == [OptName("-a", ShortType)]
  {
    assert !IsWhitespace(g[1]);
    ShortGroup(g);
  }

  /** The group ` --all        show all` names only `--all`. */
  lemma ExampleAllGroup(g: string, w: string, rest: string)
    requires w == "--all" && rest == "        show all" && g == " " + (w + rest)
    ensures GroupNames(g) == [OptName("--all", LongType)]
  {
    assert rest[0] == ' ' && rest[|rest| - 1] == 'l';
    LongGroup(" ", w, rest);
  }

  /** Groups naming `-a` and then `--all`: the long spelling sorts first. */
  lemma AllNames(s: string, g0: string, g1: string, a: OptName, all: OptName)
    requires a == OptName("-a", ShortType) && all == OptName("--all", LongType)
    requires SplitOn(s, OptSeparators) == [g0, g1]
    requires GroupNames(g0) == [a] && GroupNames(g1) == [all]
    ensures OptNames(s) == [all, a]
  {
    Spellings(a, "-a", all, "--all");
    ShortLongNames(s, g0, g1, a, all);
  }


  /** The names of `-a, --all        show all`. */
  lemma ExampleAllNames(t: string)
    requires t == "-a" + "," + (" " + ("--all" + "        show all"))
    ensures OptNames(t) == [OptName("--all", LongType), OptName("-a", ShortType)]
  {
    var g0, g1 := "-a", " " + ("--all" + "        show all");
    ExampleAllSplit(t, g0, g1);
    ExampleShortGroupA(g0);
    ExampleAllGroup(g1, "--all", "        show all");
    AllNames(t, g0, g1, OptName("-a", ShortType), OptName("--all", LongType));
  }

  /** The names of `--verbose    be verbose`: the words after the flag have no `-`. */
  lemma ExampleVerboseLineNames(t: string, w: string, rest: string)
    requires w == "--verbose" && rest == "    be verbose" && t == w + rest
    ensures OptNames(t) == [OptName("--verbose", LongType)]
  {
    var none: string := [];
    assert forall i :: 0 <= i < |t| ==> t[i] !in OptSeparators;
    SplitOnNoSeparator(t, OptSeparators);
    assert rest[0] == ' ' && rest[|rest| - 1] == 'e' && '-' !in rest;
    assert none + (w + rest) == t;
    LongGroup(none, w, rest);
    OptNamesOfOne(t, OptName("--verbose", LongType));
  }
}
