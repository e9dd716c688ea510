/**
 * Detection of subcommand candidates in help text
 * (src/subcommand_parser.rs): a line whose first token is a valid name
 * followed by a description line, or a single line of at least three
 * tokens, collected into an ordered set.
 */
module SubcommandParser {
  import opened Wrappers
  import opened Strings
  import opened Types
  import Seqs

  /** `char::is_alphanumeric`, restricted to ASCII letters and digits. */
  predicate IsAlphanumeric(c: char) {
    ('a' <= c <= 'z') || ('A' <= c <= 'Z') || ('0' <= c <= '9')
  }

  /** A character allowed in a subcommand name. */
  predicate IsNameChar(c: char) {
    IsAlphanumeric(c) || c == '-' || c == '_'
  }

  /**
   * `SubcommandParser::is_valid_subcommand_name`: non-empty, not dash-led,
   * and made of alphanumerics, `-` and `_`.
   */
  function IsValidName(name: string): (b: bool)
    ensures b ==> name != [] && NoWhitespace(name)
  {
    if StartsWithChar(name, '-') || name == [] then false
    else
      var ok := forall i :: 0 <= i < |name| ==> IsNameChar(name[i]);
      assert ok ==> NoWhitespace(name) by {
        if ok {
          forall i | 0 <= i < |name| ensures !IsWhitespace(name[i]) {
            assert IsNameChar(name[i]);
          }
        }
      }
      ok
  }

  /** The cases of the source's tests of `is_valid_subcommand_name`. */
  lemma ValidNameExamples()
    ensures IsValidName("run") && IsValidName("sub-cmd")
    ensures !IsValidName("-v") && !IsValidName("")
  {
    assert forall i :: 0 <= i < |"run"| ==> IsNameChar("run"[i]);
    assert forall i :: 0 <= i < |"sub-cmd"| ==> IsNameChar("sub-cmd"[i]);
  }

  /** A trimmed line that may carry a candidate: non-empty and not an option line. */
  predicate MayCarry(trimmed: string) {
    trimmed != [] && !StartsWithChar(trimmed, '-')
  }

  /** The first whitespace-separated token of a trimmed line is a valid name. */
  predicate NamedBy(trimmed: string) {
    var words := SplitWhitespace(trimmed);
    words != [] && IsValidName(words[0])
  }

  /**
   * `SubcommandParser::parse_line_pair`: a first line whose first token is a
   * valid name, and a second line that gives the description.
   */
  function LinePair(first: string, second: string): (r: Option<Subcommand>)
    ensures r.Some? <==> MayCarry(Trim(first)) && NamedBy(Trim(first)) && MayCarry(Trim(second))
    ensures r.Some? ==> r.value.cmd == SplitWhitespace(Trim(first))[0] && IsValidName(r.value.cmd)
    ensures r.Some? ==> r.value.desc == SplitOn(Trim(second), {'\n'})[0] && r.value.desc != []
  {
    var trimmedFirst := Trim(first);
    if !MayCarry(trimmedFirst) then None
    else
      var words := SplitWhitespace(trimmedFirst);
      if words == [] then None
      else if !IsValidName(words[0]) then None
      else
        var desc := Trim(second);
        if !MayCarry(desc) then None
        else
          DescriptionLine(second);
          Some(Subcommand(words[0], SplitOn(desc, {'\n'})[0]))
  }

  /** The description of a carrying second line is not empty. */
  lemma DescriptionLine(second: string)
    requires MayCarry(Trim(second))
    ensures SplitOn(Trim(second), {'\n'})[0] != []
  {
    TrimHead(second);
    assert Trim(second)[0] != '\n';
  }

  /** For a second line without a newline, as `lines()` gives, the description is the whole trimmed line. */
  lemma LinePairDescription(first: string, second: string)
    requires '\n' !in second && LinePair(first, second).Some?
    ensures LinePair(first, second).value.desc == Trim(second)
  {
    var t := Trim(second);
    assert forall i :: 0 <= i < |t| ==> t[i] in second by {
      TrimInside(second);
    }
    SplitOnNoSeparator(t, {'\n'});
  }

  /**
   * `SubcommandParser::parse_single_line`: at least three tokens; the first
   * is the name and the others, joined by single spaces, the description.
   */
  function SingleLine(line: string): (r: Option<Subcommand>)
    ensures r.Some? <==>
              MayCarry(Trim(line)) && |SplitWhitespace(Trim(line))| >= 3 && NamedBy(Trim(line))
    ensures r.Some? ==> r.value.cmd == SplitWhitespace(Trim(line))[0] && IsValidName(r.value.cmd)
    ensures r.Some? ==> r.value.desc == Join(SplitWhitespace(Trim(line))[1..], " ") && r.value.desc != []
  {
    var trimmed := Trim(line);
    if !MayCarry(trimmed) then None
    else
      var parts := SplitWhitespace(trimmed);
      if |parts| < 3 then None
      else
        var name := parts[0];
        if !IsValidName(name) then None
        else
          var desc := Join(parts[1..], " ");
          SplitWhitespaceTokens(trimmed, 1);
          assert parts[1..][0] == parts[1];
          JoinNonEmpty(parts[1..], " ");
          if desc == [] then None
          else Some(Subcommand(name, desc))
  }

  /** An optional candidate as zero or one elements. */
  function OptionToSeq(o: Option<Subcommand>): (r: seq<Subcommand>)
    ensures |r| <= 1 && (r == [] <==> o.None?) && (o.Some? ==> r == [o.value])
  {
    match o
    case None => []
    case Some(s) => [s]
  }

  /** The consecutive pairs of lines (`lines.windows(2)`). */
  function Windows(lines: seq<string>): (w: seq<(string, string)>)
    ensures |w| == if |lines| < 2 then 0 else |lines| - 1
    ensures forall k :: 0 <= k < |w| ==> w[k] == (lines[k], lines[k + 1])
  {
    if |lines| < 2 then [] else seq(|lines| - 1, k requires 0 <= k < |lines| - 1 => (lines[k], lines[k + 1]))
  }

  /** The candidate of one window. */
  function PairCandidate(w: (string, string)): seq<Subcommand> {
    OptionToSeq(LinePair(w.0, w.1))
  }

  /** The candidate of one line. */
  function SingleCandidate(line: string): seq<Subcommand> {
    OptionToSeq(SingleLine(line))
  }

  /** Every candidate, in the order the two loops insert them. */
  function Candidates(lines: seq<string>): seq<Subcommand> {
    Seqs.FlatMap(Windows(lines), PairCandidate) + Seqs.FlatMap(lines, SingleCandidate)
  }

  /** What `SubcommandParser::parse` returns: the candidates as an ordered set. */
  function Subcommands(content: string): seq<Subcommand> {
    Seqs.SortedSet(Candidates(Lines(content)), SubcommandLess)
  }

  /** The result is strictly increasing by `(cmd, desc)`. */
  lemma SubcommandsSorted(content: string)
    ensures Seqs.StrictlySorted(Subcommands(content), SubcommandLess)
  {
    SubcommandOrderIsTotal();
    Seqs.SortedSetProperties(Candidates(Lines(content)), SubcommandLess);
  }

  /** The members of the ordered set are exactly the candidates. */
  lemma SortedCandidatesMembers(xs: seq<Subcommand>, s: Subcommand)
    ensures s in Seqs.SortedSet(xs, SubcommandLess) <==> s in xs
  {
    SubcommandOrderIsTotal();
    Seqs.SortedSetProperties(xs, SubcommandLess);
  }

  /** Some pair of consecutive lines yields `s`. */
  ghost predicate FromPair(lines: seq<string>, s: Subcommand) {
    exists k :: 0 <= k < |lines| - 1 && LinePair(lines[k], lines[k + 1]) == Some(s)
  }

  /** Some single line yields `s`. */
  ghost predicate FromSingle(lines: seq<string>, s: Subcommand) {
    exists k :: 0 <= k < |lines| && SingleLine(lines[k]) == Some(s)
  }

  /** A candidate of the windows loop comes from one pair of consecutive lines. */
  lemma PairCandidatesMembers(lines: seq<string>, s: Subcommand)
    ensures s in Seqs.FlatMap(Windows(lines), PairCandidate) <==> FromPair(lines, s)
  {
    var w := Windows(lines);
    Seqs.FlatMapMembers(w, PairCandidate, s);
    if exists k :: 0 <= k < |lines| - 1 && LinePair(lines[k], lines[k + 1]) == Some(s) {
      var k :| 0 <= k < |lines| - 1 && LinePair(lines[k], lines[k + 1]) == Some(s);
      assert s in PairCandidate(w[k]);
    }
    if exists k :: 0 <= k < |w| && s in PairCandidate(w[k]) {
      var k :| 0 <= k < |w| && s in PairCandidate(w[k]);
      assert LinePair(lines[k], lines[k + 1]) == Some(s);
    }
  }

  /** A candidate of the single-line loop comes from one line. */
  lemma SingleCandidatesMembers(lines: seq<string>, s: Subcommand)
    ensures s in Seqs.FlatMap(lines, SingleCandidate) <==> FromSingle(lines, s)
  {
    Seqs.FlatMapMembers(lines, SingleCandidate, s);
    if exists k :: 0 <= k < |lines| && s in SingleCandidate(lines[k]) {
      var k :| 0 <= k < |lines| && s in SingleCandidate(lines[k]);
      assert SingleLine(lines[k]) == Some(s);
    }
  }

  /**
   * A subcommand is in the result exactly when some pair of consecutive
   * lines or some single line yields it.
   */
  lemma SubcommandsMembers(content: string, s: Subcommand)
    ensures s in Subcommands(content) <==> FromPair(Lines(content), s) || FromSingle(Lines(content), s)
  {
    var lines := Lines(content);
    SortedCandidatesMembers(Candidates(lines), s);
    PairCandidatesMembers(lines, s);
    SingleCandidatesMembers(lines, s);
  }

  /** Every result has a valid name and a non-empty description. */
  lemma SubcommandsWellFormed(content: string, s: Subcommand)
    requires s in Subcommands(content)
    ensures IsValidName(s.cmd) && s.desc != []
  {
    var lines := Lines(content);
    SubcommandsMembers(content, s);
    if FromPair(lines, s) {
      var k :| 0 <= k < |lines| - 1 && LinePair(lines[k], lines[k + 1]) == Some(s);
    } else {
      var k :| 0 <= k < |lines| && SingleLine(lines[k]) == Some(s);
    }
  }

  /** Inserting one more optional candidate into the ordered set. */
  lemma InsertCandidate(xs: seq<Subcommand>, c: Option<Subcommand>)
    ensures Seqs.SortedSet(xs + OptionToSeq(c), SubcommandLess) ==
              if c.Some? then Seqs.SortedInsert(Seqs.SortedSet(xs, SubcommandLess), c.value, SubcommandLess)
              else Seqs.SortedSet(xs, SubcommandLess)
  {
    if c.Some? {
      assert (xs + [c.value])[..|xs|] == xs;
    } else {
      assert xs + [] == xs;
    }
  }

  /** The windows loop of `SubcommandParser::parse`. */
  method InsertPairs(windows: seq<(string, string)>) returns (subcommands: seq<Subcommand>)
    ensures subcommands == Seqs.SortedSet(Seqs.FlatMap(windows, PairCandidate), SubcommandLess)
  {
    subcommands := [];
    for k := 0 to |windows|
      invariant subcommands == Seqs.SortedSet(Seqs.FlatMap(windows[..k], PairCandidate), SubcommandLess)
    {
      var (first, second) := windows[k];
      var candidate := LinePair(first, second);
      Seqs.FlatMapPrefix(windows, k, PairCandidate);
      InsertCandidate(Seqs.FlatMap(windows[..k], PairCandidate), candidate);
      if candidate.Some? {
        subcommands := Seqs.SortedInsert(subcommands, candidate.value, SubcommandLess);
      }
    }
    assert windows[..|windows|] == windows;
  }

  /** The single-line loop of `SubcommandParser::parse`, adding to the set built so far. */
  method InsertSingles(lines: seq<string>, ghost before: seq<Subcommand>, found: seq<Subcommand>)
    returns (subcommands: seq<Subcommand>)
    requires found == Seqs.SortedSet(before, SubcommandLess)
    ensures subcommands == Seqs.SortedSet(before + Seqs.FlatMap(lines, SingleCandidate), SubcommandLess)
  {
    subcommands := found;
    assert before + Seqs.FlatMap(lines[..0], SingleCandidate) == before;
    for k := 0 to |lines|
      invariant subcommands == Seqs.SortedSet(before + Seqs.FlatMap(lines[..k], SingleCandidate), SubcommandLess)
    {
      var candidate := SingleLine(lines[k]);
      Seqs.FlatMapPrefix(lines, k, SingleCandidate);
      Seqs.AppendAssoc(before, Seqs.FlatMap(lines[..k], SingleCandidate), SingleCandidate(lines[k]));
      InsertCandidate(before + Seqs.FlatMap(lines[..k], SingleCandidate), candidate);
      if candidate.Some? {
        subcommands := Seqs.SortedInsert(subcommands, candidate.value, SubcommandLess);
      }
    }
    assert lines[..|lines|] == lines;
  }

  /**
   * `SubcommandParser::parse`: one loop over the windows and one over the
   * lines insert every candidate into a `BTreeSet`, kept here as a strictly
   * increasing sequence.
   */
  method Parse(content: string) returns (subcommands: seq<Subcommand>)
    ensures subcommands == Subcommands(content)
  {
    var lines := Lines(content);
    var pairs := InsertPairs(Windows(lines));
    subcommands := InsertSingles(lines, Seqs.FlatMap(Windows(lines), PairCandidate), pairs);
  }

  /** A space and a token. */
  lemma SpacedLastWord(w: string)
    requires w != [] && NoWhitespace(w)
    ensures SplitWhitespace(" " + w) == [w]
  {
    SpaceIsWhitespace();
    assert " " + w == " " + (w + []);
    Strings.SplitWhitespaceCons(" ", w, []);
  }

  /** Whitespace, a token, and text that starts with a space. */
  lemma WordBeforeSpace(ws: string, w: string, v: string)
    requires AllWhitespace(ws) && w != [] && NoWhitespace(w)
    ensures SplitWhitespace(ws + (w + (" " + v))) == [w] + SplitWhitespace(" " + v)
  {
    Strings.SplitWhitespaceCons(ws, w, " " + v);
  }

  /** A token at the very start, then whitespace and more text. */
  lemma LeadingWord(w: string, ws: string, u: string)
    requires w != [] && NoWhitespace(w) && ws != [] && AllWhitespace(ws)
    ensures SplitWhitespace(w + (ws + u)) == [w] + SplitWhitespace(ws + u)
  {
    assert (ws + u)[0] == ws[0];
    assert w + (ws + u) == [] + (w + (ws + u));
    Strings.SplitWhitespaceCons([], w, ws + u);
  }

  /** A name, whitespace and three single-space-separated tokens split into exactly those four tokens. */
  lemma FourTokensSplit(line: string, name: string, ws: string, w1: string, w2: string, w3: string)
    requires line == name + (ws + (w1 + (" " + (w2 + (" " + w3)))))
    requires name != [] && NoWhitespace(name) && AllWhitespace(ws) && ws != []
    requires w1 != [] && NoWhitespace(w1) && w2 != [] && NoWhitespace(w2) && w3 != [] && NoWhitespace(w3)
    ensures SplitWhitespace(line) == [name] + ([w1] + ([w2] + [w3]))
  {
    ThreeWords(ws, w1, w2, w3);
    LeadingWord(name, ws, w1 + (" " + (w2 + (" " + w3))));
  }

  /** Two space-separated tokens after a space. */
  lemma TwoWords(w2: string, w3: string)
    requires w2 != [] && NoWhitespace(w2) && w3 != [] && NoWhitespace(w3)
    ensures SplitWhitespace(" " + (w2 + (" " + w3))) == [w2] + [w3]
  {
    SpacedLastWord(w3);
    SpaceIsWhitespace();
    WordBeforeSpace(" ", w2, w3);
  }

  /** A single space is whitespace. */
  lemma SpaceIsWhitespace()
    ensures AllWhitespace(" ")
  {
    assert " "[0] == ' ';
  }

  /** Whitespace, then three single-space-separated tokens. */
  lemma ThreeWords(ws: string, w1: string, w2: string, w3: string)
    requires AllWhitespace(ws)
    requires w1 != [] && NoWhitespace(w1) && w2 != [] && NoWhitespace(w2) && w3 != [] && NoWhitespace(w3)
    ensures SplitWhitespace(ws + (w1 + (" " + (w2 + (" " + w3))))) == [w1] + ([w2] + [w3])
  {
    TwoWords(w2, w3);
    WordBeforeSpace(ws, w1, w2 + (" " + w3));
  }

  /** A line that starts with a valid name followed by three more tokens yields a single-line candidate. */
  lemma SingleLineOfFourTokens(line: string, name: string, ws: string, w1: string, w2: string, w3: string)
    requires line == name + (ws + (w1 + (" " + (w2 + (" " + w3)))))
    requires IsValidName(name) && AllWhitespace(ws) && ws != []
    requires w1 != [] && NoWhitespace(w1) && w2 != [] && NoWhitespace(w2) && w3 != [] && NoWhitespace(w3)
    ensures SingleLine(line).Some? && SingleLine(line).value.cmd == name
  {
    FourTokensSplit(line, name, ws, w1, w2, w3);
    FourTokensTrimmed(line, name, ws, w1, w2, w3);
    assert !StartsWithChar(name, '-');
    SingleLineFromTokens(line);
  }

  /** The four-token line has no whitespace at its ends and starts with the name. */
  lemma FourTokensTrimmed(line: string, name: string, ws: string, w1: string, w2: string, w3: string)
    requires line == name + (ws + (w1 + (" " + (w2 + (" " + w3)))))
    requires name != [] && NoWhitespace(name) && w3 != [] && NoWhitespace(w3)
    ensures Trim(line) == line && line[0] == name[0]
  {
    assert line[0] == name[0];
    assert line[|line| - 1] == w3[|w3| - 1];
    TrimKeeps(line);
  }

  /** A trimmed line of at least three tokens whose first is a valid name is a single-line candidate. */
  lemma SingleLineFromTokens(line: string)
    requires Trim(line) == line && line != [] && line[0] != '-'
    requires |SplitWhitespace(line)| >= 3 && IsValidName(SplitWhitespace(line)[0])
    ensures SingleLine(line).Some? && SingleLine(line).value.cmd == SplitWhitespace(line)[0]
  {
  }

  /** A non-empty word of name characters is a token without whitespace. */
  lemma NameCharsWord(w: string)
    requires w != [] && forall i :: 0 <= i < |w| ==> IsNameChar(w[i])
    ensures NoWhitespace(w)
  {
    forall i | 0 <= i < |w| ensures !IsWhitespace(w[i]) {
      assert IsNameChar(w[i]);
    }
  }

  /** A run of spaces is whitespace. */
  lemma SpacesAreWhitespace(ws: string)
    requires forall i :: 0 <= i < |ws| ==> ws[i] == ' '
    ensures AllWhitespace(ws)
  {
  }

  /** A line of the source's test input: a name, a gap and a three-word description. */
  lemma ExampleLine(line: string, name: string, ws: string, w1: string, w2: string, w3: string)
    requires line == name + (ws + (w1 + (" " + (w2 + (" " + w3)))))
    requires name in {"run", "build"} && ws in {"       ", "     "}
    requires w1 in {"Run", "Build"} && w2 == "a" && w3 in {"command", "project"}
    ensures SingleLine(line).Some? && SingleLine(line).value.cmd == name
  {
    assert IsValidName(name) by {
      ValidNameExamples();
      assert forall i :: 0 <= i < |"build"| ==> IsNameChar("build"[i]);
    }
    SpacesAreWhitespace(ws);
    NameCharsWord(w1);
    NameCharsWord(w2);
    NameCharsWord(w3);
    SingleLineOfFourTokens(line, name, ws, w1, w2, w3);
  }

  /** The first line of the source's test input yields `run`. */
  lemma ExampleRunLine(l0: string)
    requires l0 == "run       Run a command"
    ensures SingleLine(l0).Some? && SingleLine(l0).value.cmd == "run"
  {
    assert l0 == "run" + ("       " + ("Run" + (" " + ("a" + (" " + "command")))));
    ExampleLine(l0, "run", "       ", "Run", "a", "command");
  }

  /** The second line of the source's test input yields `build`. */
  lemma ExampleBuildLine(l1: string)
    requires l1 == "build     Build a project"
    ensures SingleLine(l1).Some? && SingleLine(l1).value.cmd == "build"
  {
    assert l1 == "build" + ("     " + ("Build" + (" " + ("a" + (" " + "project")))));
    ExampleLine(l1, "build", "     ", "Build", "a", "project");
  }

  /** A single-line candidate of any line of the text is in the result. */
  lemma SingleLineFound(content: string, k: nat)
    requires k < |Lines(content)| && SingleLine(Lines(content)[k]).Some?
    ensures SingleLine(Lines(content)[k]).value in Subcommands(content)
  {
    var s := SingleLine(Lines(content)[k]).value;
    assert FromSingle(Lines(content), s);
    SubcommandsMembers(content, s);
  }

  /** Two lines without line breaks, joined by one newline, are read back as those two lines. */
  lemma TwoLines(content: string, l0: string, l1: string)
    requires '\n' !in l0 && '\n' !in l1 && l0 != [] && l0[|l0| - 1] != '\r' && l1 != []
    requires content == l0 + "\n" + l1
    ensures Lines(content) == [l0, l1]
  {
    LinesCons(l0, l1);
    LinesLast(l1);
  }

  /** The source's test input: both names are found. */
  lemma ExampleSubcommands(content: string, l0: string, l1: string)
    requires l0 == "run       Run a command" && l1 == "build     Build a project"
    requires content == l0 + "\n" + l1
    ensures exists s :: s in Subcommands(content) && s.cmd == "run"
    ensures exists s :: s in Subcommands(content) && s.cmd == "build"
  {
    assert '\n' !in l0 by { assert forall i :: 0 <= i < |l0| ==> l0[i] != '\n'; }
    assert '\n' !in l1 by { assert forall i :: 0 <= i < |l1| ==> l1[i] != '\n'; }
    TwoLines(content, l0, l1);
    ExampleRunLine(l0);
    ExampleBuildLine(l1);
    SingleLineFound(content, 0);
    SingleLineFound(content, 1);
  }
}
