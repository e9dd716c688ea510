/**
 * Whitespace normalisation of raw help text (`IoHandler::normalize_text` in
 * src/io_handler.rs): a text with a tab or with two adjacent spaces is split
 * into lines, and every line gets the transform the flags of the WHOLE text
 * choose: tabs become eight spaces, and one left-to-right pass turns each
 * pair of spaces into one.
 */
module IoHandler {
  import opened Strings

  /** Two spaces start at index `j`. */
  predicate PairAt(s: string, j: int) {
    0 <= j < |s| - 1 && s[j] == ' ' && s[j + 1] == ' '
  }

  /**
   * Two adjacent spaces occur somewhere. The source scans bytes; a space is
   * the single byte 0x20 in UTF-8 and never part of another character's
   * encoding, so the scan over characters finds the same pairs.
   */
  predicate HasDoubleSpace(s: string) {
    exists j :: 0 <= j < |s| && PairAt(s, j)
  }

  /** What a tab expands to: eight spaces. */
  function TabExpansion(): (r: string)
    ensures |r| == 8 && forall i :: 0 <= i < 8 ==> r[i] == ' '
    ensures '\t' !in r
  {
    Repeat(' ', 8)
  }

  /** The transform of one line, chosen by the flags of the whole text. */
  function NormalizeLine(line: string, hasTabs: bool, hasDoubleSpaces: bool): (r: string)
    ensures hasTabs ==> '\t' !in r
    ensures '\t' !in line ==> '\t' !in r
  {
    if hasTabs && hasDoubleSpaces then CollapseDoubleSpaces(ReplaceChar(line, '\t', TabExpansion()))
    else if hasTabs then ReplaceChar(line, '\t', TabExpansion())
    else CollapseDoubleSpaces(line)
  }

  /** The transform of every line. */
  function NormalizeLines(lines: seq<string>, hasTabs: bool, hasDoubleSpaces: bool): (r: seq<string>)
    ensures |r| == |lines|
    ensures forall i :: 0 <= i < |lines| ==> r[i] == NormalizeLine(lines[i], hasTabs, hasDoubleSpaces)
  {
    if lines == [] then []
    else NormalizeLines(lines[..|lines| - 1], hasTabs, hasDoubleSpaces)
         + [NormalizeLine(lines[|lines| - 1], hasTabs, hasDoubleSpaces)]
  }

  /**
   * What `IoHandler::normalize_text` returns. Without a tab and without two
   * adjacent spaces the text comes back unchanged.
   */
  function Normalized(text: string): (r: string)
    ensures '\t' !in text && !HasDoubleSpace(text) ==> r == text
  {
    var hasTabs := '\t' in text;
    var hasDoubleSpaces := HasDoubleSpace(text);
    if !hasTabs && !hasDoubleSpaces then text
    else Join(NormalizeLines(Lines(text), hasTabs, hasDoubleSpaces), "\n")
  }

  /** The output never contains a tab. */
  lemma NormalizedHasNoTab(text: string)
    ensures '\t' !in Normalized(text)
  {
    var hasTabs := '\t' in text;
    var hasDoubleSpaces := HasDoubleSpace(text);
    if hasTabs || hasDoubleSpaces {
      var lines := Lines(text);
      var parts := NormalizeLines(lines, hasTabs, hasDoubleSpaces);
      forall i | 0 <= i < |parts| ensures '\t' !in parts[i] {
        if !hasTabs && '\t' in lines[i] {
          LinesChars(text, i, '\t');
        }
      }
      if '\t' in Normalized(text) {
        JoinChars(parts, "\n", '\t');
      }
    }
  }

  /** The scan of src/io_handler.rs:49-62: a peekable pass that stops at the first pair of spaces. */
  method ScanDoubleSpaces(text: string) returns (found: bool)
    ensures found <==> HasDoubleSpace(text)
  {
    found := false;
    var i := 0;
    while i < |text|
      invariant 0 <= i <= |text|
      invariant forall j :: 0 <= j < i ==> !PairAt(text, j)
    {
      var b := text[i];
      i := i + 1;
      if b == ' ' && i < |text| && text[i] == ' ' {
        assert PairAt(text, i - 1);
        found := true;
        return;
      }
    }
  }

  /** Appending the transform of one more line. */
  lemma NormalizeStep(lines: seq<string>, k: nat, hasTabs: bool, hasDoubleSpaces: bool)
    requires k < |lines|
    ensures Join(NormalizeLines(lines[..k + 1], hasTabs, hasDoubleSpaces), "\n") ==
              if k == 0 then NormalizeLine(lines[0], hasTabs, hasDoubleSpaces)
              else Join(NormalizeLines(lines[..k], hasTabs, hasDoubleSpaces), "\n") + "\n"
                   + NormalizeLine(lines[k], hasTabs, hasDoubleSpaces)
  {
    assert lines[..k + 1][..k] == lines[..k];
    var before := NormalizeLines(lines[..k], hasTabs, hasDoubleSpaces);
    if k > 0 {
      JoinSnoc(before, NormalizeLine(lines[k], hasTabs, hasDoubleSpaces), "\n");
    }
  }

  /** The line loop of src/io_handler.rs:69-91, guarded by a `first` flag. */
  method NormalizeAllLines(text: string, hasTabs: bool, hasDoubleSpaces: bool) returns (result: string)
    ensures result == Join(NormalizeLines(Lines(text), hasTabs, hasDoubleSpaces), "\n")
  {
    var lines := Lines(text);
    result := [];
    var first := true;
    for k := 0 to |lines|
      invariant first <==> k == 0
      invariant result == Join(NormalizeLines(lines[..k], hasTabs, hasDoubleSpaces), "\n")
    {
      NormalizeStep(lines, k, hasTabs, hasDoubleSpaces);
      if !first {
        result := result + "\n";
      }
      first := false;
      var line := lines[k];
      if hasTabs && hasDoubleSpaces {
        result := result + CollapseDoubleSpaces(ReplaceChar(line, '\t', TabExpansion()));
      } else if hasTabs {
        result := result + ReplaceChar(line, '\t', TabExpansion());
      } else {
        result := result + CollapseDoubleSpaces(line);
      }
    }
    assert lines[..|lines|] == lines;
  }

  /** `IoHandler::normalize_text`: the fast exit, then the per-line transform. */
  method NormalizeText(text: string) returns (result: string)
    ensures result == Normalized(text)
    ensures '\t' !in result
  {
    NormalizedHasNoTab(text);
    var hasTabs := '\t' in text;
    var hasDoubleSpaces := ScanDoubleSpaces(text);
    if !hasTabs && !hasDoubleSpaces {
      return text;
    }
    result := NormalizeAllLines(text, hasTabs, hasDoubleSpaces);
  }

  /**
   * One pass of `replace("  ", " ")` leaves a text unchanged exactly when it
   * has no two adjacent spaces, and otherwise makes it shorter.
   */
  lemma {:induction false} CollapseUnchangedIff(s: string)
    ensures CollapseDoubleSpaces(s) == s <==> !HasDoubleSpace(s)
    ensures |CollapseDoubleSpaces(s)| <= |s|
    ensures HasDoubleSpace(s) ==> |CollapseDoubleSpaces(s)| < |s|
    decreases |s|
  {
    if |s| >= 2 && s[0] == ' ' && s[1] == ' ' {
      assert PairAt(s, 0);
      CollapseUnchangedIff(s[2..]);
    } else if s != [] {
      var t := s[1..];
      CollapseUnchangedIff(t);
      assert s == [s[0]] + t;
      if HasDoubleSpace(s) {
        var j :| 0 <= j < |s| && PairAt(s, j);
        assert j > 0;
        assert PairAt(t, j - 1);
      }
      if HasDoubleSpace(t) {
        var j :| 0 <= j < |t| && PairAt(t, j);
        assert PairAt(s, j + 1);
      }
    }
  }

  /** A run of `2k` spaces collapses to `k` spaces. */
  lemma {:induction false} CollapseEvenRun(k: nat, rest: string)
    requires rest == [] || rest[0] != ' '
    ensures CollapseDoubleSpaces(Repeat(' ', 2 * k) + rest) == Repeat(' ', k) + CollapseDoubleSpaces(rest)
  {
    if k > 0 {
      EvenRunHead(k, rest);
      CollapseEvenRun(k - 1, rest);
      SpacesCons(k);
    } else {
      assert Repeat(' ', 0) + rest == rest;
    }
  }

  /** A run of `2k` spaces starts with a pair, followed by a run of `2(k-1)`. */
  lemma EvenRunHead(k: nat, rest: string)
    requires k > 0
    ensures var s := Repeat(' ', 2 * k) + rest;
            |s| >= 2 && s[0] == ' ' && s[1] == ' ' && s[2..] == Repeat(' ', 2 * (k - 1)) + rest
  {
    var s := Repeat(' ', 2 * k) + rest;
    assert s[2..] == Repeat(' ', 2 * (k - 1)) + rest;
  }

  /** A run of `k` spaces is a space and a run of `k - 1`. */
  lemma SpacesCons(k: nat)
    requires k > 0
    ensures Repeat(' ', k) == " " + Repeat(' ', k - 1)
  {
  }

  /** The pass is not repeated: three spaces become two, which still form a pair. */
  lemma CollapseIsSinglePass(s: string)
    requires s == "   "
    ensures CollapseDoubleSpaces(s) == "  " && HasDoubleSpace(CollapseDoubleSpaces(s))
  {
    assert s[2..] == " " && " "[1..] == [];
    assert PairAt("  ", 0);
  }

  /** A leading tab becomes the eight spaces. */
  lemma ExpandLeadingTab(x: string)
    ensures ReplaceChar("\t" + x, '\t', TabExpansion()) == TabExpansion() + ReplaceChar(x, '\t', TabExpansion())
  {
    assert ("\t" + x)[0] == '\t' && ("\t" + x)[1..] == x;
  }

  /** A leading character other than a space is kept by the collapsing pass. */
  lemma CollapseKeepsHead(c: char, x: string)
    requires c != ' '
    ensures CollapseDoubleSpaces([c] + x) == [c] + CollapseDoubleSpaces(x)
  {
    assert ([c] + x)[1..] == x;
  }

  /** Text without a line break is a single line, read back unchanged. */
  lemma OneLine(line: string)
    requires '\n' !in line && line != []
    ensures Lines(line) == [line]
  {
    LinesLast(line);
  }

  /** Two tabs between tab-free words become sixteen spaces. */
  lemma ExpandTwoTabs(a: string, b: string)
    requires '\t' !in a && '\t' !in b
    ensures ReplaceChar(a + ("\t" + ("\t" + b)), '\t', TabExpansion()) == a + Repeat(' ', 16) + b
  {
    var r := TabExpansion();
    ReplaceCharAppend(a, "\t" + ("\t" + b), '\t', r);
    ExpandLeadingTab("\t" + b);
    ExpandLeadingTab(b);
    TwoExpansions();
  }

  /** Two tab expansions side by side are sixteen spaces. */
  lemma TwoExpansions()
    ensures TabExpansion() + TabExpansion() == Repeat(' ', 16)
  {
  }

  /** A one-line text with a tab and no double space has its tabs expanded and nothing else. */
  lemma TabsOnlyLine(text: string)
    requires '\t' in text && !HasDoubleSpace(text) && '\n' !in text
    ensures Normalized(text) == ReplaceChar(text, '\t', TabExpansion())
  {
    OneLine(text);
    assert NormalizeLines([text], true, false) == [ReplaceChar(text, '\t', TabExpansion())];
  }

  /** The characters of the source's test input `hello<TAB><TAB>world`. */
  lemma TabsOnlyInput(text: string, a: string, b: string)
    requires a == "hello" && b == "world" && text == a + ("\t" + ("\t" + b))
    ensures '\t' in text && !HasDoubleSpace(text) && '\n' !in text
    ensures '\t' !in a && '\t' !in b
  {
    assert text == ['h', 'e', 'l', 'l', 'o', '\t', '\t', 'w', 'o', 'r', 'l', 'd'];
    assert text[5] == '\t';
  }

  /**
   * The source's test input `hello<TAB><TAB>world` has tabs but no double
   * space, so each tab becomes eight spaces and nothing is collapsed: sixteen
   * spaces stand between the words.
   */
  lemma ExampleTabsOnly(text: string, a: string, b: string)
    requires a == "hello" && b == "world" && text == a + ("\t" + ("\t" + b))
    ensures Normalized(text) == a + Repeat(' ', 16) + b
    ensures '\t' !in Normalized(text)
  {
    NormalizedHasNoTab(text);
    TabsOnlyInput(text, a, b);
    TabsOnlyLine(text);
    ExpandTwoTabs(a, b);
  }

  /** A one-line text without a tab is collapsed once. */
  lemma SpacesOnlyLine(text: string)
    requires '\t' !in text && HasDoubleSpace(text) && '\n' !in text
    ensures Normalized(text) == CollapseDoubleSpaces(text)
  {
    OneLine(text);
    assert NormalizeLines([text], false, true) == [CollapseDoubleSpaces(text)];
  }

  /** A character other than a space, alone. */
  lemma CollapseSingle(c: char)
    requires c != ' '
    ensures CollapseDoubleSpaces([c]) == [c]
  {
    CollapseKeepsHead(c, []);
    assert [c] + [] == [c];
  }

  /** A single space before another character is kept. */
  lemma CollapseLoneSpace(b: char)
    requires b != ' '
    ensures CollapseDoubleSpaces([' ', b]) == [' ', b]
  {
    assert [' ', b][1..] == [b];
    CollapseSingle(b);
  }

  /** Three spaces between two other characters become two. */
  lemma CollapseThree(a: char, b: char)
    requires a != ' ' && b != ' '
    ensures CollapseDoubleSpaces([a, ' ', ' ', ' ', b]) == [a, ' ', ' ', b]
  {
    assert [a, ' ', ' ', ' ', b] == [a] + [' ', ' ', ' ', b];
    CollapseKeepsHead(a, [' ', ' ', ' ', b]);
    assert [' ', ' ', ' ', b][2..] == [' ', b];
    CollapseLoneSpace(b);
    assert CollapseDoubleSpaces([' ', ' ', ' ', b]) == " " + [' ', b];
  }

  /** `a   b` has a double space: one pass turns its three spaces into two. */
  lemma ExampleThreeSpaces(text: string)
    requires text == "a   b"
    ensures Normalized(text) == "a  b"
  {
    assert Normalized(text) == CollapseDoubleSpaces(text) by {
      assert text == ['a', ' ', ' ', ' ', 'b'];
      assert PairAt(text, 1);
      assert '\t' !in text && '\n' !in text;
      SpacesOnlyLine(text);
    }
    assert CollapseDoubleSpaces(text) == "a  b" by {
      assert text == ['a', ' ', ' ', ' ', 'b'];
      CollapseThree('a', 'b');
    }
  }

  /** Two spaces between two other characters become one. */
  lemma CollapseTwo(a: char, b: char)
    requires a != ' ' && b != ' '
    ensures CollapseDoubleSpaces([a, ' ', ' ', b]) == [a, ' ', b]
  {
    assert [a, ' ', ' ', b] == [a] + [' ', ' ', b];
    CollapseKeepsHead(a, [' ', ' ', b]);
    assert [' ', ' ', b][2..] == [b];
    CollapseSingle(b);
    assert CollapseDoubleSpaces([' ', ' ', b]) == " " + [b];
  }

  /** A final newline is not reproduced once the text takes the line-by-line path. */
  lemma ExampleTrailingNewline(text: string, line: string)
    requires line == "a  b" && text == line + "\n"
    ensures Normalized(text) == "a b"
  {
    assert Lines(text) == [line] by {
      assert '\n' !in line;
      LinesCons(line, "");
      assert line + "\n" + "" == text;
    }
    assert Normalized(text) == CollapseDoubleSpaces(line) by {
      assert text == ['a', ' ', ' ', 'b', '\n'];
      assert PairAt(text, 1);
      assert '\t' !in text;
      assert NormalizeLines([line], false, true) == [CollapseDoubleSpaces(line)];
    }
    assert CollapseDoubleSpaces(line) == "a b" by {
      assert line == ['a', ' ', ' ', 'b'];
      CollapseTwo('a', 'b');
    }
  }

  /** A tab between two other characters, then the pass over the eight spaces. */
  lemma TabThenCollapse(a: char, b: char)
    requires a != ' ' && a != '\t' && b != ' ' && b != '\t'
    ensures CollapseDoubleSpaces(ReplaceChar([a, '\t', b], '\t', TabExpansion())) == [a] + Repeat(' ', 4) + [b]
  {
    var r := TabExpansion();
    assert [a, '\t', b] == [a] + ("\t" + [b]);
    ReplaceCharAppend([a], "\t" + [b], '\t', r);
    ExpandLeadingTab([b]);
    assert ReplaceChar([a], '\t', r) == [a] && ReplaceChar([b], '\t', r) == [b];
    CollapseKeepsHead(a, r + [b]);
    assert r == Repeat(' ', 2 * 4);
    CollapseEvenRun(4, [b]);
    CollapseKeepsHead(b, []);
  }

  /** The transform of the lines of a two-line text that has both a tab and a double space. */
  lemma TwoLinesBothFlags(text: string, l0: string, l1: string)
    requires '\t' in text && HasDoubleSpace(text)
    requires '\n' !in l0 && '\n' !in l1 && l0 != [] && l0[|l0| - 1] != '\r' && l1 != []
    requires text == l0 + "\n" + l1
    ensures Normalized(text) == NormalizeLine(l0, true, true) + "\n" + NormalizeLine(l1, true, true)
  {
    LinesCons(l0, l1);
    OneLine(l1);
    var lines := NormalizeLines([l0, l1], true, true);
    assert Join(lines, "\n") == lines[0] + "\n" + Join(lines[1..], "\n");
  }

  /** The facts about the two-line input that decide its flags and lines. */
  lemma FlagsPerTextInput(text: string, l0: string, l1: string)
    requires l0 == "a\tb" && l1 == "c  d" && text == l0 + "\n" + l1
    ensures '\t' in text && HasDoubleSpace(text)
    ensures '\n' !in l0 && '\n' !in l1 && l0 != [] && l0[|l0| - 1] != '\r' && l1 != []
  {
    assert text == ['a', '\t', 'b', '\n', 'c', ' ', ' ', 'd'];
    assert text[1] == '\t';
    assert PairAt(text, 5);
  }

  /** The first line: its tab becomes eight spaces, which collapse to four. */
  lemma FlagsPerTextFirst(l0: string)
    requires l0 == "a\tb"
    ensures NormalizeLine(l0, true, true) == "a    b"
  {
    assert l0 == ['a', '\t', 'b'];
    TabThenCollapse('a', 'b');
    assert ['a'] + Repeat(' ', 4) + ['b'] == "a    b";
  }

  /** The second line: its double space collapses. */
  lemma FlagsPerTextSecond(l1: string)
    requires l1 == "c  d"
    ensures NormalizeLine(l1, true, true) == "c d"
  {
    assert l1 == ['c', ' ', ' ', 'd'];
    assert ReplaceChar(l1, '\t', TabExpansion()) == l1;
    CollapseTwo('c', 'd');
  }

  /**
   * The flags belong to the whole text: a double space on one line makes the
   * eight spaces of a tab on another line collapse to four.
   */
  lemma ExampleFlagsPerText(text: string, l0: string, l1: string)
    requires l0 == "a\tb" && l1 == "c  d" && text == l0 + "\n" + l1
    ensures Normalized(text) == "a    b" + "\n" + "c d"
  {
    FlagsPerTextInput(text, l0, l1);
    TwoLinesBothFlags(text, l0, l1);
    FlagsPerTextFirst(l0);
    FlagsPerTextSecond(l1);
  }
}
