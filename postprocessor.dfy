/**
 * Clean-up of the assembled command tree and the text-level clean-ups
 * (src/postprocessor.rs): dropping duplicate and invalid options at every
 * depth, removing one leading bullet per line, and mapping exotic spaces
 * and tabs to ASCII spaces.
 */
module Postprocessor {
  import opened Strings
  import opened Types
  import Seqs

  // ------------------------------------------------------------ options


  /**
   * The key `deduplicate_options` compares: the raw names joined by `|`, and
   * the argument. Name types and the description are not part of it.
   */
  function DedupKey(o: Opt): (string, string) {
    (Join(Seqs.Map(o.names, RawOf), "|"), o.argument)
  }

  /** What `deduplicate_options` returns: the first option for each key, in input order. */
  function Deduplicated(options: seq<Opt>): seq<Opt> {
    Seqs.DedupBy(options, DedupKey)
  }

  /**
   * The deduplicated options have distinct keys, cover every key of the
   * input, and are a subsequence of it.
   */
  lemma DeduplicatedProperties(options: seq<Opt>)
    ensures Seqs.DistinctKeys(Deduplicated(options), DedupKey)
    ensures Seqs.KeySet(Deduplicated(options), DedupKey) == Seqs.KeySet(options, DedupKey)
    ensures Seqs.IsSubsequence(Deduplicated(options), options)
  {
    Seqs.DedupByProperties(options, DedupKey);
  }

  /** An option is kept exactly when no earlier option has its key. */
  lemma DeduplicatedKeepsFirst(options: seq<Opt>, o: Opt)
    ensures Deduplicated(options + [o]) ==
              if DedupKey(o) in Seqs.KeySet(options, DedupKey) then Deduplicated(options)
              else Deduplicated(options) + [o]
  {
    Seqs.DedupByKeepsFirst(options, o, DedupKey);
  }

  /**
   * Two options with the same names and argument collapse to the first,
   * whatever their descriptions.
   */
  lemma SameKeyCollapses(o1: Opt, o2: Opt)
    requires o1.names == o2.names && o1.argument == o2.argument
    ensures Deduplicated([o1, o2]) == [o1]
  {
    assert [o1, o2] == [o1] + [o2] && [o1] == [] + [o1];
    DeduplicatedKeepsFirst([], o1);
    DeduplicatedKeepsFirst([o1], o2);
    Seqs.KeySetSnoc([], o1, DedupKey);
  }

  /** `Postprocessor::deduplicate_options`: a loop over the options with a `seen` set of keys. */
  method DeduplicateOptions(options: seq<Opt>) returns (result: seq<Opt>)
    ensures result == Deduplicated(options)
  {
    var seen: set<(string, string)> := {};
    result := [];
    for k := 0 to |options|
      invariant result == Deduplicated(options[..k])
      invariant seen == Seqs.KeySet(options[..k], DedupKey)
    {
      var opt := options[k];
      var key := (Join(Seqs.Map(opt.names, RawOf), "|"), opt.argument);
      assert options[..k + 1] == options[..k] + [opt];
      DeduplicatedKeepsFirst(options[..k], opt);
      Seqs.KeySetSnoc(options[..k], opt, DedupKey);
      if key !in seen {
        seen := seen + {key};
        result := result + [opt];
      }
    }
    assert options[..|options|] == options;
  }

  /** The validity test of `filter_invalid_options`. */
  predicate IsValidOpt(o: Opt) {
    o.names != [] && o.names[0].raw != [] && o.description != []
  }

  /** `Postprocessor::filter_invalid_options`: exactly the valid options, in their order. */
  function FilterInvalidOptions(options: seq<Opt>): (r: seq<Opt>)
    ensures forall o :: o in r <==> o in options && IsValidOpt(o)
    ensures Seqs.IsSubsequence(r, options)
  {
    Seqs.FilterProperties(options, IsValidOpt);
    Seqs.Filter(options, IsValidOpt)
  }

  /** The options `fix_command` leaves at one node: deduplicated, then filtered. */
  function FixOptions(options: seq<Opt>): seq<Opt> {
    FilterInvalidOptions(Deduplicated(options))
  }

  /** The fixed options are valid, have distinct keys and are a subsequence of the input. */
  lemma FixOptionsProperties(options: seq<Opt>)
    ensures forall i :: 0 <= i < |FixOptions(options)| ==> IsValidOpt(FixOptions(options)[i])
    ensures Seqs.DistinctKeys(FixOptions(options), DedupKey)
    ensures Seqs.IsSubsequence(FixOptions(options), options)
  {
    var d := Deduplicated(options);
    DeduplicatedProperties(options);
    Seqs.FilterKeepsDistinct(d, IsValidOpt, DedupKey);
    Seqs.SubsequenceTransitive(FilterInvalidOptions(d), d, options);
    forall i | 0 <= i < |FixOptions(options)| ensures IsValidOpt(FixOptions(options)[i]) {
      assert FixOptions(options)[i] in FilterInvalidOptions(d);
    }
  }

  /** Options that are valid and have distinct keys are left as they are. */
  lemma {:induction false} FixOptionsOfClean(options: seq<Opt>)
    requires forall i :: 0 <= i < |options| ==> IsValidOpt(options[i])
    requires Seqs.DistinctKeys(options, DedupKey)
    ensures FixOptions(options) == options
  {
    Seqs.DedupByOfDistinct(options, DedupKey);
    Seqs.FilterAll(options, IsValidOpt);
  }

  // --------------------------------------------------------------- tree

  /**
   * `Postprocessor::fix_command`: fixes this node's options and every
   * subcommand, and changes nothing else.
   */
  function FixCommand(c: Command): (r: Command)
    ensures r.name == c.name && r.description == c.description
    ensures r.usage == c.usage && r.version == c.version
    ensures |r.subcommands| == |c.subcommands|
    ensures forall i :: 0 <= i < |c.subcommands| ==> r.subcommands[i] == FixCommand(c.subcommands[i])
    ensures r.options == FixOptions(c.options)
    decreases c
  {
    c.(options := FixOptions(c.options),
       subcommands := seq(|c.subcommands|, i requires 0 <= i < |c.subcommands| => FixCommand(c.subcommands[i])))
  }

  /** Every option at every depth is valid. */
  predicate AllOptionsValid(c: Command)
    decreases c
  {
    && (forall i :: 0 <= i < |c.options| ==> IsValidOpt(c.options[i]))
    && (forall i :: 0 <= i < |c.subcommands| ==> AllOptionsValid(c.subcommands[i]))
  }

  /** At every depth, no two options share a deduplication key. */
  predicate AllKeysDistinct(c: Command)
    decreases c
  {
    && Seqs.DistinctKeys(c.options, DedupKey)
    && (forall i :: 0 <= i < |c.subcommands| ==> AllKeysDistinct(c.subcommands[i]))
  }

  /** After `fix_command` every option anywhere in the tree is valid and keys are distinct. */
  lemma {:induction false} FixCommandCleans(c: Command)
    ensures AllOptionsValid(FixCommand(c))
    ensures AllKeysDistinct(FixCommand(c))
    decreases c
  {
    FixOptionsProperties(c.options);
    forall i | 0 <= i < |c.subcommands|
      ensures AllOptionsValid(FixCommand(c).subcommands[i])
      ensures AllKeysDistinct(FixCommand(c).subcommands[i])
    {
      FixCommandCleans(c.subcommands[i]);
    }
  }

  /** A tree that is already clean is a fixed point of `fix_command`. */
  lemma {:induction false} FixCommandOfClean(c: Command)
    requires AllOptionsValid(c) && AllKeysDistinct(c)
    ensures FixCommand(c) == c
    decreases c
  {
    FixOptionsOfClean(c.options);
    forall i | 0 <= i < |c.subcommands| ensures FixCommand(c.subcommands[i]) == c.subcommands[i] {
      FixCommandOfClean(c.subcommands[i]);
    }
    assert FixCommand(c).subcommands == c.subcommands;
  }

  /** `fix_command` is idempotent. */
  lemma FixCommandIdempotent(c: Command)
    ensures FixCommand(FixCommand(c)) == FixCommand(c)
  {
    FixCommandCleans(c);
    FixCommandOfClean(FixCommand(c));
  }

  /** The keys of the options in the clean-up example. */
  lemma ExampleKeys(v: Opt, bad: Opt)
    requires v == Opt([OptName("-v", ShortType)], "", "verbose") && bad == Opt([], "", "")
    ensures DedupKey(v) == ("-v", "") && DedupKey(bad) == ("", "")
    ensures IsValidOpt(v) && !IsValidOpt(bad)
  {
    assert Seqs.Map(v.names, RawOf) == ["-v"];
  }

  /** A single option is kept, if valid. */
  lemma FixOptionsSingle(o: Opt)
    requires IsValidOpt(o)
    ensures FixOptions([o]) == [o]
  {
    assert [o] == [] + [o];
    DeduplicatedKeepsFirst([], o);
    assert Deduplicated([o]) == [o];
    assert [o][..0] == [];
    assert Seqs.Filter([o], IsValidOpt) == [o];
  }

  /** A repeated option followed by one with another key. */
  lemma DeduplicatedRepeat(o: Opt, p: Opt)
    requires DedupKey(o) != DedupKey(p)
    ensures Deduplicated([o, o, p]) == [o, p]
  {
    SameKeyCollapses(o, o);
    DeduplicatedKeepsFirst([o, o], p);
    assert [o, o] + [p] == [o, o, p];
    Seqs.KeySetSnoc([o], o, DedupKey);
    Seqs.KeySetSnoc([], o, DedupKey);
    assert [o] + [o] == [o, o] && [] + [o] == [o];
  }

  /** Filtering a valid option followed by an invalid one. */
  lemma FilterValidInvalid(o: Opt, p: Opt)
    requires IsValidOpt(o) && !IsValidOpt(p)
    ensures FilterInvalidOptions([o, p]) == [o]
  {
    assert [o, p][..1] == [o] && [o][..0] == [];
    assert Seqs.Filter([o], IsValidOpt) == [o];
    assert Seqs.Filter([o, p], IsValidOpt) == [o];
  }

  /** The options of the clean-up example: a duplicate and an invalid option disappear. */
  lemma ExampleFixOptions(v: Opt, bad: Opt)
    requires v == Opt([OptName("-v", ShortType)], "", "verbose") && bad == Opt([], "", "")
    ensures FixOptions([v, v, bad]) == [v]
    ensures FixOptions([v]) == [v]
  {
    ExampleKeys(v, bad);
    DeduplicatedRepeat(v, bad);
    FilterValidInvalid(v, bad);
    FixOptionsSingle(v);
  }

  /**
   * The clean-up example from the source's tests: a root with a duplicated
   * option and an invalid one, and a child with one option.
   */
  lemma ExampleFixCommand(v: Opt, bad: Opt, child: Command, root: Command)
    requires v == Opt([OptName("-v", ShortType)], "", "verbose") && bad == Opt([], "", "")
    requires child == Command("child", "", "", [v], [], "")
    requires root == Command("root", "", "", [v, v, bad], [child], "")
    ensures FixCommand(root).options == [v]
    ensures |FixCommand(root).subcommands| == 1
    ensures FixCommand(root).subcommands[0].options == [v]
  {
    ExampleFixOptions(v, bad);
  }

  // ------------------------------------------------------------ bullets

  /**
   * The bullet test of `remove_bullets` on a line's left-trimmed text, read
   * on characters: `*`, `-` or `•` are the only characters whose UTF-8
   * encodings the byte test accepts, and the byte after the bullet is ASCII
   * whitespace exactly when the next character is.
   */
  predicate IsBullet(t: string) {
    |t| >= 2 && (t[0] == '*' || t[0] == '-' || t[0] == '\U{2022}') && IsAsciiWhitespace(t[1])
  }

  /** The leading whitespace of a line. */
  function Indentation(line: string): (r: string)
    ensures AllWhitespace(r) && line == r + TrimStart(line)
  {
    line[..|line| - |TrimStart(line)|]
  }

  /** One line of `remove_bullets`: a bullet line loses its bullet and the whitespace after it. */
  function RemoveBullet(line: string): string {
    var trimmed := TrimStart(line);
    if IsBullet(trimmed) then Indentation(line) + TrimStart(trimmed[2..]) else line
  }

  /**
   * A line is unchanged unless it is a bullet line. A bullet line is its
   * indentation, the bullet and one ASCII space, more whitespace and a rest
   * that does not start with whitespace; only the indentation and the rest
   * remain.
   */
  lemma RemoveBulletShape(line: string)
    ensures !IsBullet(TrimStart(line)) ==> RemoveBullet(line) == line
    ensures IsBullet(TrimStart(line)) ==>
              var t := TrimStart(line);
              var rest := TrimStart(t[2..]);
              && line == Indentation(line) + t[..2] + Indentation(t[2..]) + rest
              && (rest == [] || !IsWhitespace(rest[0]))
              && RemoveBullet(line) == Indentation(line) + rest
  {
    var t := TrimStart(line);
    if IsBullet(t) {
      var tail := t[2..];
      SplitAfterTwo(line, Indentation(line), t, Indentation(tail), TrimStart(tail));
    }
  }

  /** The pieces the loop of `remove_bullets` appends for one line. */
  lemma BulletPieces(line: string)
    ensures var t := TrimStart(line);
            RemoveBullet(line) == if IsBullet(t) then line[..|line| - |t|] + TrimStart(t[2..]) else line
  {
  }

  /** Regrouping a line split around a two-character head. */
  lemma SplitAfterTwo(line: string, ind: string, t: string, gap: string, rest: string)
    requires |t| >= 2 && line == ind + t && t[2..] == gap + rest
    ensures line == ind + t[..2] + gap + rest
  {
    assert t == t[..2] + t[2..];
  }

  /** What `remove_bullets` returns: each line with its bullet removed, joined by `\n`. */
  function BulletsRemoved(text: string): string {
    Join(Seqs.Map(Lines(text), RemoveBullet), "\n")
  }

  /** Processing one more line appends it after a newline, unless it is the first one. */
  lemma BulletsStep(lines: seq<string>, k: nat)
    requires k < |lines|
    ensures Join(Seqs.Map(lines[..k + 1], RemoveBullet), "\n") ==
              if k == 0 then RemoveBullet(lines[0])
              else Join(Seqs.Map(lines[..k], RemoveBullet), "\n") + "\n" + RemoveBullet(lines[k])
  {
    var before := Seqs.Map(lines[..k], RemoveBullet);
    assert Seqs.Map(lines[..k + 1], RemoveBullet) == before + [RemoveBullet(lines[k])] by {
      assert lines[..k + 1][..k] == lines[..k];
    }
    if k > 0 {
      Strings.JoinSnoc(before, RemoveBullet(lines[k]), "\n");
    } else {
      assert before == [];
    }
  }

  /** `Postprocessor::remove_bullets`: one pass over the lines guarded by a `first` flag. */
  method RemoveBullets(text: string) returns (result: string)
    ensures result == BulletsRemoved(text)
  {
    var lines := Lines(text);
    result := [];
    var first := true;
    for k := 0 to |lines|
      invariant first <==> k == 0
      invariant result == Join(Seqs.Map(lines[..k], RemoveBullet), "\n")
    {
      BulletsStep(lines, k);
      if !first {
        result := result + "\n";
      }
      first := false;
      var line := lines[k];
      var trimmed := TrimStart(line);
      var prefixLen := |line| - |trimmed|;
      BulletPieces(line);
      if IsBullet(trimmed) {
        ghost var before := result;
        result := result + line[..prefixLen];
        result := result + TrimStart(trimmed[2..]);
        Seqs.AppendAssoc(before, line[..prefixLen], TrimStart(trimmed[2..]));
        continue;
      }
      result := result + line;
    }
    assert lines[..|lines|] == lines;
  }

  /** A line that starts with a bullet and one space loses exactly those two characters. */
  lemma BulletAtStart(c: char, rest: string)
    requires c == '*' || c == '-' || c == '\U{2022}'
    requires rest != [] && !IsWhitespace(rest[0])
    ensures RemoveBullet([c, ' '] + rest) == rest
  {
    var line := [c, ' '] + rest;
    assert !IsWhitespace(c);
    TrimStartAppend([], line);
    TrimStartAppend([], rest);
    assert [] + line == line && [] + rest == rest;
    assert line[2..] == rest;
  }

  /** Three lines, the last without a newline. */
  lemma LinesOfThree(a: string, b: string, c: string)
    requires '\n' !in a && '\n' !in b && '\n' !in c
    requires a != [] && a[|a| - 1] != '\r' && b != [] && b[|b| - 1] != '\r' && c != []
    ensures Lines(a + "\n" + (b + "\n" + c)) == [a, b, c]
  {
    LinesCons(a, b + "\n" + c);
    LinesCons(b, c);
    LinesLast(c);
  }

  /** Joining the images of three lines. */
  lemma JoinMapThree(l0: string, l1: string, l2: string, f: string -> string)
    ensures Join(Seqs.Map([l0, l1, l2], f), "\n") == f(l0) + "\n" + (f(l1) + "\n" + f(l2))
  {
    var parts := [f(l0), f(l1), f(l2)];
    assert Seqs.Map([l0, l1, l2], f) == parts;
    assert parts[1..] == [f(l1), f(l2)] && parts[1..][1..] == [f(l2)];
    assert Join(parts[1..][1..], "\n") == f(l2);
    assert Join(parts[1..], "\n") == f(l1) + "\n" + f(l2);
  }

  /** The lines of the bullet example. */
  lemma ExampleBulletLines(text: string, a: string, b: string, c: string)
    requires a == "Item one" && b == "Item two" && c == "Item three"
    requires text == (['\U{2022}', ' '] + a) + "\n" + ((['*', ' '] + b) + "\n" + (['-', ' '] + c))
    ensures Lines(text) == [['\U{2022}', ' '] + a, ['*', ' '] + b, ['-', ' '] + c]
  {
    var l0, l1, l2 := ['\U{2022}', ' '] + a, ['*', ' '] + b, ['-', ' '] + c;
    assert l0[|l0| - 1] == 'e' && l1[|l1| - 1] == 'o';
    LinesOfThree(l0, l1, l2);
  }

  /**
   * The bullet example from the source's tests: each line drops its bullet
   * (`•`, `*`, `-`) and the space after it, so no `•` is left.
   */
  lemma ExampleBullets(text: string, a: string, b: string, c: string)
    requires a == "Item one" && b == "Item two" && c == "Item three"
    requires text == (['\U{2022}', ' '] + a) + "\n" + ((['*', ' '] + b) + "\n" + (['-', ' '] + c))
    ensures BulletsRemoved(text) == a + "\n" + (b + "\n" + c)
  {
    ExampleBulletLines(text, a, b, c);
    assert !IsWhitespace('I');
    BulletAtStart('\U{2022}', a);
    BulletAtStart('*', b);
    BulletAtStart('-', c);
    JoinMapThree(['\U{2022}', ' '] + a, ['*', ' '] + b, ['-', ' '] + c, RemoveBullet);
  }

  /** A character in none of three lines is not in their join. */
  lemma GlyphNotInJoin(a: string, b: string, c: string)
    requires '\U{2022}' !in a && '\U{2022}' !in b && '\U{2022}' !in c
    ensures '\U{2022}' !in a + "\n" + (b + "\n" + c)
  {
  }

  /** No bullet glyph is left in the example's result. */
  lemma ExampleBulletGone(text: string, a: string, b: string, c: string)
    requires a == "Item one" && b == "Item two" && c == "Item three"
    requires text == (['\U{2022}', ' '] + a) + "\n" + ((['*', ' '] + b) + "\n" + (['-', ' '] + c))
    ensures '\U{2022}' !in BulletsRemoved(text)
  {
    ExampleBullets(text, a, b, c);
    assert '\U{2022}' !in a && '\U{2022}' !in b && '\U{2022}' !in c;
    GlyphNotInJoin(a, b, c);
  }

  // ------------------------------------------------------------- spaces

  /** The three non-ASCII spaces `unicode_spaces_to_ascii` replaces. */
  predicate IsUnicodeSpace(c: char) {
    c == '\U{00A0}' || c == '\U{2003}' || c == '\U{2002}'
  }

  /** One character of `unicode_spaces_to_ascii`: one, three or two spaces, or the character itself. */
  function AsciiSpaces(c: char): (r: string)
    ensures IsUnicodeSpace(c) ==> forall i :: 0 <= i < |r| ==> r[i] == ' '
    ensures c == '\U{00A0}' ==> |r| == 1
    ensures c == '\U{2003}' ==> |r| == 3
    ensures c == '\U{2002}' ==> |r| == 2
    ensures !IsUnicodeSpace(c) ==> r == [c]
  {
    match c
    case '\U{00A0}' => " "
    case '\U{2003}' => "   "
    case '\U{2002}' => "  "
    case _ => [c]
  }

  /** What `unicode_spaces_to_ascii` returns: each character replaced by its ASCII spaces. */
  function UnicodeSpacesReplaced(text: string): string {
    Seqs.FlatMap(text, AsciiSpaces)
  }

  /** Text without any of the three spaces is its own image: the fast path agrees with the loop. */
  lemma {:induction false} NoUnicodeSpaceUnchanged(text: string)
    requires forall i :: 0 <= i < |text| ==> !IsUnicodeSpace(text[i])
    ensures UnicodeSpacesReplaced(text) == text
  {
    if text != [] {
      var init := text[..|text| - 1];
      NoUnicodeSpaceUnchanged(init);
      assert init + [text[|text| - 1]] == text;
    }
  }

  /** None of the three spaces survives, and every other character of the result was in the text or is a space. */
  lemma {:induction false} UnicodeSpacesGone(text: string)
    ensures forall i :: 0 <= i < |UnicodeSpacesReplaced(text)| ==> !IsUnicodeSpace(UnicodeSpacesReplaced(text)[i])
    ensures forall d :: d in UnicodeSpacesReplaced(text) ==> d == ' ' || d in text
  {
    if text != [] {
      var init := text[..|text| - 1];
      var c := text[|text| - 1];
      UnicodeSpacesGone(init);
      assert UnicodeSpacesReplaced(text) == UnicodeSpacesReplaced(init) + AsciiSpaces(c);
      forall d | d in UnicodeSpacesReplaced(text) ensures d == ' ' || d in text {
        if d in UnicodeSpacesReplaced(init) && d != ' ' {
          var j :| 0 <= j < |init| && init[j] == d;
          assert text[j] == d;
        }
      }
    }
  }

  /**
   * `Postprocessor::unicode_spaces_to_ascii`: when none of the three spaces
   * occurs the text is returned as it is; otherwise one pass pushes each
   * character's replacement. A byte search for a whole UTF-8 encoding finds
   * exactly the occurrences of that character.
   */
  method UnicodeSpacesToAscii(text: string) returns (result: string)
    ensures result == UnicodeSpacesReplaced(text)
  {
    var hasNbsp := '\U{00A0}' in text;
    var hasEm := '\U{2003}' in text;
    var hasEn := '\U{2002}' in text;
    if !hasNbsp && !hasEm && !hasEn {
      NoUnicodeSpaceUnchanged(text);
      return text;
    }
    result := [];
    for k := 0 to |text|
      invariant result == Seqs.FlatMap(text[..k], AsciiSpaces)
    {
      Seqs.FlatMapPrefix(text, k, AsciiSpaces);
      var c := text[k];
      match c
      case '\U{00A0}' => result := result + [' '];
      case '\U{2003}' => result := result + "   ";
      case '\U{2002}' => result := result + "  ";
      case _ => result := result + [c];
    }
    assert text[..|text|] == text;
  }

  /**
   * `Postprocessor::convert_tabs_to_spaces`: every tab becomes `spaces`
   * spaces; the fast path for text without tabs agrees with the replacement.
   */
  function ConvertTabsToSpaces(text: string, spaces: nat): (r: string)
    ensures '\t' !in r
    ensures r == ReplaceChar(text, '\t', Repeat(' ', spaces))
    ensures '\t' !in text ==> r == text
  {
    if '\t' !in text then text else ReplaceChar(text, '\t', Repeat(' ', spaces))
  }

  /** A text with one tab: the tab becomes `spaces` spaces and the rest is kept. */
  lemma ConvertOneTab(a: string, b: string, spaces: nat)
    requires '\t' !in a && '\t' !in b
    ensures ConvertTabsToSpaces(a + "\t" + b, spaces) == a + Repeat(' ', spaces) + b
  {
    var rep := Repeat(' ', spaces);
    ReplaceCharAppend(a + "\t", b, '\t', rep);
    ReplaceCharAppend(a, "\t", '\t', rep);
    ReplaceTab(rep);
    assert ReplaceChar(a + "\t", '\t', rep) == a + rep;
  }

  /** A lone tab becomes the replacement. */
  lemma ReplaceTab(rep: string)
    ensures ReplaceChar("\t", '\t', rep) == rep
  {
    assert ReplaceChar("\t", '\t', rep) == rep + ReplaceChar([], '\t', rep);
  }

  /** Replacing the spaces of a concatenation replaces them in each part. */
  lemma UnicodeSpacesAppend(a: string, b: string)
    ensures UnicodeSpacesReplaced(a + b) == UnicodeSpacesReplaced(a) + UnicodeSpacesReplaced(b)
  {
    Seqs.FlatMapAppend(a, b, AsciiSpaces);
  }

  /** A single character is replaced by its ASCII spaces. */
  lemma UnicodeSpacesSingle(c: char)
    ensures UnicodeSpacesReplaced([c]) == AsciiSpaces(c)
  {
    Seqs.FlatMapSnoc([], c, AsciiSpaces);
    assert [] + [c] == [c];
  }

  /** Replacing around one character. */
  lemma UnicodeSpacesAround(a: string, c: char, b: string)
    ensures UnicodeSpacesReplaced(a + [c] + b) ==
              UnicodeSpacesReplaced(a) + AsciiSpaces(c) + UnicodeSpacesReplaced(b)
  {
    UnicodeSpacesAppend(a + [c], b);
    UnicodeSpacesAppend(a, [c]);
    UnicodeSpacesSingle(c);
  }

  /**
   * The first half of the source's example: the no-break, en and em spaces
   * become one, two and three spaces; the tab stays.
   */
  lemma ExampleUnicodeSpaces(text: string, foo: string, bar: string, rest: string)
    requires foo == "foo" && bar == "bar" && rest == "baz\tend"
    requires text == ['\U{00A0}'] + foo + ['\U{2002}'] + bar + ['\U{2003}'] + rest
    ensures UnicodeSpacesReplaced(text) == " " + foo + "  " + bar + "   " + rest
  {
    assert forall i :: 0 <= i < |foo| ==> !IsUnicodeSpace(foo[i]);
    assert forall i :: 0 <= i < |bar| ==> !IsUnicodeSpace(bar[i]);
    assert forall i :: 0 <= i < |rest| ==> !IsUnicodeSpace(rest[i]);
    NoUnicodeSpaceUnchanged(foo);
    NoUnicodeSpaceUnchanged(bar);
    NoUnicodeSpaceUnchanged(rest);
    SpacedExample(foo, bar, rest);
  }

  /** Three words separated by the three spaces. */
  lemma SpacedExample(foo: string, bar: string, rest: string)
    requires UnicodeSpacesReplaced(foo) == foo && UnicodeSpacesReplaced(bar) == bar
    requires UnicodeSpacesReplaced(rest) == rest
    ensures UnicodeSpacesReplaced(['\U{00A0}'] + foo + ['\U{2002}'] + bar + ['\U{2003}'] + rest) ==
              " " + foo + "  " + bar + "   " + rest
  {
    var one := ['\U{00A0}'] + foo;
    var two := one + ['\U{2002}'] + bar;
    UnicodeSpacesAround(two, '\U{2003}', rest);
    UnicodeSpacesAround(one, '\U{2002}', bar);
    UnicodeSpacesAround([], '\U{00A0}', foo);
    assert [] + ['\U{00A0}'] + foo == one;
    assert UnicodeSpacesReplaced([]) == [];
    assert AsciiSpaces('\U{00A0}') == " " && AsciiSpaces('\U{2002}') == "  " && AsciiSpaces('\U{2003}') == "   ";
    assert UnicodeSpacesReplaced(one) == " " + foo;
    assert UnicodeSpacesReplaced(two) == " " + foo + "  " + bar;
  }

  /** The second half: converting the tab to four spaces leaves no tab and ends in `    end`. */
  lemma ExampleTabs(a: string, b: string)
    requires a == " foo  bar   baz" && b == "end"
    ensures ConvertTabsToSpaces(a + "\t" + b, 4) == a + "    " + b
  {
    ConvertOneTab(a, b, 4);
    assert Repeat(' ', 4) == "    ";
  }
}
