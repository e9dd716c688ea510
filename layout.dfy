/**
 * Layout analysis of help text (src/layout.rs): cutting the text into blocks
 * of option lines, parsing block by block, finding the usage section, and
 * measuring the column at which flags start.
 */
module Layout {
  import opened Wrappers
  import opened Strings
  import opened Types
  import Seqs
  import Parser

  // ------------------------------------------------------------- blocks

  /** A line that opens a block: dash-led once its indentation is trimmed. */
  predicate IsOptionLine(line: string) {
    StartsWithChar(TrimStart(line), '-')
  }

  /**
   * The variables of the `split_into_blocks_fast` loop, with the blocks and
   * the open block kept as their lists of lines.
   */
  datatype Segmenter = Segmenter(blocks: seq<seq<string>>, current: seq<string>, inBlock: bool)

  /** One iteration of the loop: a blank line closes an open block; option lines open one. */
  function SegmentStep(st: Segmenter, line: string): Segmenter {
    if IsBlank(line) then
      if st.inBlock && st.current != [] then Segmenter(st.blocks + [st.current], [], false) else st
    else if IsOptionLine(line) || st.inBlock then
      Segmenter(st.blocks, st.current + [line], true)
    else st
  }

  /** The loop run over a list of lines. */
  function Segment(lines: seq<string>): Segmenter {
    if lines == [] then Segmenter([], [], false)
    else SegmentStep(Segment(lines[..|lines| - 1]), lines[|lines| - 1])
  }

  /** The blocks of a list of lines, the block still open at the end included. */
  function BlockLines(lines: seq<string>): seq<seq<string>> {
    var st := Segment(lines);
    if st.current != [] then st.blocks + [st.current] else st.blocks
  }

  /** The text of a block: its lines joined by `\n`. */
  function JoinLines(ls: seq<string>): string {
    Join(ls, "\n")
  }

  /** The blocks of a help text, as `split_into_blocks_fast` returns them. */
  function SplitIntoBlocks(content: string): seq<string> {
    Seqs.Map(BlockLines(Lines(content)), JoinLines)
  }

  /** A block starts with an option line and holds no blank line. */
  predicate WellFormedBlock(b: seq<string>) {
    b != [] && IsOptionLine(b[0]) && forall k :: 0 <= k < |b| ==> !IsBlank(b[k])
  }

  /** What the loop keeps true: `in_block` exactly when the open block is non-empty, and every block well formed. */
  predicate SegmenterInvariant(st: Segmenter) {
    && (st.inBlock <==> st.current != [])
    && (st.current != [] ==> WellFormedBlock(st.current))
    && forall k :: 0 <= k < |st.blocks| ==> WellFormedBlock(st.blocks[k])
  }

  lemma SegmentPrefix(lines: seq<string>, i: nat)
    requires i < |lines|
    ensures Segment(lines[..i + 1]) == SegmentStep(Segment(lines[..i]), lines[i])
  {
    assert lines[..i + 1][..i] == lines[..i];
  }

  lemma {:induction false} SegmentKeepsInvariant(lines: seq<string>)
    ensures SegmenterInvariant(Segment(lines))
  {
    if lines != [] {
      var init := lines[..|lines| - 1];
      SegmentKeepsInvariant(init);
      SegmentStepKeeps(Segment(init), lines[|lines| - 1]);
    }
  }

  /** One iteration of the loop keeps its invariant. */
  lemma SegmentStepKeeps(st: Segmenter, line: string)
    requires SegmenterInvariant(st)
    ensures SegmenterInvariant(SegmentStep(st, line))
  {
    if !IsBlank(line) && (IsOptionLine(line) || st.inBlock) {
      var cur := st.current + [line];
      assert forall k :: 0 <= k < |cur| ==> !IsBlank(cur[k]) by {
        forall k | 0 <= k < |cur| ensures !IsBlank(cur[k]) {
          if k < |st.current| { assert cur[k] == st.current[k]; }
        }
      }
      if st.current != [] { assert cur[0] == st.current[0]; }
    } else if IsBlank(line) && st.inBlock && st.current != [] {
      var bs := st.blocks + [st.current];
      assert forall k :: 0 <= k < |bs| ==> WellFormedBlock(bs[k]) by {
        forall k | 0 <= k < |bs| ensures WellFormedBlock(bs[k]) {
          if k < |st.blocks| { assert bs[k] == st.blocks[k]; }
        }
      }
    }
  }

  /** Every block returned is well formed. */
  lemma BlocksWellFormed(lines: seq<string>)
    ensures forall k :: 0 <= k < |BlockLines(lines)| ==> WellFormedBlock(BlockLines(lines)[k])
  {
    SegmentKeepsInvariant(lines);
  }

  predicate NotBlank(line: string) {
    !IsBlank(line)
  }

  /**
   * Some option line of `lines` is followed, up to the end, by non-blank
   * lines only: the block it opened is still open.
   */
  ghost predicate OpenAtEnd(lines: seq<string>) {
    Seqs.HoldsSince(lines, IsOptionLine, NotBlank)
  }

  /** `in_block` is set exactly when an option line has been seen since the last blank line. */
  lemma {:induction false} InBlockIffOpen(lines: seq<string>)
    ensures Segment(lines).inBlock <==> OpenAtEnd(lines)
  {
    if lines != [] {
      var init := lines[..|lines| - 1];
      InBlockIffOpen(init);
      SegmentKeepsInvariant(init);
      Seqs.HoldsSinceSnoc(lines, IsOptionLine, NotBlank);
    }
  }

  /**
   * The lines the loop copies into blocks: each non-blank line that has an
   * option line at or before it with no blank line in between.
   */
  ghost function KeptLines(lines: seq<string>): seq<string> {
    if lines == [] then []
    else
      var last := lines[|lines| - 1];
      KeptLines(lines[..|lines| - 1]) + (if !IsBlank(last) && OpenAtEnd(lines) then [last] else [])
  }

  lemma {:induction false} SegmentCopiesKeptLines(lines: seq<string>)
    ensures Seqs.Flatten(Segment(lines).blocks) + Segment(lines).current == KeptLines(lines)
  {
    if lines != [] {
      var init := lines[..|lines| - 1];
      var line := lines[|lines| - 1];
      SegmentCopiesKeptLines(init);
      SegmentKeepsInvariant(init);
      InBlockIffOpen(lines);
      var st := Segment(init);
      if IsBlank(line) {
        if st.inBlock && st.current != [] {
          Seqs.FlattenSnoc(st.blocks, st.current);
        }
      } else if IsOptionLine(line) || st.inBlock {
        Seqs.AppendAssoc(Seqs.Flatten(st.blocks), st.current, [line]);
      }
    }
  }

  /**
   * The blocks hold the kept lines verbatim and in input order; every other
   * line (blank, or not dash-led outside a block) is dropped.
   */
  lemma BlocksCopyKeptLines(lines: seq<string>)
    ensures Seqs.Flatten(BlockLines(lines)) == KeptLines(lines)
  {
    SegmentCopiesKeptLines(lines);
    var st := Segment(lines);
    if st.current != [] {
      Seqs.FlattenSnoc(st.blocks, st.current);
    } else {
      assert Seqs.Flatten(st.blocks) + st.current == Seqs.Flatten(st.blocks);
    }
  }

  lemma {:induction false} NoOptionLineNoBlocks(lines: seq<string>)
    requires forall k :: 0 <= k < |lines| ==> !IsOptionLine(lines[k])
    ensures Segment(lines) == Segmenter([], [], false)
  {
    if lines != [] {
      NoOptionLineNoBlocks(lines[..|lines| - 1]);
    }
  }

  /** A line without `-` is not an option line. */
  lemma NoDashNotOptionLine(line: string)
    requires '-' !in line
    ensures !IsOptionLine(line)
  {
    var t := TrimStart(line);
    if t != [] {
      assert t[0] == line[|line| - |t|];
    }
  }

  /** The fast exit on a text without `-` returns what the loop would. */
  lemma NoDashNoBlocks(content: string)
    requires '-' !in content
    ensures SplitIntoBlocks(content) == []
  {
    var lines := Lines(content);
    forall k | 0 <= k < |lines| ensures !IsOptionLine(lines[k]) {
      if '-' in lines[k] {
        LinesChars(content, k, '-');
      }
      NoDashNotOptionLine(lines[k]);
    }
    NoOptionLineNoBlocks(lines);
  }

  /** A well-formed block has non-empty text. */
  lemma BlockTextNonEmpty(b: seq<string>)
    requires WellFormedBlock(b)
    ensures JoinLines(b) != []
  {
    assert b[0] != [] by { assert !IsBlank(b[0]); }
    JoinNonEmpty(b, "\n");
  }

  /** The open block's text after one more line. */
  lemma PushLine(cur: seq<string>, line: string)
    ensures JoinLines(cur + [line]) == (if cur == [] then line else JoinLines(cur) + "\n" + line)
  {
    if cur == [] {
      assert cur + [line] == [line];
    } else {
      JoinSnoc(cur, line, "\n");
    }
  }

  /**
   * `Layout::split_into_blocks_fast`: the fast exit when there is no `-`,
   * then the loop over lines with its `in_block` flag.
   */
  method SplitIntoBlocksFast(content: string) returns (blocks: seq<string>)
    ensures blocks == SplitIntoBlocks(content)
  {
    if '-' !in content {
      NoDashNoBlocks(content);
      return [];
    }
    var lines := Lines(content);
    blocks := [];
    var currentBlock: string := [];
    var inBlock := false;
    ghost var st := Segmenter([], [], false);
    for i := 0 to |lines|
      invariant st == Segment(lines[..i])
      invariant inBlock == st.inBlock
      invariant currentBlock == JoinLines(st.current)
      invariant blocks == Seqs.Map(st.blocks, JoinLines)
    {
      SegmentPrefix(lines, i);
      SegmentKeepsInvariant(lines[..i]);
      if st.current != [] {
        BlockTextNonEmpty(st.current);
      }
      var lineStr := lines[i];
      var trimmed := TrimStart(lineStr);
      if trimmed == [] {
        if inBlock && currentBlock != [] {
          Seqs.MapSnoc(st.blocks, st.current, JoinLines);
          blocks := blocks + [currentBlock];
          currentBlock := [];
          inBlock := false;
        }
      } else if StartsWithChar(trimmed, '-') || inBlock {
        PushLine(st.current, lineStr);
        if currentBlock != [] {
          currentBlock := currentBlock + "\n";
        }
        currentBlock := currentBlock + lineStr;
        inBlock := true;
      }
      st := SegmentStep(st, lineStr);
    }
    assert lines[..|lines|] == lines;
    SegmentKeepsInvariant(lines);
    if st.current != [] {
      BlockTextNonEmpty(st.current);
    }
    if currentBlock != [] {
      Seqs.MapSnoc(st.blocks, st.current, JoinLines);
      blocks := blocks + [currentBlock];
    }
  }
  // ------------------------------------------------- block-wise parsing

  /** `Layout::parse_blockwise`: the options of each block, concatenated in block order. */
  function ParseBlockwise(content: string): seq<Opt> {
    Seqs.FlatMap(SplitIntoBlocks(content), Parser.LineOpts)
  }

  /** What `Parser::preprocess` returns for one block. */
  function BlockPairs(block: string): seq<Parser.Pair> {
    Parser.Pairs(Lines(block))
  }

  /** `Layout::preprocess_blockwise`: the pairs of each block, concatenated in block order. */
  function PreprocessBlockwise(content: string): seq<Parser.Pair> {
    Seqs.FlatMap(SplitIntoBlocks(content), BlockPairs)
  }

  /**
   * The options of block `k` sit, unchanged and whole, between those of the
   * earlier and those of the later blocks: nothing is removed across blocks.
   */
  lemma ParseBlockwiseInBlockOrder(content: string, k: nat)
    requires k < |SplitIntoBlocks(content)|
    ensures var blocks := SplitIntoBlocks(content);
            ParseBlockwise(content) ==
              Seqs.FlatMap(blocks[..k], Parser.LineOpts) + Parser.LineOpts(blocks[k]) +
              Seqs.FlatMap(blocks[k + 1..], Parser.LineOpts)
  {
    Seqs.FlatMapSplit(SplitIntoBlocks(content), k, Parser.LineOpts);
  }

  /** The same for the pairs of `preprocess_blockwise`. */
  lemma PreprocessBlockwiseInBlockOrder(content: string, k: nat)
    requires k < |SplitIntoBlocks(content)|
    ensures var blocks := SplitIntoBlocks(content);
            PreprocessBlockwise(content) ==
              Seqs.FlatMap(blocks[..k], BlockPairs) + BlockPairs(blocks[k]) +
              Seqs.FlatMap(blocks[k + 1..], BlockPairs)
  {
    Seqs.FlatMapSplit(SplitIntoBlocks(content), k, BlockPairs);
  }

  lemma BlockOptsMembers(blocks: seq<string>, o: Opt)
    ensures o in Seqs.FlatMap(blocks, Parser.LineOpts) <==>
              exists k :: 0 <= k < |blocks| && o in Parser.LineOpts(blocks[k])
  {
    Seqs.FlatMapMembers(blocks, Parser.LineOpts, o);
  }

  /** An option is found block-wise exactly when some pair of some block yields it. */
  lemma ParseBlockwiseMembers(content: string, o: Opt)
    ensures var blocks := SplitIntoBlocks(content);
            o in ParseBlockwise(content) <==>
              exists k :: 0 <= k < |blocks| && o in Parser.AllPairOpts(blocks[k])
  {
    var blocks := SplitIntoBlocks(content);
    BlockOptsMembers(blocks, o);
    forall k | 0 <= k < |blocks|
      ensures o in Parser.LineOpts(blocks[k]) <==> o in Parser.AllPairOpts(blocks[k])
    {
      Parser.DedupedOpts(Parser.AllPairOpts(blocks[k]), Parser.LineOpts(blocks[k]));
    }
  }

  // ------------------------------------------------------------- usage

  /** The keywords `parse_usage` looks for, in the order it tries them. */
  const UsageKeywords: seq<string> := ["usage", "synopsis"]

  /** The byte pre-check: `u`, `s`, `U` or `S` occurs somewhere. */
  predicate MayMentionKeyword(content: string) {
    'u' in content || 's' in content || 'U' in content || 'S' in content
  }

  /** The keyword occurs in the lowered text, and a `:` follows its first occurrence. */
  predicate ColonAfterKeyword(lower: string, keyword: string) {
    match Find(lower, keyword)
    case Some(pos) => ':' in lower[pos..]
    case None => false
  }

  /** The condition the keyword loop establishes. */
  predicate KeywordWithColon(lower: string) {
    ColonAfterKeyword(lower, "usage") || ColonAfterKeyword(lower, "synopsis")
  }

  /** A line that starts the usage section: it mentions a keyword and a `:`. */
  predicate IsUsageHeader(line: string) {
    var lower := ToLower(line);
    (Contains(lower, "usage") || Contains(lower, "synopsis")) && ':' in lower
  }

  /** A line that continues the usage section: non-empty, and indented or holding a `:`. */
  predicate ContinuesUsage(line: string) {
    line != [] && (StartsWithChar(line, ' ') || ':' in line)
  }

  /** The continuation lines at the front of `ls`. */
  function UsageRun(ls: seq<string>): seq<string> {
    Seqs.TakeWhile(ls, ContinuesUsage)
  }

  /** The index of the first usage header line. */
  function FirstHeader(lines: seq<string>): (r: Option<nat>)
    ensures r.None? <==> forall k :: 0 <= k < |lines| ==> !IsUsageHeader(lines[k])
    ensures r.Some? ==> r.value < |lines| && IsUsageHeader(lines[r.value]) &&
                        forall k :: 0 <= k < r.value ==> !IsUsageHeader(lines[k])
  {
    FirstWhere(lines, IsUsageHeader)
  }

  /** The index of the first line satisfying `p`. */
  function FirstWhere(lines: seq<string>, p: string -> bool): (r: Option<nat>)
    ensures r.None? <==> forall k :: 0 <= k < |lines| ==> !p(lines[k])
    ensures r.Some? ==> r.value < |lines| && p(lines[r.value]) &&
                        forall k :: 0 <= k < r.value ==> !p(lines[k])
  {
    if lines == [] then None
    else if p(lines[0]) then Some(0)
    else match FirstWhere(lines[1..], p)
      case None => None
      case Some(k) => Some(k + 1)
  }

  /**
   * What `parse_usage` returns: empty unless the text passes both checks;
   * otherwise the first header line and the continuation lines after it.
   */
  function UsageSection(content: string): string {
    if !MayMentionKeyword(content) || !KeywordWithColon(ToLower(content)) then []
    else HeaderSection(Lines(content))
  }

  /** The first header line among `lines` and the continuation lines after it, or nothing. */
  function HeaderSection(lines: seq<string>): string {
    match FirstHeader(lines)
    case None => []
    case Some(i) => JoinLines([lines[i]] + UsageRun(lines[i + 1..]))
  }

  /** The only characters ASCII lower-casing maps to a lower-case letter are that letter and its capital. */
  lemma LowerCharOrigin(c: char, d: char)
    requires 'a' <= d <= 'z' && LowerChar(c) == d
    ensures c == d || c as int == d as int - 32
  {
  }

  /** Where a keyword occurs in the lowered text, the text has its first letter in either case. */
  lemma KeywordFirstLetter(content: string, keyword: string)
    requires keyword != [] && 'a' <= keyword[0] <= 'z'
    requires Find(ToLower(content), keyword).Some?
    ensures exists k :: 0 <= k < |content| && (content[k] == keyword[0] || content[k] as int == keyword[0] as int - 32)
  {
    var lower := ToLower(content);
    var pos := Find(lower, keyword).value;
    assert StartsWith(lower[pos..], keyword);
    assert lower[pos..][0] == keyword[0];
    assert lower[pos] == keyword[0];
    LowerCharOrigin(content[pos], keyword[0]);
  }

  /** A keyword found in the lowered text means `u`, `s`, `U` or `S` occurs, so the pre-check never hides one. */
  lemma KeywordMentionsLetter(content: string)
    requires KeywordWithColon(ToLower(content))
    ensures MayMentionKeyword(content)
  {
    if ColonAfterKeyword(ToLower(content), "usage") {
      KeywordFirstLetter(content, "usage");
      var k :| 0 <= k < |content| && (content[k] == 'u' || content[k] as int == 'u' as int - 32);
      assert content[k] in content;
    } else {
      KeywordFirstLetter(content, "synopsis");
      var k :| 0 <= k < |content| && (content[k] == 's' || content[k] as int == 's' as int - 32);
      assert content[k] in content;
    }
  }

  /** A header line is not empty. */
  lemma HeaderNonEmpty(line: string)
    requires IsUsageHeader(line)
    ensures line != []
  {
    var lower := ToLower(line);
    if Contains(lower, "usage") {
      assert |lower| >= 5 by { var pos := Find(lower, "usage").value; }
    } else {
      assert |lower| >= 8 by { var pos := Find(lower, "synopsis").value; }
    }
  }

  /**
   * `parse_usage` returns text exactly when both checks pass and some line is
   * a header.
   */
  lemma UsageSectionNonEmptyIff(content: string)
    ensures UsageSection(content) != [] <==>
              KeywordWithColon(ToLower(content)) &&
              exists k :: 0 <= k < |Lines(content)| && IsUsageHeader(Lines(content)[k])
  {
    if KeywordWithColon(ToLower(content)) {
      KeywordMentionsLetter(content);
      var lines := Lines(content);
      match FirstHeader(lines)
      case None =>
      case Some(i) =>
        HeaderNonEmpty(lines[i]);
        JoinNonEmpty([lines[i]] + UsageRun(lines[i + 1..]), "\n");
    }
  }

  /**
   * The inner loop of `parse_usage`: from header line `i` on, each line is
   * appended while it continues the section; the header itself always is.
   */
  method CollectUsage(lines: seq<string>, i: nat) returns (usageResult: string)
    requires i < |lines|
    ensures usageResult == JoinLines([lines[i]] + UsageRun(lines[i + 1..]))
  {
    usageResult := [];
    var first := true;
    var j := i;
    while j < |lines|
      invariant i <= j <= |lines|
      invariant first <==> j == i
      invariant usageResult == JoinLines(lines[i..j])
      invariant j > i ==> RunUpTo(lines, i, j)
    {
      var l := lines[j];
      if !ContinuesUsage(l) && !first {
        break;
      }
      UsageStep(lines, i, j);
      PushLine(lines[i..j], l);
      if !first {
        usageResult := usageResult + "\n";
      }
      usageResult := usageResult + l;
      first := false;
      j := j + 1;
    }
    UsageEnd(lines, i, j);
  }

  /** The continuation lines after header `i` run at least up to line `j`. */
  ghost predicate RunUpTo(lines: seq<string>, i: nat, j: nat)
    requires i < j <= |lines|
  {
    UsageRun(lines[i + 1..]) == lines[i + 1..j] + UsageRun(lines[j..])
  }

  /** One more line of the usage section: the header, or a line that continues it. */
  lemma UsageStep(lines: seq<string>, i: nat, j: nat)
    requires i <= j < |lines|
    requires j > i ==> RunUpTo(lines, i, j)
    requires j == i || ContinuesUsage(lines[j])
    ensures RunUpTo(lines, i, j + 1)
    ensures lines[i..j + 1] == lines[i..j] + [lines[j]]
  {
    if j > i {
      UsageContinues(lines, i, j);
    } else {
      UsageStarts(lines, i);
    }
    Seqs.SliceSnoc(lines, i, j);
  }

  /** A continuation line extends the run. */
  lemma UsageContinues(lines: seq<string>, i: nat, j: nat)
    requires i < j < |lines| && RunUpTo(lines, i, j) && ContinuesUsage(lines[j])
    ensures RunUpTo(lines, i, j + 1)
  {
    Seqs.TakeWhileStep(lines, i + 1, j, ContinuesUsage);
  }

  /** Right after the header the run has taken nothing yet. */
  lemma UsageStarts(lines: seq<string>, i: nat)
    requires i < |lines|
    ensures RunUpTo(lines, i, i + 1)
  {
    assert lines[i + 1..i + 1] == [];
  }

  /** The usage section ends at the end of the text or at a line that does not continue it. */
  lemma UsageEnd(lines: seq<string>, i: nat, j: nat)
    requires i < j <= |lines| && RunUpTo(lines, i, j)
    requires j == |lines| || !ContinuesUsage(lines[j])
    ensures [lines[i]] + UsageRun(lines[i + 1..]) == lines[i..j]
  {
    if j < |lines| {
      Seqs.TakeWhileStep(lines, i + 1, j, ContinuesUsage);
    } else {
      assert lines[j..] == [];
    }
    assert [lines[i]] + lines[i + 1..j] == lines[i..j];
  }

  /**
   * The keyword loop of `parse_usage`: the position of the first keyword,
   * in order, whose first occurrence in `lower` has a `:` after it.
   */
  method FindKeyword(lower: string) returns (keywordPos: Option<nat>)
    ensures keywordPos.Some? <==> KeywordWithColon(lower)
  {
    var keywords := UsageKeywords;
    keywordPos := None;
    for k := 0 to |keywords|
      invariant keywordPos.None? ==> forall h :: 0 <= h < k ==> !ColonAfterKeyword(lower, keywords[h])
      invariant keywordPos.Some? ==> KeywordWithColon(lower)
    {
      var keyword := keywords[k];
      match Find(lower, keyword)
      case Some(pos) =>
        var rest := lower[pos..];
        if ':' in rest {
          keywordPos := Some(pos);
          break;
        }
      case None =>
    }
    if keywordPos.None? {
      assert keywords[0] == "usage" && keywords[1] == "synopsis";
    }
  }

  /** The section that starts at the first header is never empty. */
  lemma HeaderSectionAt(lines: seq<string>, i: nat)
    requires i < |lines| && IsUsageHeader(lines[i])
    requires forall h :: 0 <= h < i ==> !IsUsageHeader(lines[h])
    ensures HeaderSection(lines) == JoinLines([lines[i]] + UsageRun(lines[i + 1..]))
    ensures HeaderSection(lines) != []
  {
    FirstHeaderIs(lines, i);
    HeaderSectionOf(lines, i);
    HeaderNonEmpty(lines[i]);
    JoinNonEmpty([lines[i]] + UsageRun(lines[i + 1..]), "\n");
  }

  /** A header line with no header before it is the first header. */
  lemma FirstHeaderIs(lines: seq<string>, i: nat)
    requires i < |lines| && IsUsageHeader(lines[i])
    requires forall h :: 0 <= h < i ==> !IsUsageHeader(lines[h])
    ensures FirstHeader(lines) == Some(i)
  {
  }

  /** The section is read from the first header on. */
  lemma HeaderSectionOf(lines: seq<string>, i: nat)
    requires i < |lines| && FirstHeader(lines) == Some(i)
    ensures HeaderSection(lines) == JoinLines([lines[i]] + UsageRun(lines[i + 1..]))
  {
  }

  /** The lines loop of `parse_usage`: the first header line and what follows it. */
  method FindHeaderSection(lines: seq<string>) returns (usage: string)
    ensures usage == HeaderSection(lines)
  {
    for i := 0 to |lines|
      invariant forall h :: 0 <= h < i ==> !IsUsageHeader(lines[h])
    {
      if IsUsageHeader(lines[i]) {
        var usageResult := CollectUsage(lines, i);
        HeaderSectionAt(lines, i);
        if usageResult != [] {
          return usageResult;
        }
      }
    }
    NoHeaderNoSection(lines);
    return [];
  }

  /** Without a header line there is no section. */
  lemma NoHeaderNoSection(lines: seq<string>)
    requires forall h :: 0 <= h < |lines| ==> !IsUsageHeader(lines[h])
    ensures HeaderSection(lines) == []
  {
  }

  /**
   * `Layout::parse_usage`: the byte pre-check, the keyword loop, then the
   * first header line and its continuation lines.
   */
  method ParseUsage(content: string) returns (usage: string)
    ensures usage == UsageSection(content)
  {
    if 'u' !in content && 's' !in content {
      if 'U' !in content && 'S' !in content {
        return [];
      }
    }
    var keywordPos := FindKeyword(ToLower(content));
    if keywordPos.None? {
      return [];
    }
    usage := FindHeaderSection(Lines(content));
  }

  // ------------------------------------------------------------- offsets

  /** The UTF-8 byte width of a line's leading whitespace: its length minus that of its left-trim. */
  function Indent(line: string): (n: nat)
    ensures n + Utf8Length(TrimStart(line)) == Utf8Length(line)
    ensures n == Utf8Length(line[..|line| - |TrimStart(line)|])
  {
    var t := TrimStart(line);
    assert line == line[..|line| - |t|] + t;
    Utf8LengthAppend(line[..|line| - |t|], t);
    Utf8Length(line) - Utf8Length(t)
  }

  /** The predicate `get_long_option_offset` passes: the trimmed line starts with `--`. */
  predicate LongStart(t: string) {
    StartsWith(t, "--")
  }

  /** The predicate `get_short_option_offset` passes: `-` but not `--`. */
  predicate ShortStart(t: string) {
    StartsWithChar(t, '-') && !StartsWith(t, "--")
  }

  /**
   * The `(line index, indent)` pairs of the lines whose left-trim is
   * non-empty and satisfies `p`, in line order.
   */
  function Locations(lines: seq<string>, p: string -> bool): (r: seq<(nat, nat)>)
    ensures |r| <= |lines|
    ensures forall k :: 0 <= k < |r| ==> r[k].0 < |lines|
  {
    if lines == [] then []
    else
      var i := |lines| - 1;
      var rest := Locations(lines[..i], p);
      var t := TrimStart(lines[i]);
      if t != [] && p(t) then
        LocationAppend(rest, i, Indent(lines[i]), |lines|);
        rest + [(i, Indent(lines[i]))]
      else rest
  }

  /** Appending the location of the last line keeps every index in range. */
  lemma LocationAppend(rest: seq<(nat, nat)>, i: nat, d: nat, n: nat)
    requires |rest| <= i < n && forall k :: 0 <= k < |rest| ==> rest[k].0 < n
    ensures |rest + [(i, d)]| <= n && forall k :: 0 <= k < |rest + [(i, d)]| ==> (rest + [(i, d)])[k].0 < n
  {
    var r := rest + [(i, d)];
    assert forall k :: 0 <= k < |rest| ==> r[k] == rest[k];
  }

  /** `Layout::get_option_locations` over the lines of `s`. */
  function OptionLocations(s: string, p: string -> bool): seq<(nat, nat)> {
    Locations(Lines(s), p)
  }

  /** A line qualifies for `p`. */
  predicate Qualifies(line: string, p: string -> bool) {
    TrimStart(line) != [] && p(TrimStart(line))
  }

  /** A pair is a location exactly when its line qualifies and the offset is that line's indent. */
  lemma {:induction false} LocationsCharacterized(lines: seq<string>, p: string -> bool, i: nat, d: nat)
    ensures (i, d) in Locations(lines, p) <==>
              i < |lines| && Qualifies(lines[i], p) && d == Indent(lines[i])
  {
    if lines != [] {
      var n := |lines| - 1;
      var rest := Locations(lines[..n], p);
      LocationsCharacterized(lines[..n], p, i, d);
      assert Locations(lines, p) == rest + [(n, Indent(lines[n]))] || Locations(lines, p) == rest;
      if i < n {
        assert lines[..n][i] == lines[i];
      }
    }
  }

  /** Locations come in strictly increasing line order, so no line is reported twice. */
  lemma {:induction false} LocationsIncreasing(lines: seq<string>, p: string -> bool)
    ensures forall a, b :: 0 <= a < b < |Locations(lines, p)| ==>
              Locations(lines, p)[a].0 < Locations(lines, p)[b].0
  {
    if lines != [] {
      var n := |lines| - 1;
      LocationsIncreasing(lines[..n], p);
    }
  }

  /** There are no locations exactly when no line qualifies. */
  lemma LocationsEmptyIff(lines: seq<string>, p: string -> bool)
    ensures Locations(lines, p) == [] <==> forall i :: 0 <= i < |lines| ==> !Qualifies(lines[i], p)
  {
    if Locations(lines, p) != [] {
      var loc := Locations(lines, p)[0];
      LocationsCharacterized(lines, p, loc.0, loc.1);
    } else {
      forall i | 0 <= i < |lines| ensures !Qualifies(lines[i], p) {
        LocationsCharacterized(lines, p, i, Indent(lines[i]));
      }
    }
  }

  /** No line is both a short-option line and a long-option line. */
  lemma ShortLongDisjoint(lines: seq<string>, i: nat, d: nat, e: nat)
    requires (i, d) in Locations(lines, ShortStart)
    ensures (i, e) !in Locations(lines, LongStart)
  {
    LocationsCharacterized(lines, ShortStart, i, d);
    LocationsCharacterized(lines, LongStart, i, e);
  }

  /** How many locations have offset `d`. */
  function Count(locs: seq<(nat, nat)>, d: nat): nat {
    if locs == [] then 0
    else Count(locs[..|locs| - 1], d) + (if locs[|locs| - 1].1 == d then 1 else 0)
  }

  /** An offset occurs among the locations exactly when its count is positive. */
  lemma {:induction false} CountPositiveIff(locs: seq<(nat, nat)>, d: nat)
    ensures Count(locs, d) > 0 <==> exists k :: 0 <= k < |locs| && locs[k].1 == d
  {
    if locs != [] {
      var n := |locs| - 1;
      CountPositiveIff(locs[..n], d);
      if Count(locs[..n], d) > 0 {
        var k :| 0 <= k < n && locs[..n][k].1 == d;
        assert locs[k].1 == d;
      }
      if exists k :: 0 <= k < |locs| && locs[k].1 == d {
        var k :| 0 <= k < |locs| && locs[k].1 == d;
        if k < n {
          assert locs[..n][k].1 == d;
        }
      }
    }
  }

  /** The frequency table `get_most_frequent_offset` builds, as a function of the locations. */
  function Frequencies(locs: seq<(nat, nat)>): (m: map<nat, nat>)
    ensures forall d :: d in m ==> m[d] == Count(locs, d) && m[d] > 0
    ensures forall d :: d !in m ==> Count(locs, d) == 0
  {
    if locs == [] then map[]
    else
      var m := Frequencies(locs[..|locs| - 1]);
      var d := locs[|locs| - 1].1;
      m[d := (if d in m then m[d] else 0) + 1]
  }

  /** `d` occurs, and no offset occurs more often. */
  predicate IsMostFrequent(locs: seq<(nat, nat)>, d: nat) {
    Count(locs, d) > 0 && forall k :: 0 <= k < |locs| ==> Count(locs, locs[k].1) <= Count(locs, d)
  }

  /** The most frequent offset is one of the offsets; if all agree, it is that one. */
  lemma MostFrequentOccurs(locs: seq<(nat, nat)>, d: nat)
    requires IsMostFrequent(locs, d)
    ensures exists k :: 0 <= k < |locs| && locs[k].1 == d
    ensures (forall k :: 0 <= k < |locs| ==> locs[k].1 == locs[0].1) ==> d == locs[0].1
  {
    CountPositiveIff(locs, d);
  }

  /**
   * `Layout::get_most_frequent_offset`: count each offset, then take one of
   * maximal count. The table's iteration order is unspecified (a `HashMap`),
   * so the key visited next is chosen arbitrarily; like `max_by_key`, a later
   * key of equal count replaces the current one.
   */
  method MostFrequentOffset(locations: seq<(nat, nat)>) returns (r: Option<nat>)
    ensures r.None? <==> locations == []
    ensures r.Some? ==> IsMostFrequent(locations, r.value)
  {
    if |locations| == 0 {
      return None;
    }
    var freqMap := CountOffsets(locations);
    CountPositiveIff(locations, locations[0].1);
    var best := MaxByCount(freqMap);
    forall k | 0 <= k < |locations| ensures Count(locations, locations[k].1) <= Count(locations, best) {
      CountPositiveIff(locations, locations[k].1);
    }
    return Some(best);
  }

  /** The counting loop of `get_most_frequent_offset`. */
  method CountOffsets(locations: seq<(nat, nat)>) returns (freqMap: map<nat, nat>)
    ensures freqMap == Frequencies(locations)
  {
    freqMap := map[];
    for k := 0 to |locations|
      invariant freqMap == Frequencies(locations[..k])
    {
      var offset := locations[k].1;
      assert locations[..k + 1][..k] == locations[..k];
      if offset in freqMap {
        freqMap := freqMap[offset := freqMap[offset] + 1];
      } else {
        freqMap := freqMap[offset := 1];
      }
    }
    assert locations[..|locations|] == locations;
  }

  /**
   * `max_by_key` over the table's entries, visited in an arbitrary order:
   * a key of maximal count.
   */
  method MaxByCount(freqMap: map<nat, nat>) returns (best: nat)
    requires freqMap != map[]
    ensures best in freqMap
    ensures forall e :: e in freqMap ==> freqMap[e] <= freqMap[best]
  {
    var remaining := freqMap.Keys;
    best := 0;
    var bestCount: nat := 0;
    while remaining != {}
      invariant remaining <= freqMap.Keys
      invariant remaining != freqMap.Keys ==> best in freqMap && bestCount == freqMap[best]
      invariant forall e :: e in freqMap && e !in remaining ==> freqMap[e] <= bestCount
      decreases |remaining|
    {
      var offset :| offset in remaining;
      if remaining == freqMap.Keys || freqMap[offset] >= bestCount {
        best := offset;
        bestCount := freqMap[offset];
      }
      remaining := remaining - {offset};
    }
    assert remaining != freqMap.Keys by {
      var e :| e in freqMap;
    }
  }

  /** `Layout::get_long_option_offset`. */
  method LongOptionOffset(s: string) returns (r: Option<nat>)
    ensures r.None? <==> OptionLocations(s, LongStart) == []
    ensures r.Some? ==> IsMostFrequent(OptionLocations(s, LongStart), r.value)
  {
    var locations := OptionLocations(s, LongStart);
    r := MostFrequentOffset(locations);
  }

  /** `Layout::get_short_option_offset`. */
  method ShortOptionOffset(s: string) returns (r: Option<nat>)
    ensures r.None? <==> OptionLocations(s, ShortStart) == []
    ensures r.Some? ==> IsMostFrequent(OptionLocations(s, ShortStart), r.value)
  {
    var locations := OptionLocations(s, ShortStart);
    r := MostFrequentOffset(locations);
  }

  /**
   * `Layout::get_option_offsets`: the short offset then the long one, each
   * when there is one, and a single entry when they agree.
   */
  method OptionOffsets(s: string) returns (result: seq<nat>)
    ensures |result| <= 2
    ensures |result| == 2 ==> result[0] != result[1]
    ensures result == [] <==> OptionLocations(s, ShortStart) == [] && OptionLocations(s, LongStart) == []
    ensures OptionLocations(s, ShortStart) != [] ==> IsMostFrequent(OptionLocations(s, ShortStart), result[0])
    ensures OptionLocations(s, LongStart) != [] ==>
              IsMostFrequent(OptionLocations(s, LongStart), result[|result| - 1])
    ensures |result| == 2 ==> OptionLocations(s, ShortStart) != [] && OptionLocations(s, LongStart) != []
  {
    var shortOffset := ShortOptionOffset(s);
    var longOffset := LongOptionOffset(s);
    result := [];
    match (shortOffset, longOffset)
    case (None, None) =>
    case (None, Some(y)) => result := result + [y];
    case (Some(x), None) => result := result + [x];
    case (Some(x), Some(y)) =>
      if x == y {
        result := result + [x];
      } else {
        result := result + [x];
        result := result + [y];
      }
  }

  /** A line made of leading whitespace `ws` and text `t`: it trims to `t`, indented by the width of `ws`. */
  lemma IndentOf(ws: string, t: string)
    requires AllWhitespace(ws) && t != [] && !IsWhitespace(t[0])
    ensures TrimStart(ws + t) == t
    ensures Indent(ws + t) == Utf8Length(ws)
  {
    TrimStartAppend(ws, t);
    assert (ws + t)[..|ws|] == ws;
  }

  /** The locations among two lines. */
  lemma LocationsOfTwo(l0: string, l1: string, p: string -> bool)
    ensures Locations([l0, l1], p) ==
              (if Qualifies(l0, p) then [(0, Indent(l0))] else []) +
              (if Qualifies(l1, p) then [(1, Indent(l1))] else [])
  {
    assert [l0, l1][..1] == [l0] && [l0][..0] == [];
  }

  /** Two lines, each ending with a newline. */
  lemma LinesOfTwo(l0: string, l1: string)
    requires '\n' !in l0 && '\n' !in l1
    requires l0 != [] && l0[|l0| - 1] != '\r' && l1 != [] && l1[|l1| - 1] != '\r'
    ensures Lines(l0 + "\n" + (l1 + "\n" + "")) == [l0, l1]
  {
    LinesCons(l0, l1 + "\n" + "");
    LinesCons(l1, "");
  }

  /** A dash-led line has no leading whitespace: it trims to itself at indent 0. */
  lemma DashIndentZero(t: string)
    requires StartsWithChar(t, '-')
    ensures TrimStart(t) == t && Indent(t) == 0
  {
    assert !IsWhitespace('-');
    assert [] + t == t;
    IndentOf([], t);
  }

  /** The first line of the offsets example is a short-option line, the second a long-option line. */
  lemma ExampleOffsetKinds(t0: string, t1: string)
    requires t0 == "-a, --all        show all" && t1 == "--verbose        be verbose"
    ensures ShortStart(t0) && !LongStart(t0) && LongStart(t1) && !ShortStart(t1)
  {
    assert t0[1] == 'a';
    assert t1[..2] == ['-', '-'];
  }

  /** The lines of the offsets example. */
  lemma ExampleOffsetLines(t0: string, t1: string)
    requires t0 == "-a, --all        show all" && t1 == "--verbose        be verbose"
    ensures Lines(t0 + "\n" + (t1 + "\n" + "")) == [t0, t1]
  {
    assert t0[|t0| - 1] == 'l' && t1[|t1| - 1] == 'e';
    LinesOfTwo(t0, t1);
  }

  /**
   * The offsets example in the source's tests: one short-option line and one
   * long-option line. The `\` line continuations of the Rust literal drop the
   * leading spaces of the source lines, so neither line is indented.
   */
  lemma ExampleOffsetLocations(s: string, t0: string, t1: string)
    requires t0 == "-a, --all        show all" && t1 == "--verbose        be verbose"
    requires s == t0 + "\n" + (t1 + "\n" + "")
    ensures OptionLocations(s, ShortStart) == [(0, 0)]
    ensures OptionLocations(s, LongStart) == [(1, 0)]
  {
    ExampleOffsetLines(t0, t1);
    ExampleOffsetKinds(t0, t1);
    DashIndentZero(t0);
    DashIndentZero(t1);
    LocationsOfTwo(t0, t1, ShortStart);
    LocationsOfTwo(t0, t1, LongStart);
  }

  /** In the offsets example both most frequent offsets are 0. */
  lemma ExampleAlignedOffsets(s: string, t0: string, t1: string, x: nat, y: nat)
    requires t0 == "-a, --all        show all" && t1 == "--verbose        be verbose"
    requires s == t0 + "\n" + (t1 + "\n" + "")
    requires IsMostFrequent(OptionLocations(s, ShortStart), x)
    requires IsMostFrequent(OptionLocations(s, LongStart), y)
    ensures x == 0 && y == 0
  {
    ExampleOffsetLocations(s, t0, t1);
    MostFrequentOccurs(OptionLocations(s, ShortStart), x);
    MostFrequentOccurs(OptionLocations(s, LongStart), y);
  }

  /** When the short and the long option lines are one each, at the same offset, that offset is the only one. */
  method SingleOptionOffset(s: string, i: nat, j: nat, c: nat) returns (r: seq<nat>)
    requires OptionLocations(s, ShortStart) == [(i, c)] && OptionLocations(s, LongStart) == [(j, c)]
    ensures r == [c]
  {
    ghost var short, long := OptionLocations(s, ShortStart), OptionLocations(s, LongStart);
    r := OptionOffsets(s);
    MostFrequentOccurs(short, r[0]);
    MostFrequentOccurs(long, r[|r| - 1]);
    assert r[0] == c && r[|r| - 1] == c;
  }

  /**
   * The source's test of `get_option_offsets`: on the offsets example the
   * result is not empty and holds exactly one offset, 0, because the short
   * and the long offset coincide.
   */
  method ExampleOptionOffsets(s: string, t0: string, t1: string) returns (r: seq<nat>)
    requires t0 == "-a, --all        show all" && t1 == "--verbose        be verbose"
    requires s == t0 + "\n" + (t1 + "\n" + "")
    ensures |r| == 1 && r[0] == 0
  {
    ExampleOffsetLocations(s, t0, t1);
    r := SingleOptionOffset(s, 0, 1, 0);
  }


  /** A text whose first six characters are `usage:` passes the keyword check and is a header line. */
  lemma UsageAtStart(s: string)
    requires |s| >= 6 && s[..6] == "usage:"
    ensures KeywordWithColon(ToLower(s)) && IsUsageHeader(s)
  {
    var lower := ToLower(s);
    forall i | 0 <= i < 6
      ensures lower[i] == "usage:"[i]
    {
      assert s[i] == s[..6][i];
    }
    assert lower[..5] == "usage";
    assert Find(lower, "usage") == Some(0);
    assert lower[0..][5] == ':';
  }

  /** Two lines with an empty line between them, without a final newline. */
  lemma LinesAroundBlank(a: string, b: string)
    requires '\n' !in a && '\n' !in b && a != [] && b != []
    requires a[|a| - 1] != '\r'
    ensures Lines(a + "\n" + ("\n" + b)) == [a, [], b]
  {
    var r := "\n" + b;
    var e: string := [];
    LinesLast(b);
    assert r == e + "\n" + b;
    LinesCons(e, b);
    assert Lines(r) == [e, b];
    LinesCons(a, r);
  }

  /** The lines of the usage example: the header, an empty line, the description. */
  lemma ExampleUsageLines(content: string, h: string, d: string)
    requires h == "usage: command [options]" && d == "description"
    requires content == h + "\n" + ("\n" + d)
    ensures Lines(content) == [h, [], d]
  {
    assert forall i :: 0 <= i < |h| ==> h[i] != '\n';
    assert h[|h| - 1] == ']';
    LinesAroundBlank(h, d);
  }


  /**
   * A header line that is followed by an empty line: when the whole text
   * passes the keyword check, the usage section is that header line alone.
   */
  lemma HeaderThenEmpty(content: string, h: string, d: string)
    requires Lines(content) == [h, [], d]
    requires IsUsageHeader(h) && KeywordWithColon(ToLower(content))
    ensures UsageSection(content) == h
  {
    KeywordMentionsLetter(content);
    var lines := Lines(content);
    assert FirstHeader(lines) == Some(0);
    assert lines[1..] == [[], d];
    assert UsageRun(lines[1..]) == [];
    assert [lines[0]] + [] == [h];
  }

  /** The usage example and its header line both start with `usage:`. */
  lemma ExampleUsageStart(content: string, h: string, d: string)
    requires h == "usage: command [options]" && d == "description"
    requires content == h + "\n" + ("\n" + d)
    ensures |h| >= 6 && h[..6] == "usage:"
    ensures |content| >= 6 && content[..6] == "usage:"
  {
    assert content[..6] == h[..6];
  }

  /**
   * The source's test of `parse_usage`: on a header line followed by an
   * empty line and a description, the usage section is not empty; it is the
   * header line alone, because the empty line ends the section.
   */
  lemma ExampleUsage(content: string, h: string, d: string)
    requires h == "usage: command [options]" && d == "description"
    requires content == h + "\n" + ("\n" + d)
    ensures UsageSection(content) != []
    ensures UsageSection(content) == h
  {
    ExampleUsageLines(content, h, d);
    ExampleUsageStart(content, h, d);
    UsageAtStart(content);
    UsageAtStart(h);
    HeaderThenEmpty(content, h, d);
  }

  // The block-wise example.

  /** A dash-led line is not blank. */
  lemma DashNotBlank(t: string)
    requires StartsWithChar(t, '-')
    ensures !IsBlank(t) && IsOptionLine(t)
  {
    DashIndentZero(t);
  }

  /** Two option lines around an empty line form two blocks of one line each. */
  lemma TwoBlocks(a: string, b: string)
    requires StartsWithChar(a, '-') && StartsWithChar(b, '-')
    ensures BlockLines([a, [], b]) == [[a], [b]]
  {
    DashNotBlank(a);
    DashNotBlank(b);
    assert IsBlank([]);
    var ls := [a, [], b];
    assert ls[..2] == [a, []] && [a, []][..1] == [a] && [a][..0] == [];
    assert Segment([a]) == Segmenter([], [a], true);
    assert Segment([a, []]) == Segmenter([[a]], [], false);
    assert Segment(ls) == Segmenter([[a]], [b], true);
  }

  /** The lines of two dash lines joined by an empty line, with a final newline. */
  lemma BlankSeparatedLines(a: string, b: string)
    requires '\n' !in a && '\n' !in b && StartsWithChar(a, '-') && StartsWithChar(b, '-')
    requires a[|a| - 1] != '\r' && b[|b| - 1] != '\r'
    ensures Lines(a + "\n" + ("\n" + (b + "\n" + ""))) == [a, [], b]
  {
    var r2 := b + "\n" + "";
    var r1 := "\n" + r2;
    var e: string := [];
    LinesCons(b, "");
    assert Lines(r2) == [b];
    assert r1 == e + "\n" + r2;
    LinesCons(e, r2);
    assert Lines(r1) == [e, b];
    LinesCons(a, r1);
  }

  /** Such a text is cut into two blocks, one per line. */
  lemma TwoLineBlocks(content: string, a: string, b: string)
    requires '\n' !in a && '\n' !in b && StartsWithChar(a, '-') && StartsWithChar(b, '-')
    requires a[|a| - 1] != '\r' && b[|b| - 1] != '\r'
    requires content == a + "\n" + ("\n" + (b + "\n" + ""))
    ensures SplitIntoBlocks(content) == [a, b]
  {
    BlankSeparatedLines(a, b);
    TwoBlocks(a, b);
    assert SplitIntoBlocks(content) == [JoinLines([a]), JoinLines([b])];
  }

  /** Block-wise parsing and preprocessing of two blocks: the first block's results, then the second's. */
  lemma BlockwiseOfTwo(content: string, a: string, b: string)
    requires SplitIntoBlocks(content) == [a, b]
    ensures ParseBlockwise(content) == Parser.LineOpts(a) + Parser.LineOpts(b)
    ensures PreprocessBlockwise(content) == BlockPairs(a) + BlockPairs(b)
  {
    Seqs.FlatMapOfTwo(a, b, Parser.LineOpts);
    Seqs.FlatMapOfTwo(a, b, BlockPairs);
  }

  /** A block that is one dash line: one pair, the line without description. */
  lemma OneLineBlockPairs(a: string)
    requires '\n' !in a && StartsWithChar(a, '-') && a[|a| - 1] != '\r'
    ensures Parser.Pairs(Lines(a)) == [(a, [])] && BlockPairs(a) == [(a, [])]
  {
    DashIndentZero(a);
    LinesLast(a);
    assert Parser.Pairs([a]) == [(a, [])];
  }

  /** A one-line block whose line has names: one option with them. */
  lemma OneLineOpts(t: string, n: seq<OptName>)
    requires Parser.Pairs(Lines(t)) == [(t, [])]
    requires Parser.OptNames(t) == n && n != []
    ensures Parser.LineOpts(t) == [Opt(n, Parser.OptArg(t), [])]
  {
    Seqs.FlatMapOneDedup((t, []), Opt(n, Parser.OptArg(t), []), Parser.PairOpts, Parser.OptIdentity);
  }

  /** A text that starts with a pattern contains it. */
  lemma PrefixContained(s: string, p: string)
    requires StartsWith(s, p)
    ensures Contains(s, p)
  {
  }

  /**
   * The source's test of `parse_blockwise` and `preprocess_blockwise`: two
   * option lines separated by an empty line are two blocks. The `\` line
   * continuations of the Rust literal drop the leading spaces of the source
   * lines. Block-wise parsing finds two options, named `--all` and `-a`, and
   * `--verbose`; the pairs are the two lines, and their option texts contain
   * `-a` and `--verbose`.
   */
  lemma ExampleBlockwise(content: string, t0: string, t1: string)
    requires t0 == "-a" + "," + (" " + ("--all" + "        show all"))
    requires t1 == "--verbose" + "    be verbose"
    requires content == t0 + "\n" + ("\n" + (t1 + "\n" + ""))
    ensures |ParseBlockwise(content)| == 2
    ensures ParseBlockwise(content)[0].names == [OptName("--all", LongType), OptName("-a", ShortType)]
    ensures ParseBlockwise(content)[1].names == [OptName("--verbose", LongType)]
    ensures PreprocessBlockwise(content) == [(t0, []), (t1, [])]
    ensures exists k :: 0 <= k < |PreprocessBlockwise(content)| && Contains(PreprocessBlockwise(content)[k].0, "-a")
    ensures exists k :: 0 <= k < |PreprocessBlockwise(content)| && Contains(PreprocessBlockwise(content)[k].0, "--verbose")
  {
    ExampleBlockwiseLines(t0, t1);
    TwoLineBlocks(content, t0, t1);
    BlockwiseOfTwo(content, t0, t1);
    OneLineBlockPairs(t0);
    OneLineBlockPairs(t1);
    Parser.ExampleAllNames(t0);
    Parser.ExampleVerboseLineNames(t1, "--verbose", "    be verbose");
    TwoOneLineOpts(t0, t1, Parser.OptNames(t0), Parser.OptNames(t1));
    Seqs.ConcatOfSingles(BlockPairs(t0), BlockPairs(t1), (t0, []), (t1, []));
    PrefixContained(t0, "-a");
    PrefixContained(t1, "--verbose");
    PairsMention(PreprocessBlockwise(content), t0, t1, "-a", "--verbose");
  }

  /** Two pairs whose option texts contain `p0` and `p1`: some pair contains each. */
  lemma PairsMention(ps: seq<Parser.Pair>, t0: string, t1: string, p0: string, p1: string)
    requires ps == [(t0, []), (t1, [])] && Contains(t0, p0) && Contains(t1, p1)
    ensures exists k :: 0 <= k < |ps| && Contains(ps[k].0, p0)
    ensures exists k :: 0 <= k < |ps| && Contains(ps[k].0, p1)
  {
    assert ps[0].0 == t0 && ps[1].0 == t1;
  }

  /** The two lines of the block-wise example: dash-led, without newline, not ending in `\r`. */
  lemma ExampleBlockwiseLines(t0: string, t1: string)
    requires t0 == "-a" + "," + (" " + ("--all" + "        show all"))
    requires t1 == "--verbose" + "    be verbose"
    ensures '\n' !in t0 && '\n' !in t1 && StartsWithChar(t0, '-') && StartsWithChar(t1, '-')
    ensures t0[|t0| - 1] != '\r' && t1[|t1| - 1] != '\r'
    ensures StartsWith(t0, "-a") && StartsWith(t1, "--verbose")
  {
    assert forall i :: 0 <= i < |t0| ==> t0[i] != '\n';
    assert forall i :: 0 <= i < |t1| ==> t1[i] != '\n';
    assert t0[..2] == "-a" && t1[..9] == "--verbose";
  }

  /** The options of two one-line blocks, given their names. */
  lemma TwoOneLineOpts(t0: string, t1: string, n0: seq<OptName>, n1: seq<OptName>)
    requires Parser.Pairs(Lines(t0)) == [(t0, [])] && Parser.Pairs(Lines(t1)) == [(t1, [])]
    requires Parser.OptNames(t0) == n0 && Parser.OptNames(t1) == n1 && n0 != [] && n1 != []
    ensures Parser.LineOpts(t0) + Parser.LineOpts(t1) ==
              [Opt(n0, Parser.OptArg(t0), []), Opt(n1, Parser.OptArg(t1), [])]
  {
    OneLineOpts(t0, n0);
    OneLineOpts(t1, n1);
    Seqs.ConcatOfSingles(Parser.LineOpts(t0), Parser.LineOpts(t1),
                         Opt(n0, Parser.OptArg(t0), []), Opt(n1, Parser.OptArg(t1), []));
  }
}
