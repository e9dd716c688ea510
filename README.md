# hcl help-text extraction, modelled in Dafny

hcl reads the `--help` output or man page of a command-line program. It extracts the
program's options, usage section and subcommands into a `Command` tree and renders that tree
as a shell completion script. This project models that extraction pipeline and proves
properties of the model, in the pipeline's own order:

- **Text cleanup.**
  - `IoHandler::normalize_text` expands tabs to eight spaces and halves runs of spaces.
  - `Postprocessor::remove_bullets` and then `unicode_spaces_to_ascii` clean the normalized text further (src/main.rs:104-105).
  - `Postprocessor::convert_tabs_to_spaces` is a separate helper that replaces each tab by a given number of spaces. The pipeline does not call it.
- **Block segmentation.** `Layout::split_into_blocks_fast` groups dash-led lines and the lines that follow them.
- **Option parsing.**
  - `Parser::preprocess` pairs each option line with its description.
  - `parse_opt_names` and `OptName::determine_type` classify each flag spelling.
  - `parse_opt_arg` guesses the argument placeholder.
  - `parse_line` removes duplicate options.
- **Usage and layout.** `Layout::parse_usage` finds the usage section. `get_option_offsets` finds the most common column of short and long flags.
- **Subcommands.** `SubcommandParser::parse` runs two heuristics and merges their results into a sorted set.
- **Tree cleanup.** `Postprocessor::fix_command` removes duplicate and invalid options at every depth.
- **Completion scripts.** The Fish, Zsh and Bash generators.

There is one Dafny module per Rust file: `Types`, `Parser`, `Layout`, `Postprocessor`,
`SubcommandParser`, `IoHandler` and `Generators`. Three shared modules support them:

- `Strings` models the Rust `str` operations the code relies on: `trim_start`, `trim`, `lines`, `split_whitespace`, `split`, `join`, `find`, `replace` and UTF-8 byte length.
- `Seqs` holds generic sequence facts, e.g. first-occurrence deduplication, filtering, and strictly sorted sets built by insertion.
- `Wrappers` holds `Option`.

How the Rust code is mapped:

- Rust loops that build a vector or a string in steps are Dafny methods with loops. Each method is proved equal to a specification function, and the properties are proved about those functions.
- Pure Rust helpers are Dafny functions.
- Strings are `seq<char>`.
- Byte lengths (`len()`) are computed with an explicit UTF-8 width per character.
- `lines()` splits on `\n`, strips a `\r` that directly precedes a `\n`, and produces no empty last line after a final newline.
- Whitespace is the Unicode `White_Space` set used by `char::is_whitespace`.

Some behaviours are modelled literally rather than as the comments suggest:

- **The `preprocess` token loop** (src/parser.rs:53-62) can never reach its `break`, so `opt_end` always ends equal to the token count. The "description on the same line" branch (src/parser.rs:64-69) is therefore dead. `Parser.OptionEnd` proves this, and `Parser.Preprocess` carries `assert false` in that branch. The source's own test (src/parser.rs:184-194) documents this behaviour, so it is not listed as a finding.
- **`normalize_text`** decides its per-line transform from flags computed over the whole text.
- **The `"  "` → `" "` replace** is a single pass, so three spaces become two.

## Model

| member | source | states |
|---|---|---|
| Types.DetermineType | src/types.rs:69-78 | The classification is `None` exactly for strings that do not start with `-`. It is SingleDashAlone exactly for `-` and DoubleDashAlone exactly for `--`. It is LongType for every other `--`-prefixed string, and ShortType for a single-dash string of UTF-8 byte length 2. Every remaining dash-led string is OldType. |
| Types.ShortTypeIsTwoAsciiChars | src/types.rs:74 | For a single-dash string, byte length 2 means exactly two characters with an ASCII second character. |
| Types.FromText | src/types.rs:61-67 | `from_text` succeeds iff the text starts with `-`. The name keeps the text unchanged as `raw`, and its type is the classification of that text. |
| Types.StringLessIrreflexive | src/types.rs:44-48 | No string is below itself in the lexicographic order on `raw`. |
| Types.StringLessTransitive | src/types.rs:44-48 | The lexicographic string order is transitive. |
| Types.StringLessTotal | src/types.rs:44-48 | Any two distinct strings are ordered one way or the other. |
| Types.StringOrderIsTotal | src/types.rs:44-48 | String comparison is a strict total order. |
| Types.OptNameOrderIsTotal | src/types.rs:28-48 | Names are ordered by raw text, then by type (LongType < ShortType < OldType < DoubleDashAlone < SingleDashAlone). This is a strict total order. |
| Types.SortedNamesSorted | src/parser.rs:128-129 | Sorting, then deduplicating, yields a strictly increasing list of names. |
| Types.SortedNamesMembers | src/parser.rs:128-129 | Sorting and deduplicating neither loses nor invents a name. |
| Types.SubcommandOrderIsTotal | src/types.rs:50-54 | The derived order on (cmd, desc) is a strict total order. |
| Types.NewCommand | src/types.rs:110-119 | A new command has the given name and every other field empty. |
| Types.AsSubcommand | src/types.rs:121-126 | The subcommand takes `cmd` from the name and `desc` from the description. |
| Strings.TrimStart | src/parser.rs:39 | `trim_start` returns a suffix that is empty or starts with non-whitespace, and everything it removed is whitespace. |
| Strings.TrimEnd | src/parser.rs:75 | The right trim returns a prefix that is empty or ends with non-whitespace, and everything it removed is whitespace. |
| Strings.TrimInside | src/subcommand_parser.rs:27 | Every character of a trimmed string comes from the original. |
| Strings.TrimStartEmptyIffAllWhitespace | src/layout.rs:138-140 | A line left-trims to empty iff it is all whitespace. |
| Strings.TrimHead | src/subcommand_parser.rs:27-29 | `trim` and `trim_start` agree on emptiness and on the first character. |
| Strings.SplitWhitespace | src/parser.rs:49 | `split_whitespace` yields only non-empty tokens without whitespace. |
| Strings.SplitWhitespaceHead | src/subcommand_parser.rs:33 | There are no tokens iff the text is blank. Otherwise the first token starts with the first non-blank character. |
| Strings.Lines | src/parser.rs:33 | No line holds a `\n`, and there are no lines iff the text is empty. |
| Strings.LinesChars | src/parser.rs:33 | Every character of a line comes from the text. |
| Strings.LinesCons | src/parser.rs:33 | Text up to the first `\n` is the first line, without a `\r` that directly precedes the `\n`. |
| Strings.StripCr | src/parser.rs:33 | The line is unchanged or loses exactly one final `\r`. |
| Strings.Utf8Length | src/types.rs:74 | A string's byte length lies between its character count and four times that count. It equals the character count iff the string is all ASCII. |
| Strings.Utf8LengthAppend | src/layout.rs:194 | Byte lengths add up over concatenation. |
| Strings.SplitOn | src/parser.rs:113 | `split` on a separator set yields at least one part, and no part contains a separator. |
| Strings.SplitOnNoSeparator | src/parser.rs:113 | A text without separators splits into itself alone. |
| Strings.Find | src/layout.rs:74 | `find` returns the first position where the pattern begins, or `None` iff no position exists. |
| Strings.ToLower | src/layout.rs:71 | Lower-casing maps each character on its own and keeps the length. |
| Strings.ReplaceChar | src/postprocessor.rs:122 | `replace` of a char leaves text without it unchanged and leaves none behind when the replacement lacks it. Every output character comes from the text or the replacement. |
| Strings.ReplaceCharAppend | src/postprocessor.rs:122 | Replacing distributes over concatenation. |
| Strings.Repeat | src/postprocessor.rs:122 | `repeat` gives exactly `n` copies of the character. |
| Strings.TrimStartMatches | src/generators.rs:38 | `trim_start_matches` removes exactly the leading run of that character. |
| Strings.JoinChars | src/layout.rs:147-150 | Every character of a join comes from a part or from the separator. |
| Seqs.DedupByProperties | src/postprocessor.rs:16-37 | First-occurrence deduplication leaves distinct keys, keeps the same key set, and is a subsequence of its input. |
| Seqs.DedupByKeepsFirst | src/postprocessor.rs:30-33 | An element is appended iff its key has not been seen before. |
| Seqs.DedupByOfDistinct | src/postprocessor.rs:16-37 | Deduplicating a list with distinct keys changes nothing. |
| Seqs.DedupByIdempotent | src/postprocessor.rs:16-37 | Deduplicating twice is the same as deduplicating once. |
| Seqs.FilterProperties | src/postprocessor.rs:39-46 | A filter keeps exactly the elements that satisfy the test, in their original order. |
| Seqs.FilterKeepsDistinct | src/postprocessor.rs:9-10 | Filtering a list with distinct keys keeps the keys distinct. |
| Seqs.FilterIdempotent | src/postprocessor.rs:39-46 | Filtering twice is the same as filtering once. |
| Seqs.SortedInsertProperties | src/subcommand_parser.rs:13 | A `BTreeSet` insert keeps the set strictly sorted and adds exactly the new element. |
| Seqs.SortedSetProperties | src/subcommand_parser.rs:9-23 | Collecting into a `BTreeSet` gives a strictly sorted list with the same members. |
| Seqs.StrictlySortedUnique | src/subcommand_parser.rs:23 | Two strictly sorted lists with the same members are equal. |
| Seqs.FlatMapAppend | src/layout.rs:28-31 | A flat-map over two concatenated lists is the concatenation of their flat-maps. |
| Seqs.FlatMapMembers | src/layout.rs:28-31 | An element is in a flat-map iff it is in the image of some input. |
| Seqs.FirstNonEmptyCharacterized | src/parser.rs:134-142 | The first non-empty image is empty iff every image is empty. Otherwise it is the image of some element with only empty images before it. |
| Seqs.TakeWhile | src/layout.rs:100-103 | A take-while is the longest prefix whose elements all satisfy the test. |
| Parser.Preprocess | src/parser.rs:32-93 | The `while` loop returns exactly the pairs the specification `Pairs(Lines(s))` gives. |
| Parser.OptionEnd | src/parser.rs:52-62 | The token loop always ends with `opt_end` equal to the token count, so its `break` is unreachable. |
| Parser.PairsSkip | src/parser.rs:41-45 | A line that is not dash-led after left-trim starts no pair. |
| Parser.PairsAtDash | src/parser.rs:70-86 | A dash-led line gives the pair (its left-trim, the next description) and the scan goes on after the consumed lines. |
| Parser.PairsAtDashAt | src/parser.rs:73-86 | The next line is the description, and two lines are consumed, exactly when that line exists, is not dash-led and trims to non-empty. Otherwise the description is empty and one line is consumed. |
| Parser.PairRest | src/parser.rs:82-85 | Each step consumes at least one line, so the scan terminates. |
| Parser.PairsFromDashLines | src/parser.rs:72 | Every pair's option text starts with `-` and is one of the left-trimmed input lines. |
| Parser.PairsBound | src/parser.rs:37-90 | There are at most as many pairs as lines. |
| Parser.DashLineHasTokens | src/parser.rs:49-64 | A dash-led line has at least one token, so `opt_end > 0` always holds in the branch test. |
| Parser.ExampleLinePairs | src/parser.rs:183-194 | On the test's three lines the pairs are (`-a, --all  show all`, empty) and (`-b`, `show b`). |
| Parser.PreprocessKeepsWholeLine | src/parser.rs:183-194 | The same result, starting from the test's text rather than its lines. |
| Parser.ExampleLines | src/parser.rs:185 | The test's text splits into its three lines. |
| Parser.ExampleTrims | src/parser.rs:185 | The left trims of the test's lines. |
| Parser.WordName | src/parser.rs:119-124 | A token contributes a name iff it starts with `-`. |
| Parser.WordNamesMembers | src/parser.rs:119-124 | The names of a token list are those of its dash-led tokens. |
| Parser.GroupNamesMembers | src/parser.rs:113-125 | The names of a group are those of the dash-led tokens of its trim. |
| Parser.GroupListNamesMembers | src/parser.rs:113-125 | The names of a group list are the names of its groups. |
| Parser.DashWordNames | src/parser.rs:119-125 | The token loop pushes exactly the names of the dash-led tokens, in order. |
| Parser.ParseOptNames | src/parser.rs:110-131 | The method returns exactly the specification's names. |
| Parser.OptNamesSorted | src/parser.rs:128-129 | The names are strictly increasing, so they are sorted and have no duplicates. |
| Parser.OptNamesCharacterized | src/parser.rs:110-131 | A name is returned iff some `,`/`/`/`\|` group gives it through a dash-led token. |
| Parser.OptNamesAreDashLed | src/parser.rs:120-123 | Every returned name is dash-led and carries its text's classification. |
| Parser.ExtractArg | src/parser.rs:145-158 | There is no argument iff there are fewer than two tokens or the tail is `.`. Otherwise the argument is the non-empty space-joined tail. |
| Parser.GroupArg | src/parser.rs:134-139 | A group yields an argument iff `extract_arg_from_part` of its trim gives one. |
| Parser.FirstGroupArg | src/parser.rs:133-143 | The early-return loop's result is empty iff no group has an argument. Otherwise it is the argument of the first group that has one. |
| Parser.OptArgCharacterized | src/parser.rs:133-143 | The same, for the groups of the option text. |
| Parser.ParseOptArg | src/parser.rs:133-143 | The early-return loop returns exactly the specification's argument. |
| Parser.ParseWithOptPart | src/parser.rs:95-108 | There is no option iff no names were found. Otherwise there is exactly one option, with those names, the guessed argument and the given description. |
| Parser.KeepUnseen | src/parser.rs:22-28 | The `seen`-set loop keeps exactly the first occurrence of each option and updates `seen` to every option met so far. |
| Parser.ParseLine | src/parser.rs:17-30 | No two returned options are equal. The result holds exactly the options of all pairs, as a subsequence in first-occurrence order. |
| Parser.DedupedOpts | src/parser.rs:17-30 | First-occurrence deduplication has no repeats, keeps every member and preserves order. |
| Parser.ParseUsageHeader | src/parser.rs:160-176 | The result is `Some` iff the block is non-empty and its lower-cased first line matches `^\s*kw\s*:?\s*$` for some keyword. The result is that lower-cased line. |
| Parser.HeaderMatchesTrimmed | src/parser.rs:167 | The pattern holds iff the left-trimmed line starts with the keyword and is followed by whitespace, with at most one `:`. |
| Parser.ExampleUsageHeader | src/parser.rs:196-201 | On the test's block the header line is `usage:` and it matches the keyword `usage`. |
| Parser.OptNamesOfTwo | src/parser.rs:127-130 | When the candidates are two different names, sorting and deduplication put the smaller one first and keep both. |
| Parser.ShortLongNames | src/parser.rs:113-130 | Two groups naming a short and then a long spelling give the long name first, then the short one, because `-` sorts before a letter. |
| Parser.ExampleOptNames | src/parser.rs:203-209 | `-v, --verbose` gives exactly two names, `--verbose` and then `-v`. |
| Parser.ExampleWithOptPart | src/parser.rs:211-217 | `-v, --verbose` with the description `Enable verbose mode` gives one option with those two names and that description. |
| Parser.ExampleDedupOptions | src/parser.rs:219-225 | The same option line twice gives one option, with the two names `--verbose` and `-v`. |
| Parser.ThreeLineOpts | src/parser.rs:17-30 | Three option lines with pairwise different, non-empty name lists give three options, in line order. |
| Parser.ExampleBioinformaticsOptions | src/parser.rs:227-245 | The three lines give three options, named `--input` and `-i`, `--output` and `-o`, and `--min-mapq`. |
| Layout.SplitIntoBlocksFast | src/layout.rs:122-160 | The state-machine loop returns exactly the specification's blocks, fast exit included. |
| Layout.NoDashNoBlocks | src/layout.rs:126-128 | A text without `-` has no blocks, so the fast exit agrees with the full loop. |
| Layout.SegmentKeepsInvariant | src/layout.rs:130-153 | Throughout the loop, `in_block` holds exactly when the open block is non-empty, and every finished block is well formed. |
| Layout.InBlockIffOpen | src/layout.rs:140-152 | `in_block` is set exactly when some option line has been seen with no blank line since. |
| Layout.BlocksWellFormed | src/layout.rs:140-157 | Every block is non-empty, starts with a dash-led line, and contains no blank line. |
| Layout.BlocksCopyKeptLines | src/layout.rs:140-157 | The blocks, concatenated, are the input lines verbatim and in order. A line is kept iff it is non-blank and not preceded by a blank line since the last option line. |
| Layout.BlockTextNonEmpty | src/layout.rs:155-156 | A flushed block is never the empty string. |
| Layout.ParseBlockwiseInBlockOrder | src/layout.rs:12-33 | `parse_blockwise` is the concatenation of `parse_line` over the blocks in order. |
| Layout.PreprocessBlockwiseInBlockOrder | src/layout.rs:36-56 | `preprocess_blockwise` is the concatenation of `preprocess` over the blocks in order. |
| Layout.ParseBlockwiseMembers | src/layout.rs:12-33 | An option is returned iff some block's pairs give it. Duplicates across blocks are kept. |
| Layout.ParseUsage | src/layout.rs:58-118 | The method, with its byte pre-check, keyword loop and line loops, returns exactly the specification's usage section. |
| Layout.UsageSectionNonEmptyIff | src/layout.rs:63-113 | The usage section is non-empty iff the first occurrence of `usage` or `synopsis` in the lowered text has a `:` after it, and some line mentions a keyword and a `:`. |
| Layout.KeywordMentionsLetter | src/layout.rs:62-68 | When a keyword is found, the pre-check for `u`, `s`, `U` or `S` always passes. |
| Layout.FindKeyword | src/layout.rs:70-86 | The keyword loop finds a position iff a keyword occurs with a `:` after its first occurrence. |
| Layout.FirstHeader | src/layout.rs:94-96 | The header index is `None` iff no line is a usage header. Otherwise it is the first header line. |
| Layout.CollectUsage | src/layout.rs:97-110 | The `first`-flag loop builds the header line and its continuation lines (non-empty and starting with a space or holding a `:`), joined by `\n`. |
| Layout.HeaderSectionAt | src/layout.rs:94-113 | At the first header line the section is that line plus its continuation, and it is non-empty. |
| Layout.FindHeaderSection | src/layout.rs:94-117 | The header loop returns exactly the specification's section. |
| Layout.NoHeaderNoSection | src/layout.rs:117 | Without a header line the section is empty. |
| Layout.Indent | src/layout.rs:194 | The offset is the UTF-8 byte width of the leading whitespace. |
| Layout.LocationsCharacterized | src/layout.rs:183-201 | A pair (i, d) is a location iff line i is non-blank, its left-trim satisfies the test, and d is its offset. |
| Layout.LocationsIncreasing | src/layout.rs:187-200 | Locations are listed in strictly increasing line order. |
| Layout.LocationsEmptyIff | src/layout.rs:183-201 | There are no locations iff no line qualifies. |
| Layout.ShortLongDisjoint | src/layout.rs:203-212 | No line is both a short-option and a long-option location. |
| Layout.Frequencies | src/layout.rs:220-223 | The frequency map holds exactly the occurring offsets, each with its count. |
| Layout.CountPositiveIff | src/layout.rs:220-223 | An offset's count is positive iff some location has it. |
| Layout.CountOffsets | src/layout.rs:220-223 | The counting loop builds exactly the frequency map. |
| Layout.MaxByCount | src/layout.rs:225-228 | The pick is a key of maximal count, whatever the iteration order. |
| Layout.MostFrequentOffset | src/layout.rs:214-229 | The result is `None` iff there are no locations. Otherwise it is some offset of maximal count. |
| Layout.MostFrequentOccurs | src/layout.rs:214-229 | A most frequent offset occurs among the locations. It is the common offset when all locations agree. |
| Layout.LongOptionOffset | src/layout.rs:203-206 | The long-option offset is `None` iff no line starts with `--`. Otherwise it is a most frequent offset of such lines. |
| Layout.ShortOptionOffset | src/layout.rs:208-212 | The same, for lines starting with `-` but not `--`. |
| Layout.OptionOffsets | src/layout.rs:162-181 | The result holds at most two distinct values, the short offset first. It is empty iff both location lists are empty, and it has two entries only when both offsets exist and differ. |
| Layout.ExampleOffsetLocations | src/layout.rs:258-261 | On the test's text the short location is line 0 and the long one is line 1. Both are at offset 0, because the `\` continuations of the literal drop the indentation. |
| Layout.ExampleAlignedOffsets | src/layout.rs:258-261 | On that text both most frequent offsets are 0. |
| Layout.SingleOptionOffset | src/layout.rs:162-181 | When there is one short and one long option line and both are at the same offset, the result is that single offset. |
| Layout.ExampleOptionOffsets | src/layout.rs:258-268 | On that text `get_option_offsets` returns exactly one offset, and it is 0. |
| Layout.HeaderThenEmpty | src/layout.rs:94-113 | A header line followed by an empty line is the whole usage section, once the keyword check passes. |
| Layout.ExampleUsage | src/layout.rs:236-241 | On the test's text the usage section is not empty. It is exactly the line `usage: command [options]`, because the empty line ends the section. |
| Layout.TwoLineBlocks | src/layout.rs:122-160 | Two option lines around an empty line are cut into two blocks, one per line. |
| Layout.BlockwiseOfTwo | src/layout.rs:12-56 | With two blocks, the block-wise options are the first block's and then the second's, and so are the pairs. |
| Layout.ExampleBlockwise | src/layout.rs:243-256 | On the test's text, block-wise parsing gives two options, named `--all` and `-a`, and `--verbose`. The pairs are the two lines, so some pair contains `-a` and some pair contains `--verbose`. The `\` continuations drop the indentation of the literal's lines. |
| Postprocessor.DeduplicateOptions | src/postprocessor.rs:16-37 | The `seen`-set loop returns exactly the first-occurrence deduplication by key. |
| Postprocessor.DeduplicatedProperties | src/postprocessor.rs:16-37 | The keys of the output are distinct and equal to the input's, and the output is a subsequence of the input. |
| Postprocessor.DeduplicatedKeepsFirst | src/postprocessor.rs:30-33 | A later option is kept iff its key (names joined by `\|`, argument) is new. |
| Postprocessor.SameKeyCollapses | src/postprocessor.rs:21-28 | Two options with the same names and argument collapse to the first, whatever their descriptions. |
| Postprocessor.FilterInvalidOptions | src/postprocessor.rs:39-46 | The filter keeps exactly the options with a non-empty first name and a non-empty description, in order. |
| Postprocessor.FixOptionsProperties | src/postprocessor.rs:9-10 | After deduplicating and filtering, every option is valid, the keys are distinct, and the result is a subsequence of the input. |
| Postprocessor.FixOptionsOfClean | src/postprocessor.rs:9-10 | Valid options with distinct keys are left unchanged. |
| Postprocessor.FixCommand | src/postprocessor.rs:8-14 | Name, description, usage and version are unchanged. Each subcommand, in number and order, is the fixed original, and the options are the fixed originals. |
| Postprocessor.FixCommandCleans | src/postprocessor.rs:8-14 | After `fix_command`, every option at every depth is valid and each option list has distinct keys. |
| Postprocessor.FixCommandOfClean | src/postprocessor.rs:8-14 | A command that is already clean at every depth is unchanged. |
| Postprocessor.FixCommandIdempotent | src/postprocessor.rs:8-14 | Fixing twice gives the same command as fixing once. |
| Postprocessor.ExampleFixCommand | src/postprocessor.rs:172-206 | On the test's tree, the root keeps one option and its single child keeps one. |
| Postprocessor.ExampleFixOptions | src/postprocessor.rs:132-149 | A repeated valid option and an invalid one reduce to the valid option alone. |
| Postprocessor.Indentation | src/postprocessor.rs:59-60 | The indent is all whitespace, and the line is the indent followed by its left-trim. |
| Postprocessor.RemoveBulletShape | src/postprocessor.rs:59-82 | A line whose text does not start with a bullet is unchanged. A bullet line keeps its indent and loses exactly the bullet and the whitespace after it. |
| Postprocessor.RemoveBullets | src/postprocessor.rs:48-86 | The `first`-flag loop returns the per-line bullet removal of every line, joined by `\n`. |
| Postprocessor.BulletAtStart | src/postprocessor.rs:64-79 | `*`, `-` and `•` followed by a space are each removed from the line start. |
| Postprocessor.ExampleBullets | src/postprocessor.rs:151-156 | On the test's text the three bullets are removed, leaving the items. |
| Postprocessor.ExampleBulletGone | src/postprocessor.rs:151-156 | The result of the test's text holds no `•`. |
| Postprocessor.AsciiSpaces | src/postprocessor.rs:105-111 | U+00A0, U+2002 and U+2003 become 1, 2 and 3 spaces. Every other character is kept. |
| Postprocessor.NoUnicodeSpaceUnchanged | src/postprocessor.rs:94-100 | A text without those characters is unchanged, so the fast path agrees with the full map. |
| Postprocessor.UnicodeSpacesGone | src/postprocessor.rs:105-112 | The output holds none of the three characters, and every output character is a space or comes from the input. |
| Postprocessor.UnicodeSpacesToAscii | src/postprocessor.rs:88-115 | The method, fast path included, returns exactly the character-wise replacement. |
| Postprocessor.UnicodeSpacesAppend | src/postprocessor.rs:105-112 | The replacement distributes over concatenation. |
| Postprocessor.ExampleUnicodeSpaces | src/postprocessor.rs:158-165 | On the test's text the result is ` foo  bar   baz<tab>end`. |
| Postprocessor.ConvertTabsToSpaces | src/postprocessor.rs:117-123 | No tab remains, each tab becomes `n` spaces, and a text without tabs is unchanged. |
| Postprocessor.ConvertOneTab | src/postprocessor.rs:122 | A single tab is replaced in place by `n` spaces. |
| Postprocessor.ExampleTabs | src/postprocessor.rs:167-169 | On the test's intermediate text, the tab becomes four spaces before `end`. |
| SubcommandParser.IsValidName | src/subcommand_parser.rs:80-87 | An accepted name is non-empty and holds no whitespace. |
| SubcommandParser.ValidNameExamples | src/subcommand_parser.rs:102-108 | `run` and `sub-cmd` are accepted; `-v` and the empty name are not. |
| SubcommandParser.LinePair | src/subcommand_parser.rs:26-49 | Both trimmed lines must be non-empty and not dash-led, and the first token must be a valid name. The result is then that token and the first line of the trimmed second line. |
| SubcommandParser.LinePairDescription | src/subcommand_parser.rs:39-47 | For a single-line second line the description is its trim. |
| SubcommandParser.SingleLine | src/subcommand_parser.rs:51-78 | The trimmed line must be non-empty and not dash-led, with at least three tokens and a valid first token. The result is that token and the remaining tokens joined by single spaces. |
| SubcommandParser.Windows | src/subcommand_parser.rs:11 | `windows(2)` gives each pair of consecutive lines, in order. |
| SubcommandParser.PairCandidatesMembers | src/subcommand_parser.rs:11-15 | A subcommand comes from the window loop iff some consecutive line pair gives it. |
| SubcommandParser.SingleCandidatesMembers | src/subcommand_parser.rs:17-21 | A subcommand comes from the line loop iff some line gives it. |
| SubcommandParser.InsertPairs | src/subcommand_parser.rs:11-15 | The window loop's set is the sorted set of the pair results. |
| SubcommandParser.InsertSingles | src/subcommand_parser.rs:17-21 | The line loop adds exactly the single-line results to the sorted set. |
| SubcommandParser.Parse | src/subcommand_parser.rs:7-24 | The two-loop method returns exactly the specification's subcommands. |
| SubcommandParser.SubcommandsMembers | src/subcommand_parser.rs:7-24 | The result is the union of the pair results and the single-line results. |
| SubcommandParser.SubcommandsSorted | src/subcommand_parser.rs:9-23 | The result is strictly increasing by (cmd, desc), so it has no duplicates. |
| SubcommandParser.SubcommandsWellFormed | src/subcommand_parser.rs:35-72 | Every returned name is valid and every description is non-empty. |
| SubcommandParser.ExampleSubcommands | src/subcommand_parser.rs:94-100 | On the test's two lines the result contains `run` and `build`. |
| IoHandler.ScanDoubleSpaces | src/io_handler.rs:49-62 | The peekable scan finds a pair iff the text contains two consecutive spaces. |
| IoHandler.NormalizeText | src/io_handler.rs:42-93 | The method returns exactly the specification's normalized text, and it holds no tab. |
| IoHandler.NormalizeAllLines | src/io_handler.rs:69-91 | The `first`-flag loop gives the per-line transform of every line, joined by `\n`. |
| IoHandler.Normalized | src/io_handler.rs:64-66 | A text without tabs and without double spaces is returned unchanged. |
| IoHandler.NormalizedHasNoTab | src/io_handler.rs:82-89 | The result never contains a tab. |
| IoHandler.NormalizeLine | src/io_handler.rs:82-89 | A line loses its tabs whenever the text has any. |
| IoHandler.TabExpansion | src/io_handler.rs:83 | A tab expands to exactly eight spaces. |
| IoHandler.CollapseUnchangedIff | src/io_handler.rs:83-88 | The `"  "` replace changes a string iff it has two consecutive spaces, and then it shortens it. |
| IoHandler.CollapseEvenRun | src/io_handler.rs:83-88 | A run of `2k` spaces becomes `k` spaces. |
| IoHandler.CollapseIsSinglePass | src/io_handler.rs:83-88 | The replace is one pass: three spaces become two, which still hold a double space. |
| IoHandler.ExampleThreeSpaces | src/io_handler.rs:83-88 | `a   b` normalizes to `a  b`. |
| IoHandler.ExampleTrailingNewline | src/io_handler.rs:72-91 | A trailing newline is not reproduced: `a  b\n` normalizes to `a b`. |
| IoHandler.ExampleFlagsPerText | src/io_handler.rs:82-89 | The flags come from the whole text: a tab line in a text with double spaces is collapsed after expansion, so `a<tab>b` becomes `a    b`. |
| IoHandler.TabsOnlyLine | src/io_handler.rs:85-86 | With tabs but no double space, tabs are expanded and nothing is collapsed. |
| IoHandler.ExampleTabsOnly | src/io_handler.rs:109-114 | On the test's input both tabs become sixteen spaces and no tab remains. |
| Generators.SkippedAreDashAlone | src/generators.rs:30-35 | A name is skipped iff its text is `-` or `--`. |
| Generators.TruncateAfterPeriod | src/generators.rs:83-85 | The result is the longest prefix without `.`, and it stops at the first `.` when there is one. |
| Generators.TruncateAtFirstPeriod | src/generators.rs:83-85 | Text before the first `.` is kept and the rest is dropped. |
| Generators.ExampleTruncate | src/generators.rs:196-203 | The test sentence truncates to `This is a description`. |
| Generators.RenderedKeptNames | src/generators.rs:17-23 | An option renders one line per kept name, in name order. |
| Generators.RenderedMembers | src/generators.rs:17-23 | A line is rendered iff some kept name renders to it. |
| Generators.OptionLinesMembers | src/generators.rs:17-23 | A line is emitted iff some option has a kept name that renders to it. |
| Generators.TypeFlag | src/generators.rs:54-61 | The type flag is empty exactly for the two dash-alone types. |
| Generators.TypeFlagsDistinct | src/generators.rs:54-61 | The non-empty flags `-l`, `-s` and `-o` tell the types apart. |
| Generators.ArgFlag | src/generators.rs:63-81 | The flag is empty iff there is no argument. It is `-r` iff the lowered argument or description mentions a path word, and `-x` otherwise. |
| Generators.ExampleFileArgument | src/generators.rs:69 | An argument `FILE` gives `-r`. |
| Generators.QuotesEscaped | src/generators.rs:50 | Every `'` in the escaped description is preceded by `\`, and a description without `'` is unchanged. |
| Generators.OptionLine | src/generators.rs:37-51 | Every option line starts with `complete -c ` and the `_`-joined command path. |
| Generators.ChildLines | src/generators.rs:25-27 | Each subcommand's lines are rendered under the extended path, in order. |
| Generators.AppendNameLines | src/generators.rs:18-22 | The name loop appends exactly the rendered lines of one option. |
| Generators.AppendOptionLines | src/generators.rs:17-23 | The option loop appends exactly the rendered lines of all options. |
| Generators.GenerateRec | src/generators.rs:13-28 | The recursion appends the command's own lines, then its subcommands' lines, in pre-order. |
| Generators.FishGenerate | src/generators.rs:7-11 | The script is the pre-order lines joined by `\n`. |
| Generators.FishCoversNames | src/generators.rs:17-23 | Every kept name of every option gets its line under the command's path. |
| Generators.OwnLinesPrefix | src/generators.rs:17-23 | Every line of a command's own options carries that command's path. |
| Generators.SubtreeLinesIncluded | src/generators.rs:25-27 | Every line of a subcommand's subtree appears in its parent's output. |
| Generators.FishLinesPaths | src/generators.rs:13-28 | Every line is under the path of the command it was generated for. |
| Generators.GenerateOpt | src/generators.rs:113-135 | The name loop gives one `options+=` line per kept name. |
| Generators.ZshGenerate | src/generators.rs:91-111 | The script is the header, the option lines and the footer, joined by `\n`. |
| Generators.ZshShape | src/generators.rs:91-111 | The output is 5 header lines, then the option lines, then 4 footer lines. |
| Generators.ZshOptLinesCount | src/generators.rs:117-132 | An option contributes exactly as many lines as it has kept names. |
| Generators.ZshLinesMembers | src/generators.rs:100-103 | A line is an option line iff a kept name of some root option renders to it. |
| Generators.ZshIgnoresSubcommands | src/generators.rs:91-111 | The Zsh output does not depend on the subcommands. |
| Generators.BashOptsSorted | src/generators.rs:156-176 | The `opts` names are strictly increasing, so they are sorted with duplicates removed. |
| Generators.BashOptsMembers | src/generators.rs:156-176 | A name is listed iff it is the raw text of a kept name of some option. |
| Generators.BashGenerate | src/generators.rs:145-189 | The script is the specification's thirteen lines joined by `\n`. |
| Generators.BashShape | src/generators.rs:146-186 | There are thirteen lines: the function header names the command, and line 8 lists the `opts` names joined by spaces. |

## Left out

- The async I/O of `IoHandler` (`read_file`, `read_from_command`, `get_command_help`, `get_manpage`, `is_man_available`) is left out because it is file and subprocess plumbing. `normalize_text` receives its text as a parameter.
- The rayon parallel branches of `parse_blockwise` and `preprocess_blockwise` are modelled by their sequential flat-map. Both branches collect in block order, so only one semantics is stated.
- src/main.rs, src/cli.rs, build.rs, src/lib.rs and src/json_gen.rs are not part of this model. They hold the command-line front end, build-time generation, re-exports and serde output.
- The serde derives and the `Display` impls of src/types.rs are left out, because formatting is done by library code that is not shown.
- The Elvish and Nushell generators are not part of this model, because they are not defined in the files shown.
- The regex engine of `parse_usage_header` is replaced by the predicate `HeaderMatches`, which states the one pattern the code builds. `\s` is the Unicode whitespace set, and the keyword is matched literally.
- Unicode case mapping is not modelled: `to_lowercase` is ASCII-only (`LowerChar`). A non-ASCII capital letter is therefore left unchanged in the model.
- `char::is_alphanumeric` is ASCII letters and digits only (`IsAlphanumeric`). A non-ASCII letter in a subcommand name is rejected by the model but accepted by the source.
- The memchr, memmem and bstr SIMD scans, capacity hints and `EcoString`/`EcoVec` are modelled as plain sequence searches and `seq`, because they are representation only.
- The help text is a sequence of characters, not bytes. Invalid UTF-8 lines, which `parse_usage` and `get_option_locations` skip through `from_utf8(...).ok()`, cannot arise in the model.
- Layout.MostFrequentOffset: the iteration order of the `HashMap` is not modelled. The loop picks any remaining key, so the contract says only "some offset of maximal count", and ties are unspecified as in the source.
- Types.NewCommand: its contract lists the fields the constructor sets, which is all the source promises.
- Types.AsSubcommand: its contract lists the two fields it copies, which is all the source promises.
- SubcommandParser.IsValidName: its contract is weaker than its definition. It states only non-emptiness and the absence of whitespace; the exact character rule is the body itself, and ValidNameExamples proves it on the examples of the source's test.
