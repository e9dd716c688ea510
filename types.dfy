/**
 * The schema the extraction pipeline produces (src/types.rs): flag spellings
 * and their classification, options, the recursive command tree, and the
 * transient subcommand candidates, with the orderings the source derives.
 */
module Types {
  import opened Wrappers
  import opened Strings
  import Seqs

  /** Classification of one flag spelling; the declaration order is the derived `Ord`. */
  datatype OptNameType = LongType | ShortType | OldType | DoubleDashAlone | SingleDashAlone

  /** One flag spelling as written (`raw` keeps its dashes) and its classification. */
  datatype OptName = OptName(raw: string, optType: OptNameType)

  /** One option: its aliases, its argument placeholder (empty: none) and its description. */
  datatype Opt = Opt(names: seq<OptName>, argument: string, description: string)

  /** A node of the command tree; each command owns its subcommands. */
  datatype Command = Command(
    name: string,
    description: string,
    usage: string,
    options: seq<Opt>,
    subcommands: seq<Command>,
    version: string)

  /** A subcommand candidate found in help text. */
  datatype Subcommand = Subcommand(cmd: string, desc: string)

  /** The spelling of a name as written. */
  function RawOf(n: OptName): string {
    n.raw
  }

  /** Position of a variant in the declaration of `OptNameType`. */
  function TypeRank(t: OptNameType): nat {
    match t
    case LongType => 0
    case ShortType => 1
    case OldType => 2
    case DoubleDashAlone => 3
    case SingleDashAlone => 4
  }

  /**
   * `OptName::determine_type`: the exact spellings `-` and `--` are checked
   * before the prefix rules; "length 2" is the UTF-8 byte length.
   */
  function DetermineType(s: string): (r: Option<OptNameType>)
    ensures r.None? <==> !StartsWithChar(s, '-')
    ensures r == Some(SingleDashAlone) <==> s == "-"
    ensures r == Some(DoubleDashAlone) <==> s == "--"
    ensures r == Some(LongType) <==> StartsWith(s, "--") && s != "--"
    ensures r == Some(ShortType) <==> StartsWithChar(s, '-') && s != "--" && Utf8Length(s) == 2
    ensures r == Some(OldType) <==>
              StartsWithChar(s, '-') && s != "-" && !StartsWith(s, "--") && Utf8Length(s) != 2
  {
    if s == "-" then Some(SingleDashAlone)
    else if s == "--" then Some(DoubleDashAlone)
    else if StartsWith(s, "--") then Some(LongType)
    else if StartsWithChar(s, '-') && Utf8Length(s) == 2 then Some(ShortType)
    else if StartsWithChar(s, '-') then Some(OldType)
    else None
  }

  /**
   * A single-dash spelling is short exactly when it is two characters long and
   * its second character is ASCII: one non-ASCII letter after the dash already
   * makes three bytes, so `-é` is old-style.
   */
  lemma ShortTypeIsTwoAsciiChars(s: string)
    requires StartsWithChar(s, '-') && !StartsWith(s, "--")
    ensures DetermineType(s) == Some(ShortType) <==> |s| == 2 && s[1] < '\U{0080}'
  {
    if |s| >= 2 {
      assert s[1] != '-' by { assert s[..2] != "--"; }
      var tail := s[1..];
      assert Utf8Length(s) == 1 + Utf8Length(tail);
      if |s| > 2 {
        assert Utf8Length(tail) == Utf8Len(tail[0]) + Utf8Length(tail[1..]);
        assert |tail[1..]| > 0;
      } else {
        assert tail[1..] == [];
      }
    }
  }

  /** `OptName::from_text`: a name exactly for dash-led text, keeping the text as `raw`. */
  function FromText(s: string): (r: Option<OptName>)
    ensures r.Some? <==> StartsWithChar(s, '-')
    ensures r.Some? ==> r.value.raw == s && DetermineType(s) == Some(r.value.optType)
  {
    match DetermineType(s)
    case None => None
    case Some(t) => Some(OptName(s, t))
  }

  /**
   * The derived order on `String`: lexicographic on bytes, which for UTF-8 is
   * the same as lexicographic on code points.
   */
  predicate StringLess(a: string, b: string) {
    if a == [] then b != []
    else if b == [] then false
    else if a[0] != b[0] then a[0] < b[0]
    else StringLess(a[1..], b[1..])
  }

  lemma {:induction false} StringLessIrreflexive(a: string)
    ensures !StringLess(a, a)
  {
    if a != [] { StringLessIrreflexive(a[1..]); }
  }

  lemma {:induction false} StringLessTransitive(a: string, b: string, c: string)
    requires StringLess(a, b) && StringLess(b, c)
    ensures StringLess(a, c)
  {
    if a != [] && a[0] == b[0] && b[0] == c[0] {
      StringLessTransitive(a[1..], b[1..], c[1..]);
    }
  }

  lemma {:induction false} StringLessTotal(a: string, b: string)
    requires a != b
    ensures StringLess(a, b) || StringLess(b, a)
  {
    if a != [] && b != [] && a[0] == b[0] {
      assert a == [a[0]] + a[1..] && b == [b[0]] + b[1..];
      StringLessTotal(a[1..], b[1..]);
    }
  }

  /** The byte order on strings is a strict total order. */
  lemma StringOrderIsTotal()
    ensures Seqs.StrictTotalOrder(StringLess)
  {
    forall a: string ensures !StringLess(a, a) {
      StringLessIrreflexive(a);
    }
    forall a: string, b: string, c: string | StringLess(a, b) && StringLess(b, c)
      ensures StringLess(a, c)
    {
      StringLessTransitive(a, b, c);
    }
    forall a: string, b: string | a != b ensures StringLess(a, b) || StringLess(b, a) {
      StringLessTotal(a, b);
    }
  }

  /** The `Ord` of `OptName`: lexicographic on `(raw, type)`. */
  predicate OptNameLess(x: OptName, y: OptName) {
    StringLess(x.raw, y.raw) || (x.raw == y.raw && TypeRank(x.optType) < TypeRank(y.optType))
  }

  /** The name order is a strict total order. */
  lemma OptNameOrderIsTotal()
    ensures Seqs.StrictTotalOrder(OptNameLess)
  {
    forall x: OptName ensures !OptNameLess(x, x) {
      StringLessIrreflexive(x.raw);
    }
    forall x: OptName, y: OptName, z: OptName | OptNameLess(x, y) && OptNameLess(y, z)
      ensures OptNameLess(x, z)
    {
      if StringLess(x.raw, y.raw) && StringLess(y.raw, z.raw) {
        StringLessTransitive(x.raw, y.raw, z.raw);
      }
    }
    forall x: OptName, y: OptName | x != y ensures OptNameLess(x, y) || OptNameLess(y, x) {
      if x.raw != y.raw {
        StringLessTotal(x.raw, y.raw);
      } else {
        assert x.optType != y.optType;
      }
    }
  }

  /** Sorting names and removing duplicates gives a strictly increasing list. */
  lemma SortedNamesSorted(xs: seq<OptName>)
    ensures Seqs.StrictlySorted(Seqs.SortedSet(xs, OptNameLess), OptNameLess)
  {
    OptNameOrderIsTotal();
    Seqs.SortedSetProperties(xs, OptNameLess);
  }

  /** Sorting names and removing duplicates keeps exactly the names there were. */
  lemma SortedNamesMembers(xs: seq<OptName>, n: OptName)
    ensures n in Seqs.SortedSet(xs, OptNameLess) <==> n in xs
  {
    OptNameOrderIsTotal();
    Seqs.SortedSetProperties(xs, OptNameLess);
  }

  /** The derived `Ord` of `Subcommand`: lexicographic on `(cmd, desc)`. */
  predicate SubcommandLess(x: Subcommand, y: Subcommand) {
    StringLess(x.cmd, y.cmd) || (x.cmd == y.cmd && StringLess(x.desc, y.desc))
  }

  /** The subcommand order is a strict total order. */
  lemma SubcommandOrderIsTotal()
    ensures Seqs.StrictTotalOrder(SubcommandLess)
  {
    forall x: Subcommand ensures !SubcommandLess(x, x) {
      StringLessIrreflexive(x.cmd);
      StringLessIrreflexive(x.desc);
    }
    forall x: Subcommand, y: Subcommand, z: Subcommand | SubcommandLess(x, y) && SubcommandLess(y, z)
      ensures SubcommandLess(x, z)
    {
      if StringLess(x.cmd, y.cmd) && StringLess(y.cmd, z.cmd) {
        StringLessTransitive(x.cmd, y.cmd, z.cmd);
      }
      if x.cmd == y.cmd == z.cmd {
        StringLessIrreflexive(x.cmd);
        StringLessTransitive(x.desc, y.desc, z.desc);
      }
    }
    forall x: Subcommand, y: Subcommand | x != y ensures SubcommandLess(x, y) || SubcommandLess(y, x) {
      if x.cmd != y.cmd {
        StringLessTotal(x.cmd, y.cmd);
      } else {
        StringLessTotal(x.desc, y.desc);
      }
    }
  }

  /** `Command::new`: a command with the given name and everything else empty. */
  function NewCommand(name: string): (c: Command)
    ensures c.name == name
    ensures c.description == [] && c.usage == [] && c.version == []
    ensures c.options == [] && c.subcommands == []
  {
    Command(name, [], [], [], [], [])
  }

  /** `Command::as_subcommand`: the command's name and description as a candidate. */
  function AsSubcommand(c: Command): (s: Subcommand)
    ensures s.cmd == c.name && s.desc == c.description
  {
    Subcommand(c.name, c.description)
  }
}
