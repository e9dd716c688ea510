/**
 * The parts of Rust's `str` API that the extraction pipeline relies on, as
 * functions on `seq<char>`: whitespace classes, trimming, `lines()`,
 * `split_whitespace()`, `split` on a set of separator characters, `join`,
 * substring search, replacement and UTF-8 byte length.
 */
module Strings {
  import opened Wrappers

  /** Rust's `char::is_whitespace`: the Unicode White_Space property. */
  predicate IsWhitespace(c: char) {
    || ('\U{0009}' <= c <= '\U{000D}')
    || c == ' '
    || c == '\U{0085}'
    || c == '\U{00A0}'
    || c == '\U{1680}'
    || ('\U{2000}' <= c <= '\U{200A}')
    || c == '\U{2028}'
    || c == '\U{2029}'
    || c == '\U{202F}'
    || c == '\U{205F}'
    || c == '\U{3000}'
  }

  /** Rust's `u8::is_ascii_whitespace`: space, tab, line feed, form feed, carriage return. */
  predicate IsAsciiWhitespace(c: char) {
    c == ' ' || c == '\t' || c == '\n' || c == '\U{000C}' || c == '\r'
  }

  predicate NoWhitespace(s: string) {
    forall i :: 0 <= i < |s| ==> !IsWhitespace(s[i])
  }

  predicate AllWhitespace(s: string) {
    forall i :: 0 <= i < |s| ==> IsWhitespace(s[i])
  }

  /** Number of bytes of the UTF-8 encoding of one Unicode scalar value. */
  function Utf8Len(c: char): (n: nat)
    ensures 1 <= n <= 4
    ensures n == 1 <==> c < '\U{0080}'
  {
    if c < '\U{0080}' then 1
    else if c < '\U{0800}' then 2
    else if c < '\U{10000}' then 3
    else 4
  }

  /** Rust's `str::len`: the UTF-8 byte length of a string. */
  function Utf8Length(s: string): (n: nat)
    ensures |s| <= n <= 4 * |s|
    ensures n == |s| <==> forall i :: 0 <= i < |s| ==> s[i] < '\U{0080}'
  {
    if s == [] then 0
    else
      assert forall i :: 1 <= i < |s| ==> s[i] == s[1..][i - 1];
      Utf8Len(s[0]) + Utf8Length(s[1..])
  }

  lemma {:induction false} Utf8LengthAppend(a: string, b: string)
    ensures Utf8Length(a + b) == Utf8Length(a) + Utf8Length(b)
  {
    if a == [] {
      assert a + b == b;
    } else {
      assert (a + b)[0] == a[0] && (a + b)[1..] == a[1..] + b;
      Utf8LengthAppend(a[1..], b);
    }
  }

  /** `str::starts_with` for a string pattern: `p` is a prefix of `s`. */
  predicate StartsWith(s: string, p: string) {
    |p| <= |s| && s[..|p|] == p
  }

  /** `str::starts_with` for a character pattern. */
  predicate StartsWithChar(s: string, c: char) {
    |s| > 0 && s[0] == c
  }

  /** `str::trim_start`: drops the leading whitespace. */
  function TrimStart(s: string): (r: string)
    ensures |r| <= |s| && r == s[|s| - |r|..]
    ensures r == [] || !IsWhitespace(r[0])
    ensures AllWhitespace(s[..|s| - |r|])
  {
    if s != [] && IsWhitespace(s[0]) then
      var r := TrimStart(s[1..]);
      TrimStartStep(s, r);
      r
    else s
  }

  /** What `TrimStart` promises about the tail still holds with one more leading blank. */
  lemma TrimStartStep(s: string, r: string)
    requires s != [] && IsWhitespace(s[0])
    requires |r| <= |s| - 1 && r == s[1..][|s| - 1 - |r|..]
    requires AllWhitespace(s[1..][..|s| - 1 - |r|])
    ensures r == s[|s| - |r|..] && AllWhitespace(s[..|s| - |r|])
  {
    var w := s[1..][..|s| - 1 - |r|];
    assert s[..|s| - |r|] == [s[0]] + w;
    assert forall i :: 0 < i <= |w| ==> ([s[0]] + w)[i] == w[i - 1];
  }

  /** `str::trim_end`: drops the trailing whitespace. */
  function TrimEnd(s: string): (r: string)
    ensures |r| <= |s| && r == s[..|r|]
    ensures r == [] || !IsWhitespace(r[|r| - 1])
    ensures AllWhitespace(s[|r|..])
  {
    if s != [] && IsWhitespace(s[|s| - 1]) then
      var r := TrimEnd(s[..|s| - 1]);
      assert s[|r|..] == s[..|s| - 1][|r|..] + [s[|s| - 1]];
      r
    else s
  }

  /** `str::trim`: drops whitespace at both ends. */
  function Trim(s: string): string {
    TrimEnd(TrimStart(s))
  }

  /** Every character of a trimmed string comes from the string. */
  lemma TrimInside(s: string)
    ensures forall i :: 0 <= i < |Trim(s)| ==> Trim(s)[i] in s
  {
    forall i | 0 <= i < |Trim(s)| ensures Trim(s)[i] in s {
      TrimCharAt(s, i);
    }
  }

  /** The `i`th character of a trimmed string sits after the leading whitespace. */
  lemma TrimCharAt(s: string, i: nat)
    requires i < |Trim(s)|
    ensures Trim(s)[i] in s
  {
    var t := TrimStart(s);
    var off := |s| - |t|;
    assert Trim(s)[i] == t[i];
    assert t[i] == s[off + i];
  }

  /** A line whose `trim_start()` is empty. */
  predicate IsBlank(s: string) {
    TrimStart(s) == []
  }

  lemma {:induction false} TrimStartEmptyIffAllWhitespace(s: string)
    ensures TrimStart(s) == [] <==> AllWhitespace(s)
  {
    var r := TrimStart(s);
    assert s[..|s| - |r|] + r == s;
    if r != [] {
      assert s[|s| - |r|] == r[0];
    }
  }

  /** After a full trim the first character is the first one `trim_start` keeps. */
  lemma TrimHead(s: string)
    ensures Trim(s) == [] <==> TrimStart(s) == []
    ensures Trim(s) != [] ==> Trim(s)[0] == TrimStart(s)[0]
  {
    var t := TrimStart(s);
    if t != [] {
      assert !IsWhitespace(t[0..][0]);
    }
  }

  /** The longest whitespace-free prefix of `s`. */
  function Word(s: string): (w: string)
    ensures |w| <= |s| && w == s[..|w|]
    ensures NoWhitespace(w)
    ensures |w| == |s| || IsWhitespace(s[|w|])
  {
    if s == [] || IsWhitespace(s[0]) then [] else [s[0]] + Word(s[1..])
  }

  /** Every word is non-empty and free of whitespace. */
  predicate AreTokens(words: seq<string>) {
    forall k :: 0 <= k < |words| ==> words[k] != [] && NoWhitespace(words[k])
  }

  /** A token in front of tokens. */
  lemma TokensCons(w: string, rest: seq<string>)
    requires w != [] && NoWhitespace(w) && AreTokens(rest)
    ensures AreTokens([w] + rest)
  {
    assert forall k :: 1 <= k < 1 + |rest| ==> ([w] + rest)[k] == rest[k - 1];
  }

  /** `str::split_whitespace`: the maximal whitespace-free runs, in order. */
  function SplitWhitespace(s: string): (words: seq<string>)
    ensures AreTokens(words)
    decreases |s|
  {
    var t := TrimStart(s);
    if t == [] then []
    else
      var w := Word(t);
      assert |w| > 0 by { assert !IsWhitespace(t[0]); }
      var rest := SplitWhitespace(t[|w|..]);
      TokensCons(w, rest);
      [w] + rest
  }

  /** There is a first token exactly when some character is not whitespace; it starts there. */
  lemma SplitWhitespaceHead(s: string)
    ensures SplitWhitespace(s) == [] <==> TrimStart(s) == []
    ensures SplitWhitespace(s) != [] ==> SplitWhitespace(s)[0] != [] && SplitWhitespace(s)[0][0] == TrimStart(s)[0]
  {
    var t := TrimStart(s);
    if t != [] {
      assert !IsWhitespace(t[0]);
    }
  }

  /** Every token is non-empty and free of whitespace. */
  lemma SplitWhitespaceTokens(s: string, k: nat)
    requires k < |SplitWhitespace(s)|
    ensures SplitWhitespace(s)[k] != [] && NoWhitespace(SplitWhitespace(s)[k])
  {
  }

  /** The first token is the whitespace-free run that ends at whitespace or at the end. */
  lemma {:induction false} WordPrefix(w: string, rest: string)
    requires NoWhitespace(w) && (rest == [] || IsWhitespace(rest[0]))
    ensures Word(w + rest) == w
  {
    if w == [] {
      assert w + rest == rest;
    } else {
      assert (w + rest)[0] == w[0] && (w + rest)[1..] == w[1..] + rest;
      WordPrefix(w[1..], rest);
    }
  }

  /** Splitting whitespace, some non-empty token and what follows it. */
  lemma SplitWhitespaceCons(ws: string, w: string, rest: string)
    requires AllWhitespace(ws) && w != [] && NoWhitespace(w)
    requires rest == [] || IsWhitespace(rest[0])
    ensures SplitWhitespace(ws + (w + rest)) == [w] + SplitWhitespace(rest)
  {
    TrimStartAppend(ws, w + rest);
    WordPrefix(w, rest);
    assert (w + rest)[|w|..] == rest;
  }

  /** `[..].join(sep)`. */
  function Join(parts: seq<string>, sep: string): string {
    if |parts| == 0 then []
    else if |parts| == 1 then parts[0]
    else parts[0] + sep + Join(parts[1..], sep)
  }

  lemma {:induction false} JoinSnoc(parts: seq<string>, p: string, sep: string)
    requires parts != []
    ensures Join(parts + [p], sep) == Join(parts, sep) + sep + p
  {
    if |parts| == 1 {
      assert parts + [p] == [parts[0], p];
    } else {
      JoinSnoc(parts[1..], p, sep);
      assert (parts + [p])[1..] == parts[1..] + [p];
    }
  }

  /** Every character of a join comes from a part or from the separator. */
  lemma {:induction false} JoinChars(parts: seq<string>, sep: string, c: char)
    requires c in Join(parts, sep)
    ensures c in sep || exists i :: 0 <= i < |parts| && c in parts[i]
  {
    if |parts| > 1 {
      if c !in parts[0] && c !in sep {
        JoinChars(parts[1..], sep, c);
        var i :| 0 <= i < |parts[1..]| && c in parts[1..][i];
        assert c in parts[i + 1];
      }
    }
  }

  /** Joining non-empty tokens gives non-empty text. */
  lemma JoinNonEmpty(parts: seq<string>, sep: string)
    requires parts != [] && parts[0] != []
    ensures Join(parts, sep) != []
  {
  }

  /** The first index of `c` in `s`. */
  function IndexOf(s: string, c: char): (r: Option<nat>)
    ensures r.None? <==> c !in s
    ensures r.Some? ==> r.value < |s| && s[r.value] == c && c !in s[..r.value]
  {
    if s == [] then None
    else if s[0] == c then Some(0)
    else match IndexOf(s[1..], c)
      case None => None
      case Some(k) =>
        assert s[..k + 1] == [s[0]] + s[1..][..k];
        Some(k + 1)
  }

  /** Drops one `\r` directly in front of a line's `\n`. */
  function StripCr(l: string): (r: string)
    ensures r == l || (l == r + ['\r'])
  {
    if l != [] && l[|l| - 1] == '\r' then l[..|l| - 1] else l
  }

  /**
   * `str::lines` (and bstr's `lines`): split on `\n`, drop a `\r` that stands
   * directly before a `\n`, and produce no empty last line after a final `\n`.
   */
  function Lines(s: string): (ls: seq<string>)
    ensures forall i :: 0 <= i < |ls| ==> '\n' !in ls[i]
    ensures s == [] <==> ls == []
    decreases |s|
  {
    if s == [] then []
    else match IndexOf(s, '\n')
      case None => [s]
      case Some(i) => [StripCr(s[..i])] + Lines(s[i + 1..])
  }

  /** Every character of every line occurs in the text. */
  lemma {:induction false} LinesChars(s: string, k: nat, c: char)
    requires k < |Lines(s)| && c in Lines(s)[k]
    ensures c in s
    decreases |s|
  {
    match IndexOf(s, '\n')
    case None =>
    case Some(i) =>
      if k == 0 {
        assert c in s[..i];
      } else {
        LinesChars(s[i + 1..], k - 1, c);
        assert c in s[i + 1..];
      }
  }

  /** A line without `\n` followed by a newline is the first line. */
  lemma LinesCons(a: string, rest: string)
    requires '\n' !in a
    ensures Lines(a + "\n" + rest) == [StripCr(a)] + Lines(rest)
  {
    var s := a + "\n" + rest;
    assert s[|a|] == '\n';
    var r := IndexOf(s, '\n');
    assert r.Some?;
    assert s[..|a|] == a;
    assert s[|a| + 1..] == rest;
  }

  /** Text without `\n` is one line. */
  lemma LinesLast(a: string)
    requires '\n' !in a && a != []
    ensures Lines(a) == [a]
  {
  }

  /** Text that does not end in whitespace is its own `trim_end`. */
  lemma TrimEndKeeps(s: string)
    requires s == [] || !IsWhitespace(s[|s| - 1])
    ensures TrimEnd(s) == s
  {
  }

  /** Text with no whitespace at either end is its own trim. */
  lemma TrimKeeps(s: string)
    requires s != [] && !IsWhitespace(s[0]) && !IsWhitespace(s[|s| - 1])
    ensures Trim(s) == s
  {
    assert TrimStart(s) == s;
    TrimEndKeeps(s);
  }

  /** Dropping a whitespace prefix in front of a non-whitespace character. */
  lemma {:induction false} TrimStartAppend(p: string, t: string)
    requires AllWhitespace(p) && (t == [] || !IsWhitespace(t[0]))
    ensures TrimStart(p + t) == t
  {
    if p != [] {
      assert (p + t)[1..] == p[1..] + t;
      TrimStartAppend(p[1..], t);
    }
  }

  /** `str::split` on a set of separator characters; empty pieces are kept. */
  function SplitOn(s: string, seps: set<char>): (parts: seq<string>)
    ensures |parts| >= 1
    ensures forall i, j :: 0 <= i < |parts| && 0 <= j < |parts[i]| ==> parts[i][j] !in seps
    ensures s != [] && s[0] !in seps ==> parts[0] != []
    decreases |s|
  {
    if s == [] then [[]]
    else if s[0] in seps then [[]] + SplitOn(s[1..], seps)
    else
      var rest := SplitOn(s[1..], seps);
      [[s[0]] + rest[0]] + rest[1..]
  }

  /** Text without a separator is a single part. */
  lemma {:induction false} SplitOnNoSeparator(s: string, seps: set<char>)
    requires forall i :: 0 <= i < |s| ==> s[i] !in seps
    ensures SplitOn(s, seps) == [s]
    decreases |s|
  {
    if s != [] {
      SplitOnNoSeparator(s[1..], seps);
      assert [s[0]] + s[1..] == s;
    }
  }


  /** A separator ends the first part: the parts are that text, then the parts of the rest. */
  lemma {:induction false} SplitOnCons(a: string, c: char, rest: string, seps: set<char>)
    requires forall i :: 0 <= i < |a| ==> a[i] !in seps
    requires c in seps
    ensures SplitOn(a + [c] + rest, seps) == [a] + SplitOn(rest, seps)
    decreases |a|
  {
    var s := a + [c] + rest;
    if a == [] {
      assert s[0] == c && s[1..] == rest;
    } else {
      SplitOnCons(a[1..], c, rest, seps);
      assert s[0] == a[0] && s[1..] == a[1..] + [c] + rest;
      assert [a[0]] + a[1..] == a;
    }
  }

  /** The first position at which `sub` occurs in `s` (`str::find`). */
  function Find(s: string, sub: string): (r: Option<nat>)
    ensures r.Some? ==> r.value <= |s| && StartsWith(s[r.value..], sub)
    ensures r.Some? ==> forall j :: 0 <= j < r.value ==> !StartsWith(s[j..], sub)
    ensures r.None? ==> forall j :: 0 <= j <= |s| ==> !StartsWith(s[j..], sub)
  {
    if StartsWith(s, sub) then Some(0)
    else if s == [] then None
    else match Find(s[1..], sub)
      case None =>
        assert forall j :: 1 <= j <= |s| ==> s[j..] == s[1..][j - 1..];
        None
      case Some(k) =>
        assert forall j :: 1 <= j <= |s| ==> s[j..] == s[1..][j - 1..];
        Some(k + 1)
  }

  /** `str::contains` for a string pattern. */
  predicate Contains(s: string, sub: string) {
    Find(s, sub).Some?
  }

  /** ASCII lower-casing of one character. */
  function LowerChar(c: char): char {
    if 'A' <= c <= 'Z' then (c as int + 32) as char else c
  }

  /** `str::to_lowercase`, restricted to ASCII letters. */
  function ToLower(s: string): (r: string)
    ensures |r| == |s| && forall i :: 0 <= i < |s| ==> r[i] == LowerChar(s[i])
  {
    seq(|s|, i requires 0 <= i < |s| => LowerChar(s[i]))
  }

  /** `n` copies of one character (`" ".repeat(n)`). */
  function Repeat(c: char, n: nat): (r: string)
    ensures |r| == n && forall i :: 0 <= i < n ==> r[i] == c
  {
    seq(n, _ => c)
  }

  /** `str::replace` with a one-character pattern. */
  function ReplaceChar(s: string, c: char, rep: string): (r: string)
    ensures c !in s ==> r == s
    ensures c !in rep ==> c !in r
    ensures forall d :: d in r ==> d in s || d in rep
  {
    if s == [] then []
    else (if s[0] == c then rep else [s[0]]) + ReplaceChar(s[1..], c, rep)
  }

  /** Replacing in a concatenation replaces in each part. */
  lemma {:induction false} ReplaceCharAppend(a: string, b: string, c: char, rep: string)
    ensures ReplaceChar(a + b, c, rep) == ReplaceChar(a, c, rep) + ReplaceChar(b, c, rep)
  {
    if a == [] {
      assert a + b == b;
    } else {
      assert (a + b)[0] == a[0] && (a + b)[1..] == a[1..] + b;
      ReplaceCharAppend(a[1..], b, c, rep);
    }
  }

  /** `str::replace("  ", " ")`: one left-to-right pass over non-overlapping pairs. */
  function CollapseDoubleSpaces(s: string): (r: string)
    ensures forall d :: d in r ==> d in s
    decreases |s|
  {
    if |s| >= 2 && s[0] == ' ' && s[1] == ' ' then " " + CollapseDoubleSpaces(s[2..])
    else if s == [] then []
    else [s[0]] + CollapseDoubleSpaces(s[1..])
  }

  /** `str::trim_start_matches(c)`: drops every leading `c`. */
  function TrimStartMatches(s: string, c: char): (r: string)
    ensures |r| <= |s| && r == s[|s| - |r|..]
    ensures r == [] || r[0] != c
    ensures forall i :: 0 <= i < |s| - |r| ==> s[i] == c
  {
    if s != [] && s[0] == c then TrimStartMatches(s[1..], c) else s
  }
}
