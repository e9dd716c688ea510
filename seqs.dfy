/**
 * Generic sequence operations shared by several stages: `flat_map`, the
 * first non-empty image (a loop's early return), keeping the first
 * element per key (the `seen`-set loops of `parse_line` and
 * `deduplicate_options`), order-preserving filtering (`Iterator::filter`), and
 * ordered sets kept as strictly sorted sequences (`BTreeSet`, and
 * `sort` followed by `dedup`).
 */
module Seqs {

  /** Associativity of concatenation, for proofs whose context makes it costly to rediscover. */
  lemma AppendAssoc<T>(a: seq<T>, b: seq<T>, c: seq<T>)
    ensures a + b + c == a + (b + c)
  {
  }

  /** `map`: the images of the elements under `f`, in order. */
  function Map<A, B>(xs: seq<A>, f: A -> B): (r: seq<B>)
    ensures |r| == |xs| && forall i :: 0 <= i < |xs| ==> r[i] == f(xs[i])
  {
    if xs == [] then [] else Map(xs[..|xs| - 1], f) + [f(xs[|xs| - 1])]
  }

  /** Concatenation of a sequence of sequences. */
  function Flatten<T>(xss: seq<seq<T>>): seq<T> {
    if xss == [] then [] else Flatten(xss[..|xss| - 1]) + xss[|xss| - 1]
  }

  lemma FlattenSnoc<T>(xss: seq<seq<T>>, xs: seq<T>)
    ensures Flatten(xss + [xs]) == Flatten(xss) + xs
  {
    assert (xss + [xs])[..|xss|] == xss;
  }

  /** An element of a concatenation comes from one of the parts. */
  lemma FlattenMembers<T>(xss: seq<seq<T>>, y: T)
    ensures y in Flatten(xss) <==> exists k :: 0 <= k < |xss| && y in xss[k]
  {
    if y in Flatten(xss) {
      FlattenMemberOf(xss, y);
    }
    if exists k :: 0 <= k < |xss| && y in xss[k] {
      var k :| 0 <= k < |xss| && y in xss[k];
      FlattenMemberFrom(xss, k, y);
    }
  }

  /** An element of the concatenation lies in some part. */
  lemma {:induction false} FlattenMemberOf<T>(xss: seq<seq<T>>, y: T)
    requires y in Flatten(xss)
    ensures exists k :: 0 <= k < |xss| && y in xss[k]
  {
    var init := xss[..|xss| - 1];
    if y !in xss[|xss| - 1] {
      FlattenMemberOf(init, y);
      var k :| 0 <= k < |init| && y in init[k];
      assert xss[k] == init[k];
    }
  }

  /** An element of a part lies in the concatenation. */
  lemma {:induction false} FlattenMemberFrom<T>(xss: seq<seq<T>>, k: nat, y: T)
    requires k < |xss| && y in xss[k]
    ensures y in Flatten(xss)
  {
    var init := xss[..|xss| - 1];
    if k < |init| {
      assert init[k] == xss[k];
      FlattenMemberFrom(init, k, y);
    }
  }

  /** Mapping one more element appends its image. */
  lemma MapSnoc<A, B>(xs: seq<A>, x: A, f: A -> B)
    ensures Map(xs + [x], f) == Map(xs, f) + [f(x)]
  {
    assert (xs + [x])[..|xs|] == xs;
  }

  /** `flat_map`: the images of the elements under `f`, concatenated in order. */
  function FlatMap<A, B>(xs: seq<A>, f: A -> seq<B>): seq<B> {
    if xs == [] then [] else FlatMap(xs[..|xs| - 1], f) + f(xs[|xs| - 1])
  }

  lemma FlatMapSnoc<A, B>(xs: seq<A>, x: A, f: A -> seq<B>)
    ensures FlatMap(xs + [x], f) == FlatMap(xs, f) + f(x)
  {
    assert (xs + [x])[..|xs|] == xs;
  }

  /** The flat map of two elements: their images, in order. */
  lemma FlatMapOfTwo<A, B>(a: A, b: A, f: A -> seq<B>)
    ensures FlatMap([a, b], f) == f(a) + f(b)
  {
    FlatMapSnoc([], a, f);
    assert [] + [a] == [a];
    FlatMapSnoc([a], b, f);
    assert [a] + [b] == [a, b];
  }

  /** The flat map of three elements: their images, in order. */
  lemma FlatMapOfThree<A, B>(a: A, b: A, c: A, f: A -> seq<B>)
    ensures FlatMap([a, b, c], f) == f(a) + f(b) + f(c)
  {
    FlatMapOfTwo(a, b, f);
    FlatMapSnoc([a, b], c, f);
    assert [a, b] + [c] == [a, b, c];
  }

  /** Three elements whose images are one, one and no element: those two. */
  lemma FlatMapOneOneNone<A, B>(a: A, b: A, c: A, x: B, y: B, f: A -> seq<B>)
    requires f(a) == [x] && f(b) == [y] && f(c) == []
    ensures FlatMap([a, b, c], f) == [x, y]
  {
    FlatMapOfThree(a, b, c, f);
    assert [x] + [y] + [] == [x, y];
  }

  /** One more element of a prefix adds its image at the end. */
  lemma FlatMapPrefix<A, B>(xs: seq<A>, j: nat, f: A -> seq<B>)
    requires j < |xs|
    ensures FlatMap(xs[..j + 1], f) == FlatMap(xs[..j], f) + f(xs[j])
  {
    assert xs[..j + 1][..j] == xs[..j];
  }

  lemma {:induction false} FlatMapAppend<A, B>(a: seq<A>, b: seq<A>, f: A -> seq<B>)
    ensures FlatMap(a + b, f) == FlatMap(a, f) + FlatMap(b, f)
    decreases |b|
  {
    if b == [] {
      assert a + b == a;
    } else {
      var init := b[..|b| - 1];
      FlatMapAppend(a, init, f);
      assert a + b == (a + init) + [b[|b| - 1]];
      FlatMapSnoc(a + init, b[|b| - 1], f);
      AppendAssoc(FlatMap(a, f), FlatMap(init, f), f(b[|b| - 1]));
    }
  }

  /** A flat map is the images before an element, its own image, and the images after it. */
  lemma {:induction false} FlatMapSplit<A, B>(xs: seq<A>, k: nat, f: A -> seq<B>)
    requires k < |xs|
    ensures FlatMap(xs, f) == FlatMap(xs[..k], f) + f(xs[k]) + FlatMap(xs[k + 1..], f)
  {
    var front, back := xs[..k] + [xs[k]], xs[k + 1..];
    assert xs == front + back;
    FlatMapAppend(front, back, f);
    FlatMapSnoc(xs[..k], xs[k], f);
  }

  /** An element of a flat map comes from the image of some element. */
  lemma {:induction false} FlatMapMembers<A, B>(xs: seq<A>, f: A -> seq<B>, y: B)
    ensures y in FlatMap(xs, f) <==> exists i :: 0 <= i < |xs| && y in f(xs[i])
  {
    if xs != [] {
      var init := xs[..|xs| - 1];
      FlatMapMembers(init, f, y);
      if y in FlatMap(init, f) {
        var i :| 0 <= i < |init| && y in f(init[i]);
        assert xs[i] == init[i];
      }
      if exists i :: 0 <= i < |xs| && y in f(xs[i]) {
        var i :| 0 <= i < |xs| && y in f(xs[i]);
        if i < |init| {
          assert init[i] == xs[i];
        }
      }
    }
  }

  /** The first non-empty image of an element under `f`; empty when there is none. */
  function FirstNonEmpty<A, B>(xs: seq<A>, f: A -> seq<B>): seq<B> {
    if xs == [] then [] else if f(xs[0]) != [] then f(xs[0]) else FirstNonEmpty(xs[1..], f)
  }

  /** `FirstNonEmpty` from position `i` on: the image there if non-empty, else what follows. */
  lemma FirstNonEmptyStep<A, B>(xs: seq<A>, i: nat, f: A -> seq<B>)
    requires i < |xs|
    ensures FirstNonEmpty(xs[i..], f) ==
            if f(xs[i]) != [] then f(xs[i]) else FirstNonEmpty(xs[i + 1..], f)
  {
    assert xs[i..][0] == xs[i] && xs[i..][1..] == xs[i + 1..];
  }

  /**
   * The result is empty exactly when every image is; otherwise it is the
   * image of an element all of whose predecessors have empty images.
   */
  lemma {:induction false} FirstNonEmptyCharacterized<A, B>(xs: seq<A>, f: A -> seq<B>)
    ensures FirstNonEmpty(xs, f) == [] <==> forall i :: 0 <= i < |xs| ==> f(xs[i]) == []
    ensures FirstNonEmpty(xs, f) != [] ==>
              exists i :: 0 <= i < |xs| && f(xs[i]) == FirstNonEmpty(xs, f) &&
                forall h :: 0 <= h < i ==> f(xs[h]) == []
  {
    if xs != [] {
      var r := FirstNonEmpty(xs, f);
      if f(xs[0]) != [] {
        assert r == f(xs[0]);
      } else {
        var rest := xs[1..];
        assert r == FirstNonEmpty(rest, f);
        FirstNonEmptyCharacterized(rest, f);
        assert forall i :: 1 <= i < |xs| ==> xs[i] == rest[i - 1];
        if r != [] {
          var i :| 0 <= i < |rest| && f(rest[i]) == r && forall h :: 0 <= h < i ==> f(rest[h]) == [];
          assert f(xs[i + 1]) == r;
          assert forall h :: 0 <= h < i + 1 ==> f(xs[h]) == [] by {
            forall h | 0 <= h < i + 1 ensures f(xs[h]) == [] {
              if h > 0 { assert xs[h] == rest[h - 1]; }
            }
          }
        }
      }
    }
  }

  /** `take_while`: the longest prefix whose elements all satisfy `p`. */
  function TakeWhile<T>(xs: seq<T>, p: T -> bool): (r: seq<T>)
    ensures |r| <= |xs| && r == xs[..|r|]
    ensures forall k :: 0 <= k < |r| ==> p(r[k])
    ensures |r| < |xs| ==> !p(xs[|r|])
  {
    if xs == [] || !p(xs[0]) then [] else [xs[0]] + TakeWhile(xs[1..], p)
  }

  /** A slice grown by one element at its end. */
  lemma SliceSnoc<T>(xs: seq<T>, i: nat, j: nat)
    requires i <= j < |xs|
    ensures xs[i..j + 1] == xs[i..j] + [xs[j]]
  {
  }

  /** Taking from `xs[i..]` once `xs[i..j]` has been taken: one more element, or the end. */
  lemma TakeWhileStep<T>(xs: seq<T>, i: nat, j: nat, p: T -> bool)
    requires i <= j < |xs|
    requires TakeWhile(xs[i..], p) == xs[i..j] + TakeWhile(xs[j..], p)
    ensures p(xs[j]) ==> TakeWhile(xs[i..], p) == xs[i..j + 1] + TakeWhile(xs[j + 1..], p)
    ensures !p(xs[j]) ==> TakeWhile(xs[i..], p) == xs[i..j]
  {
    assert xs[j..][0] == xs[j] && xs[j..][1..] == xs[j + 1..];
    if p(xs[j]) {
      assert xs[i..j + 1] == xs[i..j] + [xs[j]];
      AppendAssoc(xs[i..j], [xs[j]], TakeWhile(xs[j + 1..], p));
    }
  }

  /** Some element satisfies `start`, and it and every later element satisfy `keep`. */
  ghost predicate HoldsSince<T>(xs: seq<T>, start: T -> bool, keep: T -> bool) {
    exists j :: 0 <= j < |xs| && start(xs[j]) && forall k :: j <= k < |xs| ==> keep(xs[k])
  }

  /** The condition after one more element: it keeps, and it starts or the condition held before. */
  lemma HoldsSinceSnoc<T>(xs: seq<T>, start: T -> bool, keep: T -> bool)
    requires xs != []
    ensures var last := xs[|xs| - 1];
            HoldsSince(xs, start, keep) <==>
              keep(last) && (start(last) || HoldsSince(xs[..|xs| - 1], start, keep))
  {
    var init := xs[..|xs| - 1];
    var last := |xs| - 1;
    if HoldsSince(xs, start, keep) {
      var j :| 0 <= j < |xs| && start(xs[j]) && forall k :: j <= k < |xs| ==> keep(xs[k]);
      assert keep(xs[last]);
      if j < last {
        assert start(init[j]);
        assert forall k :: j <= k < |init| ==> keep(init[k]) by {
          forall k | j <= k < |init| ensures keep(init[k]) {
            assert init[k] == xs[k];
          }
        }
      }
    }
    if keep(xs[last]) {
      if start(xs[last]) {
        assert forall k :: last <= k < |xs| ==> keep(xs[k]);
      } else if HoldsSince(init, start, keep) {
        var j :| 0 <= j < |init| && start(init[j]) && forall k :: j <= k < |init| ==> keep(init[k]);
        assert start(xs[j]);
        assert forall k :: j <= k < |xs| ==> keep(xs[k]) by {
          forall k | j <= k < |xs| ensures keep(xs[k]) {
            if k < last { assert xs[k] == init[k]; }
          }
        }
      }
    }
  }

  /** `a` is `b` with some elements left out, the order kept. */
  predicate IsSubsequence<T(==)>(a: seq<T>, b: seq<T>)
    decreases |b|
  {
    if a == [] then true
    else if b == [] then false
    else if a[|a| - 1] == b[|b| - 1] then IsSubsequence(a[..|a| - 1], b[..|b| - 1])
    else IsSubsequence(a, b[..|b| - 1])
  }

  lemma {:induction false} SubsequenceDropLast<T>(a: seq<T>, b: seq<T>)
    requires a != [] && IsSubsequence(a, b)
    ensures IsSubsequence(a[..|a| - 1], b)
    decreases |b|
  {
    var a' := a[..|a| - 1];
    if a' != [] {
      SubsequenceDropLast(if a[|a| - 1] == b[|b| - 1] then a' else a, b[..|b| - 1]);
      if a[|a| - 1] != b[|b| - 1] {
        assert IsSubsequence(a', b[..|b| - 1]);
        if a'[|a'| - 1] == b[|b| - 1] {
          SubsequenceDropLast(a', b[..|b| - 1]);
          assert a'[..|a'| - 1] == a[..|a| - 2];
        }
      } else {
        if a'[|a'| - 1] == b[|b| - 1] {
          SubsequenceDropLast(a', b[..|b| - 1]);
        }
      }
    }
  }

  /** Appending an element to the larger sequence keeps a subsequence. */
  lemma SubsequenceSnocRight<T>(a: seq<T>, b: seq<T>, x: T)
    requires IsSubsequence(a, b)
    ensures IsSubsequence(a, b + [x])
  {
    assert (b + [x])[..|b|] == b;
    if a != [] && a[|a| - 1] == x {
      SubsequenceDropLast(a, b);
    }
  }

  /** Appending the same element to both sides keeps a subsequence. */
  lemma SubsequenceSnocBoth<T>(a: seq<T>, b: seq<T>, x: T)
    requires IsSubsequence(a, b)
    ensures IsSubsequence(a + [x], b + [x])
  {
    assert (a + [x])[..|a|] == a;
    assert (b + [x])[..|b|] == b;
  }

  /** A subsequence of a subsequence is a subsequence. */
  lemma {:induction false} SubsequenceTransitive<T>(a: seq<T>, b: seq<T>, c: seq<T>)
    requires IsSubsequence(a, b) && IsSubsequence(b, c)
    ensures IsSubsequence(a, c)
    decreases |c|
  {
    if a != [] && b != [] {
      var c' := c[..|c| - 1];
      if b[|b| - 1] == c[|c| - 1] {
        if a[|a| - 1] == b[|b| - 1] {
          SubsequenceTransitive(a[..|a| - 1], b[..|b| - 1], c');
        } else {
          SubsequenceTransitive(a, b[..|b| - 1], c');
        }
      } else {
        SubsequenceTransitive(a, b, c');
        SubsequenceSnocRight(a, c', c[|c| - 1]);
        assert c' + [c[|c| - 1]] == c;
      }
    }
  }

  /** Every element of a subsequence occurs in the larger sequence. */
  lemma {:induction false} SubsequenceElements<T>(a: seq<T>, b: seq<T>, x: T)
    requires IsSubsequence(a, b) && x in a
    ensures x in b
    decreases |b|
  {
    if a[|a| - 1] == b[|b| - 1] {
      if x != a[|a| - 1] {
        assert x in a[..|a| - 1] by {
          var i :| 0 <= i < |a| && a[i] == x;
          assert a[..|a| - 1][i] == x;
        }
        SubsequenceElements(a[..|a| - 1], b[..|b| - 1], x);
      } else {
        assert b[|b| - 1] == x;
      }
    } else {
      SubsequenceElements(a, b[..|b| - 1], x);
    }
  }

  /** The keys of the elements of `xs`. */
  function KeySet<T, K>(xs: seq<T>, key: T -> K): set<K> {
    set i | 0 <= i < |xs| :: key(xs[i])
  }

  lemma KeySetSnoc<T, K>(xs: seq<T>, x: T, key: T -> K)
    ensures KeySet(xs + [x], key) == KeySet(xs, key) + {key(x)}
  {
    var ys := xs + [x];
    forall k | k in KeySet(ys, key) ensures k in KeySet(xs, key) + {key(x)} {
      var i :| 0 <= i < |ys| && key(ys[i]) == k;
      if i < |xs| { assert ys[i] == xs[i]; }
    }
    forall k | k in KeySet(xs, key) ensures k in KeySet(ys, key) {
      var i :| 0 <= i < |xs| && key(xs[i]) == k;
      assert ys[i] == xs[i];
    }
    assert key(ys[|xs|]) == key(x);
  }

  /** No two elements share a key. */
  predicate DistinctKeys<T, K(==)>(xs: seq<T>, key: T -> K) {
    forall i, j :: 0 <= i < j < |xs| ==> key(xs[i]) != key(xs[j])
  }

  /**
   * Keeps the first element for each key, in input order: the loop that
   * remembers the keys already pushed in a `seen` set.
   */
  function DedupBy<T, K(==)>(xs: seq<T>, key: T -> K): seq<T>
  {
    if xs == [] then []
    else
      var d := DedupBy(xs[..|xs| - 1], key);
      var x := xs[|xs| - 1];
      if key(x) in KeySet(d, key) then d else d + [x]
  }

  /**
   * What `DedupBy` keeps: no two results share a key, every input key is kept,
   * and the result is a subsequence of the input.
   */
  lemma {:induction false} DedupByProperties<T, K>(xs: seq<T>, key: T -> K)
    ensures DistinctKeys(DedupBy(xs, key), key)
    ensures KeySet(DedupBy(xs, key), key) == KeySet(xs, key)
    ensures IsSubsequence(DedupBy(xs, key), xs)
  {
    if xs != [] {
      var init := xs[..|xs| - 1];
      var x := xs[|xs| - 1];
      assert xs == init + [x];
      var d := DedupBy(init, key);
      DedupByProperties(init, key);
      KeySetSnoc(init, x, key);
      if key(x) in KeySet(d, key) {
        SubsequenceSnocRight(d, init, x);
      } else {
        KeySetSnoc(d, x, key);
        SubsequenceSnocBoth(d, init, x);
        forall i | 0 <= i < |d| ensures key((d + [x])[i]) != key(x) {
          assert key(d[i]) in KeySet(d, key);
        }
      }
    }
  }

  /**
   * An element is kept exactly when no earlier input element has its key:
   * the first occurrence of each key wins.
   */
  lemma DedupByKeepsFirst<T, K>(xs: seq<T>, x: T, key: T -> K)
    ensures DedupBy(xs + [x], key) ==
            if key(x) in KeySet(xs, key) then DedupBy(xs, key) else DedupBy(xs, key) + [x]
  {
    assert (xs + [x])[..|xs|] == xs;
    DedupByProperties(xs, key);
  }

  /** An element followed by itself is kept once. */
  lemma DedupByRepeat<T, K>(x: T, key: T -> K)
    ensures DedupBy([x, x], key) == [x]
  {
    assert [x][..0] == [];
    assert DedupBy([x], key) == [x];
    assert key([x][0]) in KeySet([x], key);
    DedupByKeepsFirst([x], x, key);
    assert [x] + [x] == [x, x];
  }

  /** Two one-element sequences joined: the two elements. */
  lemma ConcatOfSingles<T>(xs: seq<T>, ys: seq<T>, x: T, y: T)
    requires xs == [x] && ys == [y]
    ensures xs + ys == [x, y]
  {
  }

  /** One element before a two-element sequence: the three elements. */
  lemma ConsOfTwo<T>(x: T, ys: seq<T>, y0: T, y1: T)
    requires ys == [y0, y1]
    ensures [x] + ys == [x, y0, y1]
  {
  }

  /** One element with a single image: deduplication keeps that image. */
  lemma FlatMapOneDedup<A, B, K>(x: A, y: B, f: A -> seq<B>, key: B -> K)
    requires f(x) == [y]
    ensures DedupBy(FlatMap([x], f), key) == [y]
  {
    FlatMapSnoc([], x, f);
    assert [] + [x] == [x];
    assert [y][..0] == [];
  }

  /** An element with a single image, taken twice: deduplication keeps that image once. */
  lemma FlatMapRepeatDedup<A, B, K>(x: A, y: B, f: A -> seq<B>, key: B -> K)
    requires f(x) == [y]
    ensures DedupBy(FlatMap([x, x], f), key) == [y]
  {
    FlatMapOfTwo(x, x, f);
    assert [y] + [y] == [y, y];
    DedupByRepeat(y, key);
  }

  /** Three elements with single images of distinct keys: deduplication keeps all three images. */
  lemma FlatMapThreeDedup<A, B, K>(x0: A, x1: A, x2: A, y0: B, y1: B, y2: B, f: A -> seq<B>, key: B -> K)
    requires f(x0) == [y0] && f(x1) == [y1] && f(x2) == [y2]
    requires key(y0) != key(y1) && key(y0) != key(y2) && key(y1) != key(y2)
    ensures DedupBy(FlatMap([x0, x1, x2], f), key) == [y0, y1, y2]
  {
    FlatMapOfThree(x0, x1, x2, f);
    var ys := [y0, y1, y2];
    assert [y0] + [y1] + [y2] == ys;
    assert DistinctKeys(ys, key);
    DedupByOfDistinct(ys, key);
  }

  /** On a sequence whose keys are already distinct, `DedupBy` changes nothing. */
  lemma {:induction false} DedupByOfDistinct<T, K>(xs: seq<T>, key: T -> K)
    requires DistinctKeys(xs, key)
    ensures DedupBy(xs, key) == xs
  {
    if xs != [] {
      var init := xs[..|xs| - 1];
      var x := xs[|xs| - 1];
      assert DistinctKeys(init, key);
      DedupByOfDistinct(init, key);
      forall i | 0 <= i < |init| ensures key(init[i]) != key(x) {
        assert key(xs[i]) != key(xs[|xs| - 1]);
      }
      assert init + [x] == xs;
    }
  }

  /** `DedupBy` is idempotent. */
  lemma DedupByIdempotent<T, K>(xs: seq<T>, key: T -> K)
    ensures DedupBy(DedupBy(xs, key), key) == DedupBy(xs, key)
  {
    DedupByProperties(xs, key);
    DedupByOfDistinct(DedupBy(xs, key), key);
  }

  /** The elements satisfying `p`, in order (`Iterator::filter`). */
  function Filter<T>(xs: seq<T>, p: T -> bool): seq<T>
  {
    if xs == [] then []
    else
      var f := Filter(xs[..|xs| - 1], p);
      if p(xs[|xs| - 1]) then f + [xs[|xs| - 1]] else f
  }

  /**
   * `Filter` keeps exactly the elements satisfying `p`, as a subsequence of
   * the input.
   */
  lemma {:induction false} FilterProperties<T>(xs: seq<T>, p: T -> bool)
    ensures forall y :: y in Filter(xs, p) <==> y in xs && p(y)
    ensures IsSubsequence(Filter(xs, p), xs)
  {
    if xs != [] {
      var init := xs[..|xs| - 1];
      var x := xs[|xs| - 1];
      assert xs == init + [x];
      FilterProperties(init, p);
      if p(x) {
        SubsequenceSnocBoth(Filter(init, p), init, x);
      } else {
        SubsequenceSnocRight(Filter(init, p), init, x);
      }
    }
  }

  /** Filtering keeps the keys distinct. */
  lemma {:induction false} FilterKeepsDistinct<T, K>(xs: seq<T>, p: T -> bool, key: T -> K)
    requires DistinctKeys(xs, key)
    ensures DistinctKeys(Filter(xs, p), key)
    ensures KeySet(Filter(xs, p), key) <= KeySet(xs, key)
  {
    if xs != [] {
      var init := xs[..|xs| - 1];
      var x := xs[|xs| - 1];
      assert xs == init + [x];
      assert DistinctKeys(init, key);
      FilterKeepsDistinct(init, p, key);
      var f := Filter(init, p);
      KeySetSnoc(init, x, key);
      if p(x) {
        KeySetSnoc(f, x, key);
        forall i | 0 <= i < |init| ensures key(init[i]) != key(x) {
          assert key(xs[i]) != key(xs[|xs| - 1]);
        }
        forall i | 0 <= i < |f| ensures key((f + [x])[i]) != key(x) {
          assert key(f[i]) in KeySet(f, key);
        }
      }
    }
  }

  /** Filtering a sequence whose every element satisfies `p` changes nothing. */
  lemma {:induction false} FilterAll<T>(xs: seq<T>, p: T -> bool)
    requires forall i :: 0 <= i < |xs| ==> p(xs[i])
    ensures Filter(xs, p) == xs
  {
    if xs != [] {
      var init := xs[..|xs| - 1];
      FilterAll(init, p);
      assert init + [xs[|xs| - 1]] == xs;
    }
  }

  /** Filtering twice with the same predicate is filtering once. */
  lemma {:induction false} FilterIdempotent<T>(xs: seq<T>, p: T -> bool)
    ensures Filter(Filter(xs, p), p) == Filter(xs, p)
  {
    if xs != [] {
      var init := xs[..|xs| - 1];
      var x := xs[|xs| - 1];
      FilterIdempotent(init, p);
      var f := Filter(init, p);
      if p(x) {
        assert (f + [x])[..|f|] == f;
      }
    }
  }

  /** `less` is irreflexive, transitive and total on distinct values. */
  ghost predicate StrictTotalOrder<T(!new)>(less: (T, T) -> bool) {
    && (forall x :: !less(x, x))
    && (forall x, y, z :: less(x, y) && less(y, z) ==> less(x, z))
    && (forall x, y :: x != y ==> less(x, y) || less(y, x))
  }

  /** Strictly increasing under `less`: sorted, with no duplicates. */
  predicate StrictlySorted<T>(xs: seq<T>, less: (T, T) -> bool) {
    forall i, j :: 0 <= i < j < |xs| ==> less(xs[i], xs[j])
  }

  /** Insertion into an ordered set kept as a strictly sorted sequence (`BTreeSet::insert`). */
  function SortedInsert<T(==)>(xs: seq<T>, x: T, less: (T, T) -> bool): seq<T>
  {
    if xs == [] then [x]
    else if x == xs[0] then xs
    else if less(x, xs[0]) then [x] + xs
    else [xs[0]] + SortedInsert(xs[1..], x, less)
  }

  lemma {:induction false} SortedInsertProperties<T(!new)>(xs: seq<T>, x: T, less: (T, T) -> bool)
    requires StrictTotalOrder(less) && StrictlySorted(xs, less)
    ensures StrictlySorted(SortedInsert(xs, x, less), less)
    ensures forall y :: y in SortedInsert(xs, x, less) <==> y in xs || y == x
  {
    if xs != [] && x != xs[0] && !less(x, xs[0]) {
      var tail := xs[1..];
      assert StrictlySorted(tail, less);
      SortedInsertProperties(tail, x, less);
      var r := SortedInsert(tail, x, less);
      assert less(xs[0], x);
      forall y | y in r ensures less(xs[0], y) {
        if y != x {
          var i :| 0 <= i < |tail| && tail[i] == y;
          assert xs[i + 1] == y;
        }
      }
      forall i, j | 0 <= i < j < |[xs[0]] + r| ensures less(([xs[0]] + r)[i], ([xs[0]] + r)[j]) {
        if i == 0 {
          assert ([xs[0]] + r)[j] in r;
        } else {
          assert ([xs[0]] + r)[i] == r[i - 1];
          assert ([xs[0]] + r)[j] == r[j - 1];
        }
      }
    } else if xs != [] && x != xs[0] {
      forall i, j | 0 <= i < j < |[x] + xs| ensures less(([x] + xs)[i], ([x] + xs)[j]) {
        if i == 0 {
          assert ([x] + xs)[j] == xs[j - 1];
          if j > 1 { assert less(xs[0], xs[j - 1]); }
        } else {
          assert ([x] + xs)[i] == xs[i - 1];
          assert ([x] + xs)[j] == xs[j - 1];
        }
      }
    }
  }

  /** The ordered set of the elements of `xs`: insert them one after another. */
  function SortedSet<T(==)>(xs: seq<T>, less: (T, T) -> bool): seq<T>
  {
    if xs == [] then [] else SortedInsert(SortedSet(xs[..|xs| - 1], less), xs[|xs| - 1], less)
  }

  /** `SortedSet` is strictly increasing and has exactly the elements of its input. */
  lemma {:induction false} SortedSetProperties<T(!new)>(xs: seq<T>, less: (T, T) -> bool)
    requires StrictTotalOrder(less)
    ensures StrictlySorted(SortedSet(xs, less), less)
    ensures forall y :: y in SortedSet(xs, less) <==> y in xs
  {
    if xs != [] {
      var init := xs[..|xs| - 1];
      SortedSetProperties(init, less);
      SortedInsertProperties(SortedSet(init, less), xs[|xs| - 1], less);
      assert xs == init + [xs[|xs| - 1]];
    }
  }

  /** The ordered set of two different elements: the smaller one first. */
  lemma SortedSetOfTwo<T>(a: T, b: T, less: (T, T) -> bool)
    requires a != b
    ensures SortedSet([a, b], less) == if less(b, a) then [b, a] else [a, b]
  {
    assert [a, b][..1] == [a] && [a][..0] == [];
    assert SortedSet([a], less) == [a];
    assert [a][1..] == [] && SortedInsert([], b, less) == [b];
  }

  /** The ordered set of one element. */
  lemma SortedSetOfOne<T>(a: T, less: (T, T) -> bool)
    ensures SortedSet([a], less) == [a]
  {
    assert [a][..0] == [];
  }

  /**
   * A strictly sorted sequence is determined by its elements: any two with the
   * same elements are equal. So `sort` followed by `dedup`, or collecting a
   * `BTreeSet`, gives the same sequence as `SortedSet`.
   */
  lemma {:induction false} StrictlySortedUnique<T(!new)>(a: seq<T>, b: seq<T>, less: (T, T) -> bool)
    requires StrictTotalOrder(less)
    requires StrictlySorted(a, less) && StrictlySorted(b, less)
    requires forall y :: y in a <==> y in b
    ensures a == b
  {
    assert a == [] <==> b == [] by {
      if a != [] { assert a[0] in a; }
      if b != [] { assert b[0] in b; }
    }
    if a != [] {
      assert a[0] == b[0] by {
        assert a[0] in a && b[0] in b;
      }
      forall y ensures y in a[1..] <==> y in b[1..] {
        if y in a[1..] {
          var i :| 0 <= i < |a[1..]| && a[1..][i] == y;
          assert less(a[0], a[i + 1]);
          assert y in b;
        }
        if y in b[1..] {
          var i :| 0 <= i < |b[1..]| && b[1..][i] == y;
          assert less(b[0], b[i + 1]);
          assert y in a;
        }
      }
      assert StrictlySorted(a[1..], less);
      assert StrictlySorted(b[1..], less);
      StrictlySortedUnique(a[1..], b[1..], less);
      assert a == [a[0]] + a[1..];
      assert b == [b[0]] + b[1..];
    }
  }
}
