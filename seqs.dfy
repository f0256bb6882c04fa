/** Sequence operations the drivers use on file lists: list-comprehension filtering, Python's
    `xs[:n]` slice and `sorted` on strings. */
module Seqs {

  /** `[x for x in s if keep(x)]`. */
  function Filter<T>(s: seq<T>, keep: T -> bool): (r: seq<T>)
    ensures |r| <= |s|
    decreases |s|
  {
    if s == [] then []
    else Filter(s[..|s| - 1], keep) + (if keep(s[|s| - 1]) then [s[|s| - 1]] else [])
  }

  /** Filtering keeps exactly the elements that pass the test. */
  lemma {:induction false} FilterMembers<T>(s: seq<T>, keep: T -> bool)
    ensures forall x :: x in Filter(s, keep) <==> x in s && keep(x)
    decreases |s|
  {
    if s != [] {
      FilterMembers(s[..|s| - 1], keep);
      assert s == s[..|s| - 1] + [s[|s| - 1]];
    }
  }

  /** Filtering commutes with concatenation, so the kept elements stay in their original order. */
  lemma {:induction false} FilterConcat<T>(a: seq<T>, b: seq<T>, keep: T -> bool)
    ensures Filter(a + b, keep) == Filter(a, keep) + Filter(b, keep)
    decreases |b|
  {
    if b != [] {
      assert (a + b)[..|a + b| - 1] == a + b[..|b| - 1];
      FilterConcat(a, b[..|b| - 1], keep);
    } else {
      assert a + b == a;
    }
  }

  /** Filtering a prefix gives a prefix of the filtered sequence. */
  lemma FilterOfPrefix<T>(s: seq<T>, i: nat, keep: T -> bool)
    requires i <= |s|
    ensures |Filter(s[..i], keep)| <= |Filter(s, keep)|
    ensures Filter(s[..i], keep) == Filter(s, keep)[..|Filter(s[..i], keep)|]
  {
    assert s == s[..i] + s[i..];
    FilterConcat(s[..i], s[i..], keep);
  }

  /** One more element of `s` extends the filtered prefix by that element when it passes. */
  lemma FilterSnoc<T>(s: seq<T>, i: nat, keep: T -> bool)
    requires i < |s|
    ensures Filter(s[..i + 1], keep) == Filter(s[..i], keep) + (if keep(s[i]) then [s[i]] else [])
  {
    assert s[..i + 1][..i] == s[..i];
  }

  /** Every element of `s` passes the test. */
  lemma {:induction false} FilterAll<T>(s: seq<T>, keep: T -> bool)
    requires forall x :: x in s ==> keep(x)
    ensures Filter(s, keep) == s
    decreases |s|
  {
    if s != [] {
      FilterAll(s[..|s| - 1], keep);
      assert s == s[..|s| - 1] + [s[|s| - 1]];
    }
  }

  /** Python's `s[:n]`: the first `n` elements, all of them when `n >= |s|`, and for negative
      `n` everything except the last `-n` elements. */
  function SliceTo<T>(s: seq<T>, n: int): (r: seq<T>)
    ensures |r| <= |s| && r == s[..|r|]
  {
    if n >= 0 then (if n <= |s| then s[..n] else s)
    else if |s| + n >= 0 then s[..|s| + n] else []
  }

  /** The length `s[:n]` has: `min(n, |s|)` for `n >= 0`, and `max(|s| + n, 0)` otherwise. */
  lemma SliceToLength<T>(s: seq<T>, n: int)
    ensures n >= 0 ==> |SliceTo(s, n)| == (if n < |s| then n else |s|)
    ensures n < 0 ==> |SliceTo(s, n)| == (if |s| + n > 0 then |s| + n else 0)
  {
  }

  /** Python's `<=` on `str`: code-point lexicographic order, a prefix coming first. */
  predicate LexLe(a: string, b: string)
    decreases |a|
  {
    a == [] || (b != [] && (a[0] < b[0] || (a[0] == b[0] && LexLe(a[1..], b[1..]))))
  }

  lemma {:induction false} LexLeTotal(a: string, b: string)
    ensures LexLe(a, b) || LexLe(b, a)
    decreases |a|
  {
    if a != [] && b != [] && a[0] == b[0] {
      LexLeTotal(a[1..], b[1..]);
    }
  }

  lemma {:induction false} LexLeTransitive(a: string, b: string, c: string)
    requires LexLe(a, b) && LexLe(b, c)
    ensures LexLe(a, c)
    decreases |a|
  {
    if a != [] && a[0] == b[0] && b[0] == c[0] {
      LexLeTransitive(a[1..], b[1..], c[1..]);
    }
  }

  lemma {:induction false} LexLeAntisymmetric(a: string, b: string)
    requires LexLe(a, b) && LexLe(b, a)
    ensures a == b
    decreases |a|
  {
    if a != [] {
      LexLeAntisymmetric(a[1..], b[1..]);
      assert a == [a[0]] + a[1..] && b == [b[0]] + b[1..];
    }
  }

  predicate Sorted(s: seq<string>)
  {
    forall i, j :: 0 <= i < j < |s| ==> LexLe(s[i], s[j])
  }

  /** Insert `x` before the first element it does not exceed. */
  function Insert(x: string, s: seq<string>): (r: seq<string>)
    ensures multiset(r) == multiset(s) + multiset{x}
    decreases |s|
  {
    if s == [] then [x]
    else if LexLe(x, s[0]) then [x] + s
    else
      assert s == [s[0]] + s[1..];
      [s[0]] + Insert(x, s[1..])
  }

  lemma {:induction false} InsertSorted(x: string, s: seq<string>)
    requires Sorted(s)
    ensures Sorted(Insert(x, s))
    decreases |s|
  {
    if s != [] {
      if LexLe(x, s[0]) {
        forall j | 1 < j < |s| + 1 ensures LexLe(x, ([x] + s)[j]) {
          LexLeTransitive(x, s[0], s[j - 1]);
        }
      } else {
        LexLeTotal(x, s[0]);
        InsertSorted(x, s[1..]);
        var r := Insert(x, s[1..]);
        forall y | y in r ensures LexLe(s[0], y) {
          assert y in multiset(r);
          if y != x { assert y in multiset(s[1..]); }
        }
      }
    }
  }

  /** Python's `sorted(s)` on strings (insertion sort; any stable sort gives the same list). */
  function Sort(s: seq<string>): (r: seq<string>)
    ensures multiset(r) == multiset(s)
    decreases |s|
  {
    if s == [] then []
    else
      assert s == [s[0]] + s[1..];
      Insert(s[0], Sort(s[1..]))
  }

  lemma {:induction false} SortSorted(s: seq<string>)
    ensures Sorted(Sort(s))
    decreases |s|
  {
    if s != [] {
      SortSorted(s[1..]);
      InsertSorted(s[0], Sort(s[1..]));
    }
  }

  /** Two sorted lists with the same elements are the same list. */
  lemma {:induction false} SortedUnique(a: seq<string>, b: seq<string>)
    requires Sorted(a) && Sorted(b) && multiset(a) == multiset(b)
    ensures a == b
    decreases |a|
  {
    if a == [] {
      assert |multiset(b)| == 0;
    } else {
      SortedHeads(a, b);
      SortedTail(a);
      SortedTail(b);
      SortedUnique(a[1..], b[1..]);
      assert a == [a[0]] + a[1..] && b == [b[0]] + b[1..];
    }
  }

  /** Two non-empty sorted lists with the same elements start with the same element. */
  lemma SortedHeads(a: seq<string>, b: seq<string>)
    requires a != [] && Sorted(a) && Sorted(b) && multiset(a) == multiset(b)
    ensures b != [] && a[0] == b[0]
  {
    assert |b| == |a| by { assert |multiset(a)| == |multiset(b)|; }
    assert a[0] in multiset(a);
    assert b[0] in multiset(b);
    LeastOfSorted(b, a[0]);
    LeastOfSorted(a, b[0]);
    LexLeAntisymmetric(a[0], b[0]);
  }

  /** Dropping the head of a sorted list leaves a sorted list with one copy of the head fewer. */
  lemma SortedTail(s: seq<string>)
    requires s != [] && Sorted(s)
    ensures Sorted(s[1..])
    ensures multiset(s[1..]) == multiset(s) - multiset{s[0]}
  {
    assert s == [s[0]] + s[1..];
  }

  lemma {:induction false} LexLeReflexive(a: string)
    ensures LexLe(a, a)
    decreases |a|
  {
    if a != [] {
      LexLeReflexive(a[1..]);
    }
  }

  /** The head of a sorted list does not exceed any of its elements. */
  lemma LeastOfSorted(s: seq<string>, y: string)
    requires Sorted(s) && y in multiset(s)
    ensures s != [] && LexLe(s[0], y)
  {
    var k :| 0 <= k < |s| && s[k] == y;
    if k == 0 {
      LexLeReflexive(y);
    }
  }

  /** `sorted` does not depend on the order the directory was listed in. */
  lemma SortIgnoresListingOrder(a: seq<string>, b: seq<string>)
    requires multiset(a) == multiset(b)
    ensures Sort(a) == Sort(b)
  {
    SortSorted(a);
    SortSorted(b);
    SortedUnique(Sort(a), Sort(b));
  }

  /** Filtering a sorted list leaves it sorted. */
  lemma FilterSorted(s: seq<string>, keep: string -> bool)
    requires Sorted(s)
    ensures Sorted(Filter(s, keep))
    decreases |s|
  {
    if s != [] {
      var init := s[..|s| - 1];
      FilterSorted(init, keep);
      FilterMembers(init, keep);
      var f := Filter(init, keep);
      forall i | 0 <= i < |f| ensures LexLe(f[i], s[|s| - 1]) {
        assert f[i] in init;
      }
    }
  }

  /** A prefix of the sorted selection of a listing, narrowed further by `keep`, holds listed
      elements that pass both tests, in sorted order. */
  lemma SortedSelection(listing: seq<string>, sel: string -> bool, keep: string -> bool, n: nat)
    requires n <= |Filter(Sort(Filter(listing, sel)), keep)|
    ensures forall p :: p in Filter(Sort(Filter(listing, sel)), keep)[..n] ==> p in listing && sel(p) && keep(p)
    ensures Sorted(Filter(Sort(Filter(listing, sel)), keep)[..n])
  {
    var chosen := Filter(listing, sel);
    var sorted := Sort(chosen);
    var u := Filter(sorted, keep);
    FilterMembers(listing, sel);
    SortKeepsMembers(chosen);
    FilterMembers(sorted, keep);
    PrefixMembers(u, n);
    SortSorted(chosen);
    FilterSorted(sorted, keep);
    PrefixSorted(u, n);
  }

  /** Sorting keeps exactly the elements it was given. */
  lemma SortKeepsMembers(s: seq<string>)
    ensures forall p :: p in Sort(s) ==> p in s
  {
    forall p | p in Sort(s) ensures p in s {
      assert p in multiset(Sort(s));
    }
  }

  lemma PrefixMembers<T>(s: seq<T>, n: nat)
    requires n <= |s|
    ensures forall p :: p in s[..n] ==> p in s
  {
    forall p | p in s[..n] ensures p in s {
      var k :| 0 <= k < n && s[..n][k] == p;
      assert s[k] == p;
    }
  }

  lemma PrefixSorted(s: seq<string>, n: nat)
    requires Sorted(s) && n <= |s|
    ensures Sorted(s[..n])
  {
  }

  /** Appending the image of the next element extends an element-wise image by one. */
  lemma MapSnoc<A, B>(out: seq<B>, xs: seq<A>, i: nat, y: B, f: A -> B)
    requires i < |xs| && |out| == i
    requires forall j :: 0 <= j < i ==> out[j] == f(xs[j])
    requires y == f(xs[i])
    ensures forall j :: 0 <= j < i + 1 ==> (out + [y])[j] == f(xs[j])
  {
  }

  /** `[f(x) for x in s if keep(x)]`. */
  function FilterMap<T, U>(s: seq<T>, keep: T -> bool, f: T -> U): seq<U>
    decreases |s|
  {
    if s == [] then []
    else FilterMap(s[..|s| - 1], keep, f) + (if keep(s[|s| - 1]) then [f(s[|s| - 1])] else [])
  }

  /** The comprehension is `f` applied to each element the filter keeps, in order. */
  lemma {:induction false} FilterMapOfFilter<T, U>(s: seq<T>, keep: T -> bool, f: T -> U)
    ensures |FilterMap(s, keep, f)| == |Filter(s, keep)|
    ensures forall i :: 0 <= i < |FilterMap(s, keep, f)| ==> FilterMap(s, keep, f)[i] == f(Filter(s, keep)[i])
    decreases |s|
  {
    if s != [] {
      var init := s[..|s| - 1];
      FilterMapOfFilter(init, keep, f);
      forall i | 0 <= i < |FilterMap(s, keep, f)|
        ensures FilterMap(s, keep, f)[i] == f(Filter(s, keep)[i])
      {
        if i < |FilterMap(init, keep, f)| {
          assert FilterMap(s, keep, f)[i] == FilterMap(init, keep, f)[i];
          assert Filter(s, keep)[i] == Filter(init, keep)[i];
        }
      }
    }
  }

  /** One more element extends the comprehension over a prefix by its image when it is kept. */
  lemma FilterMapSnoc<T, U>(s: seq<T>, i: nat, keep: T -> bool, f: T -> U)
    requires i < |s|
    ensures FilterMap(s[..i + 1], keep, f) == FilterMap(s[..i], keep, f) + (if keep(s[i]) then [f(s[i])] else [])
  {
    assert s[..i + 1][..i] == s[..i];
  }
}
