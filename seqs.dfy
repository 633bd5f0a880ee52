/** Order-preserving sequence operations shared by the pipeline stages:
    filtering, subsequences, duplicate removal, sorting and head(n). */
module Seqs {

  /** Applies `f` to every element, keeping the order. */
  function Map<T, U>(f: T -> U, s: seq<T>): (r: seq<U>)
    ensures |r| == |s|
    ensures forall i :: 0 <= i < |s| ==> r[i] == f(s[i])
  {
    seq(|s|, i requires 0 <= i < |s| => f(s[i]))
  }

  /** Mapping distributes over concatenation. */
  lemma MapConcat<T, U>(f: T -> U, a: seq<T>, b: seq<T>)
    ensures Map(f, a + b) == Map(f, a) + Map(f, b)
  {
    var ab := a + b;
    assert forall i :: 0 <= i < |a| ==> ab[i] == a[i];
    assert forall i :: 0 <= i < |b| ==> ab[|a| + i] == b[i];
    assert Map(f, ab) == Map(f, a) + Map(f, b);
  }

  /** The elements of `s` that satisfy `p`, in their original order
      (a boolean mask `df[mask]`). */
  function Filter<T(==,!new)>(p: T -> bool, s: seq<T>): (r: seq<T>)
    ensures |r| <= |s|
    ensures forall i :: 0 <= i < |r| ==> p(r[i])
    decreases |s|
  {
    if |s| == 0 then []
    else
      var init := s[..|s| - 1];
      var rest := Filter(p, init);
      if p(s[|s| - 1]) then rest + [s[|s| - 1]] else rest
  }

  /** A filter keeps the selected rows in their original order. */
  lemma {:induction false} FilterSubsequence<T(!new)>(p: T -> bool, s: seq<T>)
    ensures Subsequence(Filter(p, s), s)
    decreases |s|
  {
    if |s| > 0 {
      var init := s[..|s| - 1];
      FilterSubsequence(p, init);
      if p(s[|s| - 1]) {
        var r := Filter(p, s);
        assert r[..|r| - 1] == Filter(p, init);
      } else {
        SubsequenceSnoc(Filter(p, init), init, s[|s| - 1]);
        assert init + [s[|s| - 1]] == s;
      }
    }
  }

  /** A filter keeps every copy of a selected value and no copy of any other. */
  lemma {:induction false} FilterCount<T(!new)>(p: T -> bool, s: seq<T>, x: T)
    ensures multiset(Filter(p, s))[x] == if p(x) then multiset(s)[x] else 0
    decreases |s|
  {
    if |s| > 0 {
      var init := s[..|s| - 1];
      assert s == init + [s[|s| - 1]];
      FilterCount(p, init, x);
    }
  }

  /** A row is selected exactly when it is in the input and passes `p`. */
  lemma FilterIn<T(!new)>(p: T -> bool, s: seq<T>)
    ensures forall x :: x in Filter(p, s) <==> x in s && p(x)
  {
    forall x ensures x in Filter(p, s) <==> x in s && p(x) {
      FilterCount(p, s, x);
    }
  }

  /** Filtering a concatenation filters each part. */
  lemma {:induction false} FilterConcat<T(!new)>(p: T -> bool, a: seq<T>, b: seq<T>)
    ensures Filter(p, a + b) == Filter(p, a) + Filter(p, b)
    decreases |b|
  {
    if |b| == 0 {
      assert a + b == a;
    } else {
      var b', x := b[..|b| - 1], b[|b| - 1];
      FilterConcat(p, a, b');
      var ab := a + b;
      assert ab[..|ab| - 1] == a + b' && ab[|ab| - 1] == x;
      var fa, fb := Filter(p, a), Filter(p, b');
      if p(x) {
        assert Filter(p, ab) == (fa + fb) + [x];
        assert Filter(p, b) == fb + [x];
        assert (fa + fb) + [x] == fa + (fb + [x]);
      } else {
        assert Filter(p, ab) == fa + fb;
        assert Filter(p, b) == fb;
      }
    }
  }

  /** `a` can be obtained from `b` by deleting elements: the kept elements
      stay in their original relative order. */
  ghost predicate Subsequence<T>(a: seq<T>, b: seq<T>)
    decreases |b|
  {
    |a| == 0 ||
    (|b| > 0 &&
     ((a[|a| - 1] == b[|b| - 1] && Subsequence(a[..|a| - 1], b[..|b| - 1])) ||
      Subsequence(a, b[..|b| - 1])))
  }

  /** No element occurs twice. */
  ghost predicate Distinct<T>(s: seq<T>) {
    forall i, j :: 0 <= i < j < |s| ==> s[i] != s[j]
  }

  /** Appending an element to the larger sequence keeps a subsequence one. */
  lemma SubsequenceSnoc<T>(a: seq<T>, b: seq<T>, x: T)
    requires Subsequence(a, b)
    ensures Subsequence(a, b + [x])
  {
    assert (b + [x])[..|b|] == b;
  }

  lemma {:induction false} SubsequenceIn<T>(a: seq<T>, b: seq<T>)
    requires Subsequence(a, b)
    ensures forall x :: x in a ==> x in b
    decreases |b|
  {
    if |a| > 0 {
      var a', b' := a[..|a| - 1], b[..|b| - 1];
      assert b == b' + [b[|b| - 1]];
      assert a == a' + [a[|a| - 1]];
      if a[|a| - 1] == b[|b| - 1] && Subsequence(a', b') {
        SubsequenceIn(a', b');
      } else {
        SubsequenceIn(a, b');
      }
    }
  }

  lemma {:induction false} SubsequenceLength<T>(a: seq<T>, b: seq<T>)
    requires Subsequence(a, b)
    ensures |a| <= |b|
    decreases |b|
  {
    if |a| > 0 {
      var a', b' := a[..|a| - 1], b[..|b| - 1];
      if a[|a| - 1] == b[|b| - 1] && Subsequence(a', b') {
        SubsequenceLength(a', b');
      } else {
        SubsequenceLength(a, b');
      }
    }
  }

  lemma {:induction false} SubsequenceRefl<T>(s: seq<T>)
    ensures Subsequence(s, s)
    decreases |s|
  {
    if |s| > 0 {
      SubsequenceRefl(s[..|s| - 1]);
    }
  }

  /** Composing two order-preserving selections is again one. */
  lemma {:induction false} SubsequenceTrans<T>(a: seq<T>, b: seq<T>, c: seq<T>)
    requires Subsequence(a, b) && Subsequence(b, c)
    ensures Subsequence(a, c)
    decreases |c|
  {
    if |a| == 0 {
    } else if |b| == 0 {
      assert false;
    } else {
      var a', b', c' := a[..|a| - 1], b[..|b| - 1], c[..|c| - 1];
      if b[|b| - 1] == c[|c| - 1] && Subsequence(b', c') {
        if a[|a| - 1] == b[|b| - 1] && Subsequence(a', b') {
          SubsequenceTrans(a', b', c');
        } else {
          SubsequenceTrans(a, b', c');
        }
      } else {
        SubsequenceTrans(a, b, c');
      }
    }
  }

  /** Projecting a column keeps a subsequence a subsequence. */
  lemma {:induction false} MapSubsequence<T, U>(f: T -> U, a: seq<T>, b: seq<T>)
    requires Subsequence(a, b)
    ensures Subsequence(Map(f, a), Map(f, b))
    decreases |b|
  {
    if |a| > 0 {
      var a', b' := a[..|a| - 1], b[..|b| - 1];
      assert Map(f, a)[..|a| - 1] == Map(f, a');
      assert Map(f, b)[..|b| - 1] == Map(f, b');
      if a[|a| - 1] == b[|b| - 1] && Subsequence(a', b') {
        MapSubsequence(f, a', b');
      } else {
        MapSubsequence(f, a, b');
      }
    }
  }

  /** A selection from a duplicate-free sequence is duplicate-free. */
  lemma {:induction false} SubsequenceDistinct<T>(a: seq<T>, b: seq<T>)
    requires Subsequence(a, b) && Distinct(b)
    ensures Distinct(a)
    decreases |b|
  {
    if |a| > 0 {
      var a', b' := a[..|a| - 1], b[..|b| - 1];
      assert Distinct(b');
      if a[|a| - 1] == b[|b| - 1] && Subsequence(a', b') {
        SubsequenceDistinct(a', b');
        SubsequenceIn(a', b');
        assert a == a' + [a[|a| - 1]];
        forall i, j | 0 <= i < j < |a| ensures a[i] != a[j] {
          if j == |a| - 1 {
            assert a[i] in a';
            assert a[i] in b';
          }
        }
      } else {
        SubsequenceDistinct(a, b');
      }
    }
  }

  /** The position of the first occurrence of `x` in `s`. */
  function FirstIndex<T(==)>(s: seq<T>, x: T): (i: nat)
    requires x in s
    ensures i < |s| && s[i] == x && x !in s[..i]
  {
    if s[0] == x then 0
    else
      var i := FirstIndex(s[1..], x);
      assert s[1..][..i] == s[1..i + 1];
      1 + i
  }

  lemma FirstIndexPrefix<T>(s: seq<T>, n: nat, x: T)
    requires n <= |s| && x in s[..n]
    ensures FirstIndex(s, x) == FirstIndex(s[..n], x)
  {
    var i, j := FirstIndex(s, x), FirstIndex(s[..n], x);
    assert forall k :: 0 <= k < i ==> s[..i][k] == s[k];
    assert forall k :: 0 <= k < j ==> s[..n][..j][k] == s[k];
  }

  /** `drop_duplicates()`: keeps the first occurrence of every value. */
  function Dedup<T(==,!new)>(s: seq<T>): (r: seq<T>)
    ensures forall x :: x in r <==> x in s
    ensures Distinct(r)
    decreases |s|
  {
    if |s| == 0 then []
    else
      var init := s[..|s| - 1];
      assert s == init + [s[|s| - 1]];
      var d := Dedup(init);
      if s[|s| - 1] in init then d else d + [s[|s| - 1]]
  }

  /** The kept rows stay in their original order. */
  lemma {:induction false} DedupSubsequence<T(!new)>(s: seq<T>)
    ensures Subsequence(Dedup(s), s)
    decreases |s|
  {
    if |s| > 0 {
      var init := s[..|s| - 1];
      DedupSubsequence(init);
      var d := Dedup(init);
      if s[|s| - 1] in init {
        SubsequenceSnoc(d, init, s[|s| - 1]);
        assert init + [s[|s| - 1]] == s;
      } else {
        assert (d + [s[|s| - 1]])[..|d|] == d;
      }
    }
  }

  /** Of every group of equal elements it is the FIRST occurrence that is
      kept: the kept values appear in the order of their first occurrences. */
  lemma {:induction false} DedupKeepsFirst<T(!new)>(s: seq<T>)
    ensures forall i, j :: 0 <= i < j < |Dedup(s)| ==>
      FirstIndex(s, Dedup(s)[i]) < FirstIndex(s, Dedup(s)[j])
    decreases |s|
  {
    if |s| > 0 {
      var n := |s| - 1;
      var init := s[..n];
      DedupKeepsFirst(init);
      var d', d := Dedup(init), Dedup(s);
      assert s == init + [s[n]];
      forall x | x in d' ensures FirstIndex(s, x) == FirstIndex(init, x) {
        FirstIndexPrefix(s, n, x);
      }
      forall i, j | 0 <= i < j < |d| ensures FirstIndex(s, d[i]) < FirstIndex(s, d[j]) {
        assert d[i] == d'[i];
        if j < |d'| {
          assert d[j] == d'[j];
        } else {
          assert d[j] == s[n] && s[n] !in init;
          assert FirstIndex(s, s[n]) == n;
        }
      }
    }
  }

  /** `head(n)`: the first min(n, |s|) rows. */
  function Head<T>(s: seq<T>, n: nat): (r: seq<T>)
    ensures |r| == if n < |s| then n else |s|
    ensures forall i :: 0 <= i < |r| ==> r[i] == s[i]
  {
    if n < |s| then s[..n] else s
  }

  /** Non-increasing by `key`. */
  ghost predicate SortedDesc<T>(s: seq<T>, key: T -> real) {
    forall i, j :: 0 <= i < j < |s| ==> key(s[i]) >= key(s[j])
  }

  /** Places `x` into a non-increasing sequence, keeping it non-increasing. */
  function Insert<T>(x: T, s: seq<T>, key: T -> real): (r: seq<T>)
    requires SortedDesc(s, key)
    ensures |r| == |s| + 1
    ensures r[0] == x || (|s| > 0 && r[0] == s[0])
    ensures SortedDesc(r, key)
    ensures multiset(r) == multiset(s) + multiset{x}
  {
    if |s| == 0 || key(x) >= key(s[0]) then [x] + s
    else
      var t := Insert(x, s[1..], key);
      assert s == [s[0]] + s[1..];
      assert key(s[0]) >= key(t[0]);
      [s[0]] + t
  }

  /** `sort_values(ascending=False)`: a permutation of `s` that is
      non-increasing by `key`. Which of two equal-key rows comes first is not
      promised. */
  function SortDesc<T>(s: seq<T>, key: T -> real): (r: seq<T>)
    ensures SortedDesc(r, key)
    ensures multiset(r) == multiset(s)
  {
    if |s| == 0 then []
    else
      assert s == [s[0]] + s[1..];
      Insert(s[0], SortDesc(s[1..], key), key)
  }

  /** `sort_values(by=key, ascending=False).head(n)`: `n` rows (or all) of
      `s` in non-increasing key order, and every row left out has a key no
      larger than any row kept. */
  function TopBy<T(!new)>(s: seq<T>, key: T -> real, n: nat): (r: seq<T>)
    ensures |r| == if n < |s| then n else |s|
    ensures SortedDesc(r, key)
    ensures multiset(r) <= multiset(s)
    ensures forall x, y :: x in multiset(s) - multiset(r) && y in r ==> key(x) <= key(y)
  {
    var sorted := SortDesc(s, key);
    var r := Head(sorted, n);
    var rest := sorted[|r|..];
    assert sorted == r + rest;
    SortedParts(r, rest, key);
    assert multiset(s) - multiset(r) == multiset(rest);
    r
  }

  /** The front of a non-increasing sequence is non-increasing and no key
      behind it exceeds a key in it. */
  lemma SortedParts<T>(a: seq<T>, b: seq<T>, key: T -> real)
    requires SortedDesc(a + b, key)
    ensures SortedDesc(a, key)
    ensures forall x, y :: x in b && y in a ==> key(x) <= key(y)
  {
    var ab := a + b;
    assert forall i :: 0 <= i < |a| ==> ab[i] == a[i];
    forall x, y | x in b && y in a ensures key(x) <= key(y) {
      var i :| 0 <= i < |a| && a[i] == y;
      var j :| 0 <= j < |b| && b[j] == x;
      assert ab[|a| + j] == x;
    }
  }

  /** Narrowing a selection by a property of a key keeps every selected row
      of a chosen key and none of any other, so the key counts follow. */
  lemma {:induction false} MapFilterCount<T(!new), K(!new)>(key: T -> K, p: K -> bool, base: T -> bool, q: T -> bool, s: seq<T>, c: K)
    requires forall x :: q(x) == (base(x) && p(key(x)))
    ensures multiset(Map(key, Filter(q, s)))[c] == if p(c) then multiset(Map(key, Filter(base, s)))[c] else 0
    decreases |s|
  {
    if |s| > 0 {
      var n := |s| - 1;
      var init, x := s[..n], s[n];
      MapFilterCount(key, p, base, q, init, c);
      var fq, fb := Filter(q, init), Filter(base, init);
      assert Filter(q, s) == if q(x) then fq + [x] else fq;
      assert Filter(base, s) == if base(x) then fb + [x] else fb;
      MapSnocCount(key, fq, x, c);
      MapSnocCount(key, fb, x, c);
    }
  }

  /** Appending a row adds one to the count of its key. */
  lemma MapSnocCount<T, K>(key: T -> K, a: seq<T>, x: T, c: K)
    ensures multiset(Map(key, a + [x]))[c] == multiset(Map(key, a))[c] + if key(x) == c then 1 else 0
  {
    MapConcat(key, a, [x]);
    assert Map(key, [x]) == [key(x)];
  }

  /** The elements of a list of lists, one list after the other. */
  function Flatten<T>(ss: seq<seq<T>>): seq<T>
    decreases |ss|
  {
    if |ss| == 0 then [] else Flatten(ss[..|ss| - 1]) + ss[|ss| - 1]
  }

  /** A duplicate-free sequence has as many elements as its set. */
  lemma {:induction false} DistinctCard<T>(s: seq<T>)
    requires Distinct(s)
    ensures |set x | x in s| == |s|
    decreases |s|
  {
    if |s| > 0 {
      var init, x := s[..|s| - 1], s[|s| - 1];
      assert Distinct(init);
      DistinctCard(init);
      assert x !in init;
      assert (set y | y in s) == (set y | y in init) + {x};
    }
  }

  /** Selecting by one of two exclusive properties selects as many rows as
      the two selections together. */
  lemma {:induction false} FilterEither<T(!new)>(p: T -> bool, q: T -> bool, r: T -> bool, s: seq<T>)
    requires forall x :: p(x) == (q(x) || r(x))
    requires forall x :: !(q(x) && r(x))
    ensures |Filter(p, s)| == |Filter(q, s)| + |Filter(r, s)|
    decreases |s|
  {
    if |s| > 0 {
      FilterEither(p, q, r, s[..|s| - 1]);
    }
  }

  /** A selection from fewer rows is no larger. */
  lemma FilterFewer<T(!new)>(p: T -> bool, a: seq<T>, b: seq<T>)
    requires multiset(a) <= multiset(b)
    ensures |Filter(p, a)| <= |Filter(p, b)|
  {
    var fa, fb := multiset(Filter(p, a)), multiset(Filter(p, b));
    forall x ensures fa[x] <= fb[x] {
      FilterCount(p, a, x);
      FilterCount(p, b, x);
    }
    assert fb == fa + (fb - fa);
  }

  /** Rearranging the rows does not change how many a filter selects. */
  lemma FilterPermutation<T(!new)>(p: T -> bool, a: seq<T>, b: seq<T>)
    requires multiset(a) == multiset(b)
    ensures |Filter(p, a)| == |Filter(p, b)|
  {
    FilterFewer(p, a, b);
    FilterFewer(p, b, a);
  }

  /** A weaker test over the same rows selects at least as many. */
  lemma {:induction false} FilterWeaker<T(!new)>(p: T -> bool, q: T -> bool, s: seq<T>)
    requires forall i :: 0 <= i < |s| && p(s[i]) ==> q(s[i])
    ensures |Filter(p, s)| <= |Filter(q, s)|
    decreases |s|
  {
    if |s| > 0 {
      FilterWeaker(p, q, s[..|s| - 1]);
    }
  }

  /** A test no row passes selects nothing. */
  lemma FilterNone<T(!new)>(p: T -> bool, s: seq<T>)
    requires forall i :: 0 <= i < |s| ==> !p(s[i])
    ensures Filter(p, s) == []
  {
    FilterIn(p, s);
    if |Filter(p, s)| > 0 {
      assert Filter(p, s)[0] in Filter(p, s);
    }
  }

  /** An element of a flattened list is an element of one of the lists. */
  lemma {:induction false} FlattenIn<T>(ss: seq<seq<T>>)
    ensures forall x :: x in Flatten(ss) <==> exists i :: 0 <= i < |ss| && x in ss[i]
    decreases |ss|
  {
    if |ss| > 0 {
      var init := ss[..|ss| - 1];
      FlattenIn(init);
      assert forall i :: 0 <= i < |init| ==> init[i] == ss[i];
    }
  }

  /** The first `n` elements are among the elements. */
  lemma HeadFrom<T>(s: seq<T>, n: nat)
    ensures multiset(Head(s, n)) <= multiset(s)
  {
    var h := Head(s, n);
    assert s == h + s[|h|..];
  }
}
