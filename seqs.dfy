/** Sequences of port numbers: filtering, ordering, concatenation and sorting. */
module Seqs {
  import opened Types

  /** Strictly ascending, hence duplicate-free. */
  predicate Increasing(s: seq<u16>)
  {
    forall j, k :: 0 <= j < k < |s| ==> s[j] < s[k]
  }

  /** Ascending (`Vec::sort`'s postcondition). */
  predicate Sorted(s: seq<u16>)
  {
    forall j, k :: 0 <= j < k < |s| ==> s[j] <= s[k]
  }

  /** The elements of `s` for which `f` holds, in their order in `s`. */
  function Filter(s: seq<u16>, f: u16 -> bool): seq<u16>
  {
    if s == [] then []
    else if f(s[0]) then [s[0]] + Filter(s[1..], f)
    else Filter(s[1..], f)
  }

  /** Filtering keeps exactly the elements that satisfy `f`. */
  lemma {:induction false} FilterMembers(s: seq<u16>, f: u16 -> bool)
    ensures forall x :: x in Filter(s, f) <==> x in s && f(x)
  {
    if s != [] {
      FilterMembers(s[1..], f);
      assert s == [s[0]] + s[1..];
    }
  }

  /** Filtering keeps a strictly ascending sequence strictly ascending. */
  lemma {:induction false} FilterIncreasing(s: seq<u16>, f: u16 -> bool)
    requires Increasing(s)
    ensures Increasing(Filter(s, f))
  {
    if s != [] {
      var rest := Filter(s[1..], f);
      FilterIncreasing(s[1..], f);
      FilterMembers(s[1..], f);
      forall k | 0 <= k < |rest| ensures s[0] < rest[k] {
        assert rest[k] in s[1..];
      }
    }
  }

  /** Filtering by a predicate that always holds keeps everything. */
  lemma {:induction false} FilterTrue(s: seq<u16>, f: u16 -> bool)
    requires forall x :: f(x)
    ensures Filter(s, f) == s
  {
    if s != [] {
      FilterTrue(s[1..], f);
      assert s == [s[0]] + s[1..];
    }
  }

  /** A duplicate-free sequence holds each of its elements exactly once. */
  lemma {:induction false} IncreasingCount(s: seq<u16>, x: u16)
    requires Increasing(s)
    ensures multiset(s)[x] == if x in s then 1 else 0
  {
    if s != [] {
      assert s == [s[0]] + s[1..];
      IncreasingCount(s[1..], x);
      assert x == s[0] ==> x !in s[1..];
    }
  }

  /** The ports `lo`, `lo + 1`, ..., `hi`. */
  function Range(lo: u16, hi: u16): (r: seq<u16>)
    ensures |r| == if lo <= hi then hi as int - lo as int + 1 else 0
    ensures forall x :: x in r <==> lo <= x <= hi
    ensures Increasing(r)
    decreases hi as int - lo as int
  {
    if lo > hi then []
    else if lo == hi then [lo]
    else [lo] + Range(lo + 1, hi)
  }

  /** The concatenation of all `ws[i]` in index order. */
  function Flatten(ws: seq<seq<u16>>): seq<u16>
  {
    if ws == [] then [] else Flatten(ws[..|ws| - 1]) + ws[|ws| - 1]
  }

  /** Taking the first element off part `i` takes exactly that element out
      of the flattened multiset. */
  lemma {:induction false} FlattenTakeHead(ws: seq<seq<u16>>, i: nat)
    requires i < |ws| && ws[i] != []
    ensures multiset(Flatten(ws[i := ws[i][1..]])) + multiset{ws[i][0]} == multiset(Flatten(ws))
  {
    var n := |ws| - 1;
    var t := ws[i][1..];
    assert ws[i] == [ws[i][0]] + t;
    if i == n {
      assert ws[i := t][..n] == ws[..n];
    } else {
      assert ws[i := t][..n] == ws[..n][i := t];
      assert Flatten(ws[i := t]) == Flatten(ws[..n][i := t]) + ws[n];
      assert Flatten(ws) == Flatten(ws[..n]) + ws[n];
      assert ws[..n][i] == ws[i];
      FlattenTakeHead(ws[..n], i);
    }
  }

  /** `a` appears in `b` in order, possibly with other values in between. */
  predicate Subsequence(a: seq<u16>, b: seq<u16>)
    decreases |b|
  {
    a == [] ||
    (b != [] && ((a[0] == b[0] && Subsequence(a[1..], b[1..])) || Subsequence(a, b[1..])))
  }

  lemma {:induction false} SubsequenceRefl(a: seq<u16>)
    ensures Subsequence(a, a)
  {
    if a != [] {
      SubsequenceRefl(a[1..]);
    }
  }

  /** Values placed before `b` do not disturb a subsequence of `b`. */
  lemma {:induction false} SubsequencePrepend(a: seq<u16>, x: seq<u16>, b: seq<u16>)
    requires Subsequence(a, b)
    ensures Subsequence(a, x + b)
  {
    if x != [] {
      SubsequencePrepend(a, x[1..], b);
      assert (x + b)[1..] == x[1..] + b;
    } else {
      assert x + b == b;
    }
  }

  /** Values placed after `b` do not disturb a subsequence of `b`. */
  lemma {:induction false} SubsequenceAppend(a: seq<u16>, b: seq<u16>, c: seq<u16>)
    requires Subsequence(a, b)
    ensures Subsequence(a, b + c)
  {
    if a != [] {
      assert (b + c)[0] == b[0] && (b + c)[1..] == b[1..] + c;
      if a[0] == b[0] && Subsequence(a[1..], b[1..]) {
        SubsequenceAppend(a[1..], b[1..], c);
      } else {
        SubsequenceAppend(a, b[1..], c);
      }
    }
  }

  /** Each part appears, in order, in the concatenation of the parts. */
  lemma {:induction false} FlattenKeepsParts(ws: seq<seq<u16>>, i: nat)
    requires i < |ws|
    ensures Subsequence(ws[i], Flatten(ws))
  {
    var n := |ws| - 1;
    assert Flatten(ws) == Flatten(ws[..n]) + ws[n];
    if i == n {
      SubsequenceRefl(ws[i]);
      SubsequencePrepend(ws[i], Flatten(ws[..n]), ws[i]);
    } else {
      assert ws[..n][i] == ws[i];
      FlattenKeepsParts(ws[..n], i);
      SubsequenceAppend(ws[i], Flatten(ws[..n]), ws[n]);
    }
  }

  /** Insert `x` into an ascending sequence. */
  function Insert(x: u16, s: seq<u16>): (r: seq<u16>)
    requires Sorted(s)
    ensures Sorted(r) && multiset(r) == multiset(s) + multiset{x}
  {
    if s == [] || x <= s[0] then [x] + s
    else
      var rest := Insert(x, s[1..]);
      InsertBelow(x, s, rest);
      [s[0]] + rest
  }

  lemma InsertBelow(x: u16, s: seq<u16>, rest: seq<u16>)
    requires Sorted(s) && s != [] && s[0] < x
    requires Sorted(rest) && multiset(rest) == multiset(s[1..]) + multiset{x}
    ensures Sorted([s[0]] + rest) && multiset([s[0]] + rest) == multiset(s) + multiset{x}
  {
    assert s == [s[0]] + s[1..];
    forall k | 0 <= k < |rest| ensures s[0] <= rest[k] {
      assert rest[k] in multiset(rest);
      if rest[k] != x {
        assert rest[k] in s[1..];
      }
    }
  }

  /** A sorting function; it stands for `slice::sort` (see SortedUnique). */
  function InsertionSort(s: seq<u16>): (r: seq<u16>)
    ensures Sorted(r) && multiset(r) == multiset(s)
  {
    if s == [] then []
    else
      assert s == [s[0]] + s[1..];
      Insert(s[0], InsertionSort(s[1..]))
  }

  lemma SortedHeadIsLeast(s: seq<u16>, y: u16)
    requires Sorted(s) && y in multiset(s)
    ensures s[0] <= y
  {
  }

  /** There is only one ascending permutation of a sequence, so any correct
      sort (the standard library's included) gives the same result. */
  lemma {:induction false} SortedUnique(a: seq<u16>, b: seq<u16>)
    requires Sorted(a) && Sorted(b) && multiset(a) == multiset(b)
    ensures a == b
  {
    assert |a| == |multiset(a)| == |multiset(b)| == |b|;
    if a != [] {
      assert a[0] in multiset(b) && b[0] in multiset(a);
      SortedHeadIsLeast(b, a[0]);
      SortedHeadIsLeast(a, b[0]);
      assert a[0] == b[0];
      assert a == [a[0]] + a[1..] && b == [b[0]] + b[1..];
      assert multiset(a) == multiset{a[0]} + multiset(a[1..]);
      assert multiset(b) == multiset{b[0]} + multiset(b[1..]);
      assert multiset(a[1..]) == multiset(a) - multiset{a[0]};
      assert multiset(b[1..]) == multiset(b) - multiset{b[0]};
      SortedUnique(a[1..], b[1..]);
    }
  }

  /** Two strictly ascending sequences with the same elements are equal. */
  lemma IncreasingSameElements(a: seq<u16>, b: seq<u16>)
    requires Increasing(a) && Increasing(b)
    requires forall x :: x in a <==> x in b
    ensures a == b
  {
    forall x ensures multiset(a)[x] == multiset(b)[x] {
      IncreasingCount(a, x);
      IncreasingCount(b, x);
    }
    assert multiset(a) == multiset(b);
    SortedUnique(a, b);
  }
}
