/** The array operations the habit engine relies on (`filter`, `indexOf`,
    `splice`, `sort().reverse()`), stated as functions on sequences. */
module Seqs {

  /** The values occurring in `s`. */
  ghost function Elems<T>(s: seq<T>): set<T>
  {
    set x | x in s
  }

  /** No value occurs twice in `s`. */
  ghost predicate NoDup<T(!new)>(s: seq<T>)
  {
    forall x :: multiset(s)[x] <= 1
  }

  /** Two positions holding the same value make that value occur twice. */
  lemma SameValueTwice<T>(s: seq<T>, i: nat, j: nat)
    requires i < j < |s| && s[i] == s[j]
    ensures multiset(s)[s[i]] >= 2
  {
    assert s == s[..j] + s[j..];
    assert s[i] in s[..j];
    assert s[j] in s[j..];
    assert multiset(s) == multiset(s[..j]) + multiset(s[j..]);
  }

  /** Appending a value not yet present keeps a sequence free of repeats. */
  lemma AppendFreshKeepsNoDup<T(!new)>(s: seq<T>, x: T)
    requires NoDup(s) && x !in s
    ensures NoDup(s + [x])
  {
    assert multiset(s)[x] == 0;
    forall y ensures multiset(s + [x])[y] <= 1 {
      assert multiset(s + [x]) == multiset(s) + multiset{x};
    }
  }

  /** Position of the first occurrence of `x`, or -1 (JavaScript `indexOf`). */
  function IndexOf<T(==)>(s: seq<T>, x: T): (r: int)
    ensures r == -1 <==> x !in s
    ensures r != -1 ==> 0 <= r < |s| && s[r] == x && x !in s[..r]
  {
    if |s| == 0 then -1
    else if s[0] == x then 0
    else
      var k := IndexOf(s[1..], x);
      if k == -1 then -1
      else
        assert s[..k + 1] == [s[0]] + s[1..][..k];
        k + 1
  }

  /** `s` with the element at position `i` taken out (JavaScript `splice(i, 1)`). */
  function RemoveAt<T>(s: seq<T>, i: nat): (r: seq<T>)
    requires i < |s|
    ensures |r| == |s| - 1
    ensures multiset(r) == multiset(s) - multiset{s[i]}
    ensures forall j :: 0 <= j < i ==> r[j] == s[j]
    ensures forall j :: i <= j < |r| ==> r[j] == s[j + 1]
  {
    assert s == s[..i] + [s[i]] + s[i + 1..];
    s[..i] + s[i + 1..]
  }

  /** The elements of `s` that satisfy `p`, in their original order
      (JavaScript `filter`). */
  function Filter<T>(s: seq<T>, p: T -> bool): (r: seq<T>)
    ensures |r| <= |s|
  {
    if |s| == 0 then []
    else Filter(s[..|s| - 1], p) + (if p(s[|s| - 1]) then [s[|s| - 1]] else [])
  }

  /** Filtering keeps exactly the elements that satisfy `p`, each as often
      as it occurs. */
  lemma {:induction false} FilterMembers<T(!new)>(s: seq<T>, p: T -> bool)
    ensures forall x :: x in Filter(s, p) <==> x in s && p(x)
    ensures multiset(Filter(s, p)) <= multiset(s)
  {
    if |s| > 0 {
      var init, last := s[..|s| - 1], s[|s| - 1];
      assert s == init + [last];
      FilterMembers(init, p);
    }
  }

  /** The positions of `s` whose element satisfies `p`. */
  ghost function Positions<T>(s: seq<T>, p: T -> bool): set<nat>
  {
    set k: nat | k < |s| && p(s[k])
  }

  /** Filtering keeps as many elements as there are positions whose element
      satisfies `p`. */
  lemma {:induction false} FilterCountsPositions<T>(s: seq<T>, p: T -> bool)
    ensures |Filter(s, p)| == |Positions(s, p)|
  {
    if |s| > 0 {
      var n := |s| - 1;
      var init := s[..n];
      FilterCountsPositions(init, p);
      var before := Positions(init, p);
      var last: set<nat> := if p(s[n]) then {n} else {};
      forall k: nat ensures k in Positions(s, p) <==> k in before + last {
        if k < n {
          assert init[k] == s[k];
        }
      }
      assert Positions(s, p) == before + last;
      assert n !in before;
    }
  }

  /** Filtering keeps a sequence free of repeats. */
  lemma FilterKeepsNoDup<T(!new)>(s: seq<T>, p: T -> bool)
    requires NoDup(s)
    ensures NoDup(Filter(s, p))
  {
    var f := Filter(s, p);
    FilterMembers(s, p);
    forall x ensures multiset(f)[x] <= 1 {
      assert multiset(f)[x] <= multiset(s)[x];
    }
  }

  /** Filtering commutes with concatenation: the kept elements stay in the
      order they had. */
  lemma {:induction false} FilterAppend<T>(a: seq<T>, b: seq<T>, p: T -> bool)
    ensures Filter(a + b, p) == Filter(a, p) + Filter(b, p)
    decreases |b|
  {
    if |b| == 0 {
      assert a + b == a;
    } else {
      var init, last := b[..|b| - 1], b[|b| - 1];
      var tail := if p(last) then [last] else [];
      var ab := a + b;
      assert ab[..|ab| - 1] == a + init && ab[|ab| - 1] == last;
      assert Filter(ab, p) == Filter(a + init, p) + tail;
      assert Filter(b, p) == Filter(init, p) + tail;
      FilterAppend(a, init, p);
    }
  }

  /** Filtering with a predicate every element satisfies changes nothing. */
  lemma {:induction false} FilterKeepsAll<T>(s: seq<T>, p: T -> bool)
    requires forall x :: x in s ==> p(x)
    ensures Filter(s, p) == s
  {
    if |s| > 0 {
      var init := s[..|s| - 1];
      assert s == init + [s[|s| - 1]];
      FilterKeepsAll(init, p);
    }
  }

  /** Replacing one element changes the number of kept elements by whether
      the old and the new element are kept. */
  lemma {:induction false} FilterCountUpdate<T>(s: seq<T>, k: nat, y: T, p: T -> bool)
    requires k < |s|
    ensures |Filter(s[k := y], p)| ==
            |Filter(s, p)| - (if p(s[k]) then 1 else 0) + (if p(y) then 1 else 0)
  {
    var n := |s| - 1;
    var t := s[k := y];
    assert |Filter(t, p)| == |Filter(t[..n], p)| + (if p(t[n]) then 1 else 0);
    assert |Filter(s, p)| == |Filter(s[..n], p)| + (if p(s[n]) then 1 else 0);
    if k < n {
      assert t[..n] == s[..n][k := y];
      FilterCountUpdate(s[..n], k, y, p);
    } else {
      assert t[..n] == s[..n];
    }
  }

  /** Sorted newest first: no element is larger than one before it. */
  ghost predicate Descending(s: seq<int>)
  {
    forall i, j :: 0 <= i < j < |s| ==> s[i] >= s[j]
  }

  /** Strictly decreasing: sorted newest first and free of repeats. */
  ghost predicate StrictlyDescending(s: seq<int>)
  {
    forall i, j :: 0 <= i < j < |s| ==> s[i] > s[j]
  }

  /** Inserts `x` into a sequence sorted newest first. */
  function Insert(x: int, s: seq<int>): (r: seq<int>)
    requires Descending(s)
    ensures Descending(r)
    ensures multiset(r) == multiset(s) + multiset{x}
  {
    if |s| == 0 || x >= s[0] then [x] + s
    else
      var rest := Insert(x, s[1..]);
      assert s == [s[0]] + s[1..];
      HeadBoundsInsertion(x, s, rest);
      PrependKeepsDescending(s[0], rest);
      [s[0]] + rest
  }

  /** Every element of the insertion into the tail is at most the head. */
  lemma HeadBoundsInsertion(x: int, s: seq<int>, rest: seq<int>)
    requires Descending(s) && |s| > 0 && x < s[0]
    requires multiset(rest) == multiset(s[1..]) + multiset{x}
    ensures forall j :: 0 <= j < |rest| ==> rest[j] <= s[0]
  {
    forall j | 0 <= j < |rest|
      ensures rest[j] <= s[0]
    {
      assert rest[j] in multiset(rest);
      if rest[j] != x {
        assert rest[j] in multiset(s[1..]);
        assert rest[j] in s[1..];
      }
    }
  }

  /** A head no smaller than any element keeps a descending sequence
      descending. */
  lemma PrependKeepsDescending(h: int, rest: seq<int>)
    requires Descending(rest)
    requires forall j :: 0 <= j < |rest| ==> rest[j] <= h
    ensures Descending([h] + rest)
  {
    var r := [h] + rest;
    forall i, j | 0 <= i < j < |r|
      ensures r[i] >= r[j]
    {
      if i > 0 {
        assert r[i] == rest[i - 1] && r[j] == rest[j - 1];
      } else {
        assert r[j] == rest[j - 1];
      }
    }
  }

  /** The dates of `s` ordered newest first (the engine's `sort().reverse()`
      on zero-padded ISO dates, which orders them chronologically). */
  function SortDescending(s: seq<int>): (r: seq<int>)
    ensures Descending(r)
    ensures multiset(r) == multiset(s)
    ensures |r| == |s|
  {
    if |s| == 0 then []
    else
      assert s == [s[0]] + s[1..];
      Insert(s[0], SortDescending(s[1..]))
  }

  /** A repeat-free sequence sorted newest first is strictly decreasing. */
  lemma DescendingNoDupIsStrict(s: seq<int>)
    requires Descending(s) && NoDup(s)
    ensures StrictlyDescending(s)
  {
    forall i, j | 0 <= i < j < |s|
      ensures s[i] > s[j]
    {
      if s[i] == s[j] {
        SameValueTwice(s, i, j);
      }
    }
  }

  /** Repeat-free integers between `lo` and `hi` number at most
      `hi - lo + 1`. */
  lemma NoDupWithinSpan(s: seq<int>, lo: int, hi: int)
    requires NoDup(s) && lo <= hi + 1
    requires forall x :: x in s ==> lo <= x <= hi
    ensures |s| <= hi - lo + 1
  {
    var r := SortDescending(s);
    SortNoDupIsStrict(s);
    if |r| > 0 {
      assert r[0] in Elems(r) && r[|r| - 1] in Elems(r);
      StrictlyDescendingDrops(r, |r| - 1);
    }
  }

  /** In a strictly decreasing sequence the k-th element is at most the
      first minus k. */
  lemma {:induction false} StrictlyDescendingDrops(s: seq<int>, k: nat)
    requires StrictlyDescending(s) && k < |s|
    ensures s[k] <= s[0] - k
  {
    if k > 0 {
      StrictlyDescendingDrops(s, k - 1);
    }
  }

  /** Sorting a repeat-free sequence gives a strictly decreasing one with the
      same elements. */
  lemma SortNoDupIsStrict(s: seq<int>)
    requires NoDup(s)
    ensures StrictlyDescending(SortDescending(s))
    ensures Elems(SortDescending(s)) == Elems(s)
  {
    var r := SortDescending(s);
    assert NoDup(r);
    DescendingNoDupIsStrict(r);
    forall x ensures x in r <==> x in s {
      assert x in r <==> x in multiset(r);
      assert x in s <==> x in multiset(s);
    }
  }
}
