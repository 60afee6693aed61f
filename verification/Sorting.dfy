/** Sorting by a strict order, and why the result does not depend on the algorithm.

    The kernel sorts with `sort.Slice`, whose result is only specified up to
    elements neither of which comes before the other. `SortedUnique` is the reason
    its outputs are deterministic all the same. */
module Sorting {

  ghost predicate StrictOrder<T(!new)>(less: (T, T) -> bool) {
    && (forall x :: !less(x, x))
    && (forall x, y, z :: less(x, y) && less(y, z) ==> less(x, z))
  }

  ghost predicate Sorted<T>(less: (T, T) -> bool, s: seq<T>) {
    forall i, j :: 0 <= i < j < |s| ==> !less(s[j], s[i])
  }

  ghost predicate StrictlySorted<T>(less: (T, T) -> bool, s: seq<T>) {
    forall i, j :: 0 <= i < j < |s| ==> less(s[i], s[j])
  }

  /** Two elements of `s` that are not ordered are the same element. */
  ghost predicate TotalOn<T>(less: (T, T) -> bool, s: seq<T>) {
    forall x, y :: x in s && y in s && !less(x, y) && !less(y, x) ==> x == y
  }

  function Insert<T>(less: (T, T) -> bool, x: T, s: seq<T>): (r: seq<T>)
    ensures multiset(r) == multiset(s) + multiset{x}
  {
    if s == [] || less(x, s[0]) then [x] + s
    else
      assert s == [s[0]] + s[1..];
      [s[0]] + Insert(less, x, s[1..])
  }

  function Sort<T>(less: (T, T) -> bool, s: seq<T>): (r: seq<T>)
    ensures multiset(r) == multiset(s)
    ensures |r| == |s|
  {
    if s == [] then []
    else
      assert s == [s[0]] + s[1..];
      var r := Insert(less, s[0], Sort(less, s[1..]));
      assert |multiset(r)| == |r| && |multiset(s)| == |s|;
      r
  }

  lemma {:induction false} InsertSorted<T(!new)>(less: (T, T) -> bool, x: T, s: seq<T>)
    requires StrictOrder(less) && Sorted(less, s)
    ensures Sorted(less, Insert(less, x, s))
  {
    if s != [] && !less(x, s[0]) {
      var rest := Insert(less, x, s[1..]);
      InsertSorted(less, x, s[1..]);
      forall k | 0 <= k < |rest| ensures !less(rest[k], s[0]) {
        assert rest[k] in multiset(rest);
        if rest[k] != x {
          assert rest[k] in s[1..];
        }
      }
    } else if s != [] {
      forall k | 0 <= k < |s| ensures !less(s[k], x) {
        assert less(x, s[0]) && (k == 0 || !less(s[k], s[0]));
      }
    }
  }

  lemma {:induction false} SortSorted<T(!new)>(less: (T, T) -> bool, s: seq<T>)
    requires StrictOrder(less)
    ensures Sorted(less, Sort(less, s))
  {
    if s != [] {
      SortSorted(less, s[1..]);
      InsertSorted(less, s[0], Sort(less, s[1..]));
    }
  }

  lemma HeadsAgree<T>(less: (T, T) -> bool, a: seq<T>, b: seq<T>)
    requires multiset(a) == multiset(b) && a != []
    requires Sorted(less, a) && Sorted(less, b) && TotalOn(less, a)
    ensures b != [] && a[0] == b[0]
  {
    assert |multiset(a)| == |multiset(b)|;
    assert a[0] in multiset(b) && b[0] in multiset(a);
    var i :| 0 <= i < |a| && a[i] == b[0];
    var j :| 0 <= j < |b| && b[j] == a[0];
  }

  /** Any two sorted arrangements of the same elements are the same list. */
  lemma {:induction false} SortedUnique<T>(less: (T, T) -> bool, a: seq<T>, b: seq<T>)
    requires multiset(a) == multiset(b)
    requires Sorted(less, a) && Sorted(less, b) && TotalOn(less, a)
    ensures a == b
  {
    if a == [] {
      assert |multiset(b)| == 0;
    } else {
      HeadsAgree(less, a, b);
      assert a == [a[0]] + a[1..] && b == [a[0]] + b[1..];
      assert multiset(a[1..]) == multiset(a) - multiset{a[0]} == multiset(b[1..]);
      SortedUnique(less, a[1..], b[1..]);
    }
  }

  /** Sorting forgets the order its input arrived in. */
  lemma SortPermutation<T(!new)>(less: (T, T) -> bool, a: seq<T>, b: seq<T>)
    requires multiset(a) == multiset(b)
    requires StrictOrder(less) && TotalOn(less, a)
    ensures Sort(less, a) == Sort(less, b)
  {
    SortSorted(less, a);
    SortSorted(less, b);
    var sa := Sort(less, a);
    forall x | x in sa ensures x in a {
      assert x in multiset(sa);
    }
    SortedUnique(less, sa, Sort(less, b));
  }

  /** `sort.Slice`: some sorted arrangement of the same elements. */
  method SortSlice<T(!new)>(less: (T, T) -> bool, s: seq<T>) returns (r: seq<T>)
    requires StrictOrder(less)
    ensures multiset(r) == multiset(s)
    ensures Sorted(less, r)
  {
    r := [];
    for i := 0 to |s|
      invariant multiset(r) == multiset(s[..i])
      invariant Sorted(less, r)
    {
      InsertSorted(less, s[i], r);
      r := Insert(less, s[i], r);
      assert s[..i + 1] == s[..i] + [s[i]];
    }
    assert s[..|s|] == s;
  }

  /** When the order is total on the elements, the arrangement is the one `Sort` gives. */
  lemma SortedIsSort<T(!new)>(less: (T, T) -> bool, s: seq<T>, r: seq<T>)
    requires StrictOrder(less) && TotalOn(less, s)
    requires multiset(r) == multiset(s) && Sorted(less, r)
    ensures r == Sort(less, s)
  {
    SortSorted(less, s);
    forall x | x in r ensures x in s {
      assert x in multiset(r);
    }
    SortedUnique(less, r, Sort(less, s));
  }

  // ----- bags and sets -----

  lemma SameMembers<T>(a: seq<T>, b: seq<T>)
    requires multiset(a) == multiset(b)
    ensures |a| == |b|
    ensures forall x :: x in a <==> x in b
  {
    assert |multiset(a)| == |multiset(b)|;
    forall x ensures x in a <==> x in b {
      assert x in multiset(a) <==> x in multiset(b);
    }
  }

  lemma TakeOneAway<T>(front: seq<T>, back: seq<T>, front': seq<T>, back': seq<T>, x: T)
    requires multiset(front + [x] + back) == multiset(front' + [x] + back')
    ensures multiset(front + back) == multiset(front' + back')
  {
    assert multiset(front + back) == multiset(front + [x] + back) - multiset{x};
    assert multiset(front' + back') == multiset(front' + [x] + back') - multiset{x};
  }

  /** A strictly sorted list is determined by its set of elements. */
  lemma {:induction false} StrictlySortedUnique<T(!new)>(less: (T, T) -> bool, a: seq<T>, b: seq<T>)
    requires StrictOrder(less)
    requires StrictlySorted(less, a) && StrictlySorted(less, b)
    requires forall x :: x in a <==> x in b
    ensures a == b
  {
    if a == [] {
      forall x ensures multiset(b)[x] == 0 {
        assert x in b <==> x in multiset(b);
        assert x !in a;
      }
      assert multiset(b) == multiset{};
      assert |b| == |multiset(b)|;
    } else {
      assert a[0] in b && b != [] && b[0] in a;
      assert a[0] == b[0];
      forall x ensures x in a[1..] <==> x in b[1..] {
        assert x in a[1..] <==> x in a && x != a[0];
        assert x in b[1..] <==> x in b && x != b[0];
      }
      StrictlySortedUnique(less, a[1..], b[1..]);
      assert a == [a[0]] + a[1..] && b == [b[0]] + b[1..];
    }
  }

  /** The keys of a map, collected in whatever order it gives them and then sorted. */
  method SortSet<T(!new,==)>(less: (T, T) -> bool, s: set<T>) returns (r: seq<T>)
    requires StrictOrder(less)
    requires forall x, y :: x in s && y in s && x != y ==> less(x, y) || less(y, x)
    ensures StrictlySorted(less, r)
    ensures forall x :: x in r <==> x in s
    ensures |r| == |s|
  {
    var list: seq<T>, rest := [], s;
    while rest != {}
      invariant rest <= s
      invariant multiset(list) + multiset(rest) == multiset(s)
      invariant |list| + |rest| == |s|
    {
      var x :| x in rest;
      list, rest := list + [x], rest - {x};
    }
    r := SortSlice(less, list);
    SameMembers(r, list);
    forall x ensures x in r <==> x in s {
      assert x in multiset(r) <==> x in multiset(s);
    }
    forall i, j | 0 <= i < j < |r| ensures less(r[i], r[j]) {
      assert r[i] in r && r[j] in r;
      DistinctInSet(r, s, i, j);
    }
  }

  lemma DistinctInSet<T>(r: seq<T>, s: set<T>, i: nat, j: nat)
    requires multiset(r) == multiset(s) && i < j < |r|
    ensures r[i] != r[j]
  {
    if r[i] == r[j] {
      TwiceInABag(r, i, j);
    }
  }

  // ----- keys -----

  ghost predicate DistinctBy<T, K>(key: T -> K, s: seq<T>) {
    forall i, j :: 0 <= i < j < |s| ==> key(s[i]) != key(s[j])
  }

  lemma DistinctOneMore<T, K>(key: T -> K, s: seq<T>, x: T)
    ensures DistinctBy(key, s + [x]) <==> DistinctBy(key, s) && forall y :: y in s ==> key(y) != key(x)
  {
    var all := s + [x];
    if DistinctBy(key, all) {
      forall i, j | 0 <= i < j < |s| ensures key(s[i]) != key(s[j]) {
        assert key(all[i]) != key(all[j]);
      }
      forall y | y in s ensures key(y) != key(x) {
        var i :| 0 <= i < |s| && s[i] == y;
        assert key(all[i]) != key(all[|s|]);
      }
    }
  }

  lemma DistinctPrefix<T, K>(key: T -> K, s: seq<T>, n: nat)
    requires n <= |s|
    ensures DistinctBy(key, s) ==> DistinctBy(key, s[..n])
  {
  }

  lemma TwiceInABag<T>(s: seq<T>, i: nat, j: nat)
    requires i < j < |s| && s[i] == s[j]
    ensures multiset(s)[s[i]] >= 2
  {
    assert s == s[..j] + [s[j]] + s[j + 1..];
    assert s[i] in s[..j];
  }

  lemma OnceInABag<T, K>(key: T -> K, s: seq<T>, i: nat)
    requires DistinctBy(key, s) && i < |s|
    ensures multiset(s)[s[i]] == 1
  {
    assert s == s[..i] + [s[i]] + s[i + 1..];
    assert s[i] !in s[..i] && s[i] !in s[i + 1..];
  }

  /** Whether the keys are distinct does not depend on the arrangement. */
  lemma DistinctIgnoresOrder<T, K>(key: T -> K, a: seq<T>, b: seq<T>)
    requires multiset(a) == multiset(b)
    ensures DistinctBy(key, a) ==> DistinctBy(key, b)
  {
    SameMembers(a, b);
    forall i, j | DistinctBy(key, a) && 0 <= i < j < |b| ensures key(b[i]) != key(b[j]) {
      if key(b[i]) == key(b[j]) {
        assert b[i] in a && b[j] in a;
        var i' :| 0 <= i' < |a| && a[i'] == b[i];
        var j' :| 0 <= j' < |a| && a[j'] == b[j];
        assert i' == j';
        TwiceInABag(b, i, j);
        OnceInABag(key, a, i');
      }
    }
  }

  /** The order compares keys: elements it leaves unordered have the same key. */
  ghost predicate Orders<T(!new), K>(less: (T, T) -> bool, key: T -> K) {
    StrictOrder(less) && forall x, y :: !less(x, y) && !less(y, x) <==> key(x) == key(y)
  }

  /** In a sorted list equal keys are neighbours, so comparing neighbours is enough. */
  lemma {:induction false} NeighboursDecide<T(!new), K(!new)>(less: (T, T) -> bool, key: T -> K, s: seq<T>)
    requires Orders(less, key) && Sorted(less, s)
    requires forall i :: 0 < i < |s| ==> key(s[i - 1]) != key(s[i])
    ensures StrictlySorted(less, s) && DistinctBy(key, s)
  {
    if s != [] {
      var init, last := s[..|s| - 1], s[|s| - 1];
      NeighboursDecide(less, key, init);
      if init != [] {
        assert less(s[|s| - 2], last);
        forall i | 0 <= i < |s| - 1 ensures less(s[i], last) {
          assert i == |s| - 2 || less(init[i], init[|s| - 2]);
        }
      }
      forall i, j | 0 <= i < j < |s| ensures less(s[i], s[j]) {
        assert j == |s| - 1 || less(init[i], init[j]);
      }
      forall i, j | 0 <= i < j < |s| ensures key(s[i]) != key(s[j]) {
        assert less(s[i], s[j]);
      }
    }
  }

  lemma DistinctIsTotal<T(!new), K(!new)>(less: (T, T) -> bool, key: T -> K, s: seq<T>)
    requires Orders(less, key) && DistinctBy(key, s)
    ensures TotalOn(less, s)
  {
    forall x, y | x in s && y in s && !less(x, y) && !less(y, x) ensures x == y {
      var i :| 0 <= i < |s| && s[i] == x;
      var j :| 0 <= j < |s| && s[j] == y;
      assert key(s[i]) == key(s[j]);
    }
  }

  ghost function KeySet<T, K>(key: T -> K, s: seq<T>): set<K> {
    set x | x in s :: key(x)
  }

  lemma KeySetOneMore<T, K>(key: T -> K, s: seq<T>, x: T)
    ensures KeySet(key, s + [x]) == KeySet(key, s) + {key(x)}
  {
    assert forall y :: y in s + [x] <==> y in s || y == x;
  }

  /** A list has at most as many keys as entries, and as many only if none repeats. */
  lemma {:induction false} Pigeonhole<T, K>(key: T -> K, s: seq<T>)
    ensures |KeySet(key, s)| <= |s|
    ensures |KeySet(key, s)| == |s| <==> DistinctBy(key, s)
  {
    if s == [] {
      assert KeySet(key, s) == {};
    } else {
      hide DistinctBy, KeySet;
      var init, last := s[..|s| - 1], s[|s| - 1];
      assert s == init + [last];
      Pigeonhole(key, init);
      KeySetOneMore(key, init, last);
      DistinctOneMore(key, init, last);
      KeyIsIn(key, init, last);
    }
  }

  lemma KeyIsIn<T, K>(key: T -> K, s: seq<T>, x: T)
    ensures key(x) in KeySet(key, s) <==> exists y :: y in s && key(y) == key(x)
    ensures key(x) in KeySet(key, s) ==> KeySet(key, s) + {key(x)} == KeySet(key, s)
  {
  }

  lemma SameSizeSubset<T>(a: set<T>, b: set<T>)
    requires a <= b && |a| == |b|
    ensures a == b
  {
    assert |b - a| == |b| - |a|;
  }

  lemma SubsetIsSmaller<T>(a: set<T>, b: set<T>)
    requires a <= b
    ensures |a| <= |b|
  {
    assert |b - a| == |b| - |a|;
  }
}
