/**
 * The array operations the site's scripts chain together: `filter`, a
 * descending `sort` by an integer key (stable, as ECMAScript requires of
 * `Array.prototype.sort`), and `slice(0, k)`.
 */
module Lists {

  /** `s.filter(p)`. */
  function Filter<T>(s: seq<T>, p: T -> bool): (r: seq<T>)
    ensures forall i :: 0 <= i < |r| ==> p(r[i])
    ensures |r| <= |s|
  {
    if s == [] then []
    else if p(s[0]) then [s[0]] + Filter(s[1..], p) else Filter(s[1..], p)
  }

  /** `filter` keeps exactly the elements that pass the test, each as often as it occurs. */
  lemma {:induction false} FilterMembers<T>(s: seq<T>, p: T -> bool)
    ensures forall x :: x in multiset(Filter(s, p)) <==> x in multiset(s) && p(x)
    ensures multiset(Filter(s, p)) <= multiset(s)
  {
    if s != [] {
      var rest := Filter(s[1..], p);
      FilterMembers(s[1..], p);
      assert multiset(s) == multiset{s[0]} + multiset(s[1..]) by {
        assert s == [s[0]] + s[1..];
      }
      if p(s[0]) {
        assert multiset(Filter(s, p)) == multiset{s[0]} + multiset(rest) by {
          assert Filter(s, p) == [s[0]] + rest;
        }
      }
    }
  }

  /** Filtering distributes over concatenation, keeping the order of the kept elements. */
  lemma {:induction false} FilterConcat<T>(a: seq<T>, b: seq<T>, p: T -> bool)
    ensures Filter(a + b, p) == Filter(a, p) + Filter(b, p)
  {
    if a == [] {
      assert a + b == b;
    } else {
      assert (a + b)[1..] == a[1..] + b;
      FilterConcat(a[1..], b, p);
    }
  }

  /** A filter whose test every element passes keeps the whole sequence. */
  lemma {:induction false} FilterKeepsAll<T>(s: seq<T>, p: T -> bool)
    requires forall i :: 0 <= i < |s| ==> p(s[i])
    ensures Filter(s, p) == s
  {
    if s != [] {
      FilterKeepsAll(s[1..], p);
    }
  }

  /** A filter whose test no element passes keeps nothing. */
  lemma {:induction false} FilterDropsAll<T>(s: seq<T>, p: T -> bool)
    requires forall i :: 0 <= i < |s| ==> !p(s[i])
    ensures Filter(s, p) == []
  {
    if s != [] {
      FilterDropsAll(s[1..], p);
    }
  }

  /** A filter that keeps exactly a prefix keeps that prefix. */
  lemma {:induction false} FilterKeepsPrefix<T>(s: seq<T>, n: nat, p: T -> bool)
    requires n <= |s|
    requires forall i :: 0 <= i < n ==> p(s[i])
    requires forall i :: n <= i < |s| ==> !p(s[i])
    ensures Filter(s, p) == s[..n]
  {
    if n == 0 {
      FilterDropsAll(s, p);
    } else {
      assert p(s[0]);
      assert Filter(s, p) == [s[0]] + Filter(s[1..], p);
      FilterKeepsPrefix(s[1..], n - 1, p);
      assert s[..n] == [s[0]] + s[1..][..n - 1];
    }
  }

  /** A filter that keeps exactly a suffix keeps that suffix. */
  lemma {:induction false} FilterKeepsSuffix<T>(s: seq<T>, n: nat, p: T -> bool)
    requires n <= |s|
    requires forall i :: 0 <= i < n ==> !p(s[i])
    requires forall i :: n <= i < |s| ==> p(s[i])
    ensures Filter(s, p) == s[n..]
  {
    if n == 0 {
      FilterKeepsAll(s, p);
    } else {
      FilterKeepsSuffix(s[1..], n - 1, p);
      assert s[1..][n - 1..] == s[n..];
    }
  }

  /** No key increases from left to right. */
  ghost predicate SortedDesc<T>(s: seq<T>, key: T -> int) {
    forall i, j :: 0 <= i < j < |s| ==> key(s[i]) >= key(s[j])
  }

  /**
   * Places `x` in front of the first element whose key is not larger than
   * its own, so that among equal keys the element inserted later comes first.
   */
  function Insert<T>(x: T, s: seq<T>, key: T -> int): (r: seq<T>)
    requires SortedDesc(s, key)
    ensures SortedDesc(r, key)
    ensures multiset(r) == multiset(s) + multiset{x}
    ensures |r| == |s| + 1
    ensures r[0] == x || (|s| > 0 && r[0] == s[0])
  {
    if s == [] || key(s[0]) <= key(x) then
      ConsSorted(x, s, key);
      [x] + s
    else
      var t := Insert(x, s[1..], key);
      assert multiset(s) == multiset{s[0]} + multiset(s[1..]) by { assert s == [s[0]] + s[1..]; }
      ConsSorted(s[0], t, key);
      [s[0]] + t
  }

  /** Putting an element with a key at least the head's in front keeps a sequence sorted. */
  lemma {:induction false} ConsSorted<T>(h: T, t: seq<T>, key: T -> int)
    requires SortedDesc(t, key)
    requires |t| > 0 ==> key(h) >= key(t[0])
    ensures SortedDesc([h] + t, key)
  {
    var r := [h] + t;
    forall i, j | 0 <= i < j < |r| ensures key(r[i]) >= key(r[j]) {
      if i == 0 {
        assert r[j] == t[j - 1];
        if j > 1 {
          assert key(t[0]) >= key(t[j - 1]);
        }
      } else {
        assert r[i] == t[i - 1] && r[j] == t[j - 1];
      }
    }
  }

  /** `s.sort((a, b) => key(b) - key(a))`: the elements of `s`, largest key first. */
  function SortDesc<T>(s: seq<T>, key: T -> int): (r: seq<T>)
    ensures SortedDesc(r, key)
    ensures multiset(r) == multiset(s)
    ensures |r| == |s|
  {
    if s == [] then []
    else
      assert s == [s[0]] + s[1..];
      Insert(s[0], SortDesc(s[1..], key), key)
  }

  /** `s.slice(0, k)`. */
  function Take<T>(s: seq<T>, k: nat): (r: seq<T>)
    ensures |r| == if |s| < k then |s| else k
    ensures r <= s
  {
    if |s| <= k then s else s[..k]
  }

  /**
   * `s.sort(...).slice(0, k)`: the `k` elements with the largest keys, in
   * non-increasing key order; every element left out has a key no larger
   * than that of the last one kept.
   */
  function TopK<T>(s: seq<T>, key: T -> int, k: nat): (r: seq<T>)
    ensures |r| == if |s| < k then |s| else k
    ensures SortedDesc(r, key)
    ensures multiset(r) <= multiset(s)
  {
    var sorted := SortDesc(s, key);
    PrefixSorted(sorted, key, |Take(sorted, k)|);
    Take(sorted, k)
  }

  lemma {:induction false} PrefixSorted<T>(s: seq<T>, key: T -> int, n: nat)
    requires SortedDesc(s, key) && n <= |s|
    ensures SortedDesc(s[..n], key)
    ensures multiset(s[..n]) <= multiset(s)
  {
    assert s == s[..n] + s[n..];
  }

  /** Every element `TopK` leaves out has a key no larger than that of the last one kept. */
  lemma {:induction false} TopKLeavesOutSmaller<T(!new)>(s: seq<T>, key: T -> int, k: nat)
    requires 0 < k && 0 < |s|
    ensures var r := TopK(s, key, k);
      forall x :: x in multiset(s) - multiset(r) ==> key(x) <= key(r[|r| - 1])
  {
    var sorted := SortDesc(s, key);
    var n := |TopK(s, key, k)|;
    assert TopK(s, key, k) == sorted[..n];
    PrefixDominates(sorted, key, n);
  }

  /** In a sorted sequence, every element after a non-empty prefix has a key no larger than the prefix's last. */
  lemma {:induction false} PrefixDominates<T(!new)>(sorted: seq<T>, key: T -> int, n: nat)
    requires SortedDesc(sorted, key) && 0 < n <= |sorted|
    ensures forall x :: x in multiset(sorted) - multiset(sorted[..n]) ==> key(x) <= key(sorted[n - 1])
  {
    var r, rest := sorted[..n], sorted[n..];
    assert multiset(sorted) == multiset(r) + multiset(rest) by {
      assert sorted == r + rest;
    }
    forall x | x in multiset(sorted) - multiset(r) ensures key(x) <= key(sorted[n - 1]) {
      assert x in multiset(rest) by {
        InDifference(x, multiset(r), multiset(rest));
      }
      var j :| 0 <= j < |rest| && rest[j] == x;
      assert sorted[n + j] == x;
    }
  }

  lemma {:induction false} InDifference<T>(x: T, a: multiset<T>, b: multiset<T>)
    requires x in (a + b) - a
    ensures x in b
  {
  }
}
