/** The stable sort by a numeric key that `Array.prototype.sort` performs
    when its comparator is `(a, b) => key(a) - key(b)`: an insertion sort,
    proved sorted, a permutation of its input and stable. */
module Sorting {

  /** Ascending by `key`. */
  predicate Sorted<T>(key: T -> int, xs: seq<T>) {
    forall i, j :: 0 <= i < j < |xs| ==> key(xs[i]) <= key(xs[j])
  }

  /** `x` goes before the first element whose key is not smaller. */
  function Insert<T>(key: T -> int, x: T, xs: seq<T>): (r: seq<T>)
    ensures |r| == |xs| + 1
    decreases |xs|
  {
    if xs == [] then [x]
    else if key(x) <= key(xs[0]) then [x] + xs
    else [xs[0]] + Insert(key, x, xs[1..])
  }

  function SortBy<T>(key: T -> int, xs: seq<T>): (r: seq<T>)
    ensures |r| == |xs|
    decreases |xs|
  {
    if xs == [] then [] else Insert(key, xs[0], SortBy(key, xs[1..]))
  }

  /** The elements that have key `k`, in their order. */
  function WithKey<T>(key: T -> int, k: int, xs: seq<T>): seq<T>
    decreases |xs|
  {
    if xs == [] then []
    else if key(xs[0]) == k then [xs[0]] + WithKey(key, k, xs[1..])
    else WithKey(key, k, xs[1..])
  }

  /** Inserting splits the list in two around the new element. */
  lemma {:induction false} InsertSplit<T>(key: T -> int, x: T, xs: seq<T>) returns (p: nat)
    ensures p <= |xs| && Insert(key, x, xs) == xs[..p] + [x] + xs[p..]
    ensures forall i :: 0 <= i < p ==> key(xs[i]) < key(x)
    ensures p < |xs| ==> key(x) <= key(xs[p])
    decreases |xs|
  {
    if xs == [] || key(x) <= key(xs[0]) {
      p := 0;
    } else {
      var q := InsertSplit(key, x, xs[1..]);
      p := q + 1;
      assert xs[..p] == [xs[0]] + xs[1..][..q];
      assert xs[p..] == xs[1..][q..];
    }
  }

  lemma InsertPermutation<T>(key: T -> int, x: T, xs: seq<T>)
    ensures multiset(Insert(key, x, xs)) == multiset(xs) + multiset{x}
  {
    var p := InsertSplit(key, x, xs);
    var l, r := xs[..p], xs[p..];
    calc {
      multiset(Insert(key, x, xs));
      multiset(l + [x] + r);
      multiset(l + [x]) + multiset(r);
      multiset(l) + multiset{x} + multiset(r);
      { assert xs == l + r; }
      multiset(xs) + multiset{x};
    }
  }

  lemma {:induction false} InsertSorted<T>(key: T -> int, x: T, xs: seq<T>)
    requires Sorted(key, xs)
    ensures Sorted(key, Insert(key, x, xs))
  {
    var p := InsertSplit(key, x, xs);
    var r := Insert(key, x, xs);
    forall i, j | 0 <= i < j < |r| ensures key(r[i]) <= key(r[j]) {
      if i < p && j < p {
        assert r[i] == xs[i] && r[j] == xs[j];
      } else if i < p && j == p {
        assert r[i] == xs[i] && r[j] == x;
      } else if i < p {
        assert r[i] == xs[i] && r[j] == xs[j - 1];
      } else if i == p {
        assert r[i] == x && r[j] == xs[j - 1];
        if p < |xs| {
          assert key(x) <= key(xs[p]);
        }
      } else {
        assert r[i] == xs[i - 1] && r[j] == xs[j - 1];
      }
    }
  }

  lemma {:induction false} InsertWithKey<T>(key: T -> int, k: int, x: T, xs: seq<T>)
    ensures WithKey(key, k, Insert(key, x, xs))
         == if key(x) == k then [x] + WithKey(key, k, xs) else WithKey(key, k, xs)
    decreases |xs|
  {
    if xs != [] && key(x) > key(xs[0]) {
      InsertWithKey(key, k, x, xs[1..]);
      assert ([xs[0]] + Insert(key, x, xs[1..]))[1..] == Insert(key, x, xs[1..]);
    } else if xs != [] {
      assert ([x] + xs)[1..] == xs;
    }
  }

  /** The sort orders its input. */
  lemma {:induction false} SortSorted<T>(key: T -> int, xs: seq<T>)
    ensures Sorted(key, SortBy(key, xs))
    decreases |xs|
  {
    if xs != [] {
      SortSorted(key, xs[1..]);
      InsertSorted(key, xs[0], SortBy(key, xs[1..]));
    }
  }

  /** The sort neither drops nor duplicates an element. */
  lemma {:induction false} SortPermutation<T>(key: T -> int, xs: seq<T>)
    ensures multiset(SortBy(key, xs)) == multiset(xs)
    decreases |xs|
  {
    if xs != [] {
      SortPermutation(key, xs[1..]);
      InsertPermutation(key, xs[0], SortBy(key, xs[1..]));
      assert xs == [xs[0]] + xs[1..];
    }
  }

  /** Elements with equal keys keep their relative order. */
  lemma {:induction false} SortStable<T>(key: T -> int, k: int, xs: seq<T>)
    ensures WithKey(key, k, SortBy(key, xs)) == WithKey(key, k, xs)
    decreases |xs|
  {
    if xs != [] {
      SortStable(key, k, xs[1..]);
      InsertWithKey(key, k, xs[0], SortBy(key, xs[1..]));
    }
  }

  /** A projection that tells the input's elements apart tells the sorted
      elements apart too. */
  lemma {:induction false} SortKeepsDistinct<T, K>(key: T -> int, proj: T -> K, xs: seq<T>)
    requires forall i, j :: 0 <= i < j < |xs| ==> proj(xs[i]) != proj(xs[j])
    ensures var r := SortBy(key, xs);
            forall i, j :: 0 <= i < j < |r| ==> proj(r[i]) != proj(r[j])
    decreases |xs|
  {
    if xs != [] {
      var tail := xs[1..];
      var s := SortBy(key, tail);
      SortKeepsDistinct(key, proj, tail);
      SortPermutation(key, tail);
      forall i | 0 <= i < |s| ensures proj(s[i]) != proj(xs[0]) {
        assert s[i] in multiset(tail);
        var k :| 0 <= k < |tail| && tail[k] == s[i];
        assert tail[k] == xs[k + 1];
      }
      var r := SortBy(key, xs);
      assert r == Insert(key, xs[0], s);
      InsertKeepsDistinct(key, proj, xs[0], s);
      assert forall i, j :: 0 <= i < j < |r| ==> proj(r[i]) != proj(r[j]);
    }
  }

  lemma InsertKeepsDistinct<T, K>(key: T -> int, proj: T -> K, x: T, s: seq<T>)
    requires forall i, j :: 0 <= i < j < |s| ==> proj(s[i]) != proj(s[j])
    requires forall i :: 0 <= i < |s| ==> proj(s[i]) != proj(x)
    ensures forall i, j :: 0 <= i < j < |Insert(key, x, s)| ==> proj(Insert(key, x, s)[i]) != proj(Insert(key, x, s)[j])
  {
    var p := InsertSplit(key, x, s);
    var r := Insert(key, x, s);
    forall i, j | 0 <= i < j < |r| ensures proj(r[i]) != proj(r[j]) {
      if j < p {
        assert r[i] == s[i] && r[j] == s[j];
      } else if j == p {
        assert r[i] == s[i] && r[j] == x;
      } else if i < p {
        assert r[i] == s[i] && r[j] == s[j - 1];
      } else if i == p {
        assert r[i] == x && r[j] == s[j - 1];
      } else {
        assert r[i] == s[i - 1] && r[j] == s[j - 1];
      }
    }
  }
}
