/**
 * The stable descending sort used throughout the memory layer: JavaScript's
 * `Array.prototype.sort` with a `(a, b) => key(b) - key(a)` comparator (stable
 * since ES2019), and SQL `ORDER BY key DESC`, whose ties are resolved here in
 * storage order. An ascending order is a descending one on the negated key.
 *
 * The sort is an insertion sort that inserts each element after every element
 * whose key is at least its own; its three properties are proved below:
 * the result is sorted, is a permutation of the input, and keeps the relative
 * order of elements with equal keys.
 */
module Sorting {
  import opened Common

  /** Non-increasing by key. */
  predicate SortedDesc<T>(s: seq<T>, key: T -> real)
  {
    forall i, j :: 0 <= i < j < |s| ==> key(s[i]) >= key(s[j])
  }

  /** The subsequence of the elements of s whose key is v, in the order of s. */
  function WithKey<T>(s: seq<T>, key: T -> real, v: real): seq<T>
  {
    if s == [] then []
    else (if key(s[0]) == v then [s[0]] else []) + WithKey(s[1..], key, v)
  }

  /** Puts x after every leading element whose key is at least x's. */
  function Insert<T>(x: T, s: seq<T>, key: T -> real): (r: seq<T>)
    ensures |r| == |s| + 1
  {
    if s == [] then [x]
    else if key(s[0]) >= key(x) then [s[0]] + Insert(x, s[1..], key)
    else [x] + s
  }

  /** Insert into two elements that both rank at least as high as x. */
  lemma InsertAfterTwo<T>(x: T, p: T, q: T, key: T -> real)
    requires key(p) >= key(x) && key(q) >= key(x)
    ensures Insert(x, [p, q], key) == [p, q, x]
  {
    assert [p, q] == [p] + [q] && [q] == [q] + [];
    InsertPast(x, p, [q], key);
    InsertPast(x, q, [], key);
    assert [p] + ([q] + [x]) == [p, q, x];
  }

  /** Insert into three elements, the last of which ranks below x. */
  lemma InsertBeforeThird<T>(x: T, p: T, q: T, r: T, key: T -> real)
    requires key(p) >= key(x) && key(q) >= key(x) && key(r) < key(x)
    ensures Insert(x, [p, q, r], key) == [p, q, x, r]
  {
    assert [p, q, r] == [p] + [q, r] && [q, r] == [q] + [r] && [r] == [r] + [];
    InsertPast(x, p, [q, r], key);
    InsertPast(x, q, [r], key);
    InsertHere(x, r, [], key);
    assert [p] + ([q] + ([x, r] + [])) == [p, q, x, r];
  }

  /** Insert passes over an element whose key is at least x's. */
  lemma InsertPast<T>(x: T, y: T, rest: seq<T>, key: T -> real)
    requires key(y) >= key(x)
    ensures Insert(x, [y] + rest, key) == [y] + Insert(x, rest, key)
  {
    assert ([y] + rest)[1..] == rest;
  }

  /** Insert stops in front of the first element whose key is below x's. */
  lemma InsertHere<T>(x: T, y: T, rest: seq<T>, key: T -> real)
    requires key(y) < key(x)
    ensures Insert(x, [y] + rest, key) == [x, y] + rest
  {
  }

  /** Stable sort by descending key. */
  function SortDesc<T>(s: seq<T>, key: T -> real): (r: seq<T>)
    ensures |r| == |s|
    ensures multiset(r) == multiset(s)
    decreases |s|
  {
    if s == [] then []
    else
      var init := s[..|s| - 1];
      assert s == init + [s[|s| - 1]];
      var r := Insert(s[|s| - 1], SortDesc(init, key), key);
      InsertPermutes(s[|s| - 1], SortDesc(init, key), key);
      r
  }

  lemma {:induction false} InsertPermutes<T>(x: T, s: seq<T>, key: T -> real)
    ensures multiset(Insert(x, s, key)) == multiset(s) + multiset{x}
  {
    if s != [] && key(s[0]) >= key(x) {
      InsertPermutes(x, s[1..], key);
      assert s == [s[0]] + s[1..];
    }
  }

  lemma {:induction false} InsertSorted<T>(x: T, s: seq<T>, key: T -> real)
    requires SortedDesc(s, key)
    ensures SortedDesc(Insert(x, s, key), key)
  {
    if s != [] && key(s[0]) >= key(x) {
      var tail := s[1..];
      InsertSorted(x, tail, key);
      var t := Insert(x, tail, key);
      InsertPermutes(x, tail, key);
      forall j | 0 <= j < |t| ensures key(s[0]) >= key(t[j]) {
        assert t[j] in multiset(t);
        if t[j] == x {
        } else {
          assert t[j] in multiset(tail);
          var m :| 0 <= m < |tail| && tail[m] == t[j];
          assert tail[m] == s[m + 1];
        }
      }
    }
  }

  lemma {:induction false} SortDescSorted<T>(s: seq<T>, key: T -> real)
    ensures SortedDesc(SortDesc(s, key), key)
    decreases |s|
  {
    if s != [] {
      SortDescSorted(s[..|s| - 1], key);
      InsertSorted(s[|s| - 1], SortDesc(s[..|s| - 1], key), key);
    }
  }

  lemma {:induction false} WithKeyAppend<T>(a: seq<T>, b: seq<T>, key: T -> real, v: real)
    ensures WithKey(a + b, key, v) == WithKey(a, key, v) + WithKey(b, key, v)
  {
    if a != [] {
      assert (a + b)[1..] == a[1..] + b;
      WithKeyAppend(a[1..], b, key, v);
    } else {
      assert a + b == b;
    }
  }

  lemma {:induction false} WithKeyNone<T>(s: seq<T>, key: T -> real, v: real)
    requires forall i :: 0 <= i < |s| ==> key(s[i]) != v
    ensures WithKey(s, key, v) == []
  {
    if s != [] {
      WithKeyNone(s[1..], key, v);
    }
  }

  lemma WithKeyOne<T>(x: T, key: T -> real, v: real)
    ensures WithKey([x], key, v) == if key(x) == v then [x] else []
  {
    assert [x][1..] == [];
  }

  /** x goes in front of a sorted s whose head ranks below it. */
  lemma InsertFrontWithKey<T>(x: T, s: seq<T>, key: T -> real, v: real)
    requires SortedDesc(s, key) && s != [] && key(s[0]) < key(x)
    ensures WithKey(Insert(x, s, key), key, v)
         == WithKey(s, key, v) + (if key(x) == v then [x] else [])
  {
    assert Insert(x, s, key) == [x] + s;
    WithKeyAppend([x], s, key, v);
    WithKeyOne(x, key, v);
    if key(x) == v {
      WithKeyNone(s, key, v);
    }
  }

  lemma {:induction false} InsertWithKey<T>(x: T, s: seq<T>, key: T -> real, v: real)
    requires SortedDesc(s, key)
    ensures WithKey(Insert(x, s, key), key, v)
         == WithKey(s, key, v) + (if key(x) == v then [x] else [])
  {
    if s == [] {
      WithKeyOne(x, key, v);
    } else if key(s[0]) >= key(x) {
      var tail := s[1..];
      var tx := if key(x) == v then [x] else [];
      assert SortedDesc(tail, key);
      InsertWithKey(x, tail, key, v);
      assert Insert(x, s, key) == [s[0]] + Insert(x, tail, key);
      WithKeyAppend([s[0]], Insert(x, tail, key), key, v);
      WithKeyAppend([s[0]], tail, key, v);
      assert [s[0]] + tail == s;
      var h := WithKey([s[0]], key, v);
      assert WithKey(Insert(x, s, key), key, v) == h + (WithKey(tail, key, v) + tx);
      assert h + (WithKey(tail, key, v) + tx) == (h + WithKey(tail, key, v)) + tx;
    } else {
      InsertFrontWithKey(x, s, key, v);
    }
  }

  /** The last element is inserted into the sorted prefix. */
  lemma SortDescSnoc<T>(init: seq<T>, x: T, key: T -> real)
    ensures SortDesc(init + [x], key) == Insert(x, SortDesc(init, key), key)
  {
    var s := init + [x];
    assert s[..|s| - 1] == init;
  }

  /** Stability: for every key value, the elements carrying it keep their relative order. */
  lemma {:induction false} SortDescStable<T>(s: seq<T>, key: T -> real, v: real)
    ensures WithKey(SortDesc(s, key), key, v) == WithKey(s, key, v)
    decreases |s|
  {
    if s != [] {
      var init, x := s[..|s| - 1], s[|s| - 1];
      assert s == init + [x];
      SortDescStable(init, key, v);
      StableStep(init, x, key, v);
    }
  }

  /** One insertion step of the stability proof, given stability of the prefix. */
  lemma StableStep<T>(init: seq<T>, x: T, key: T -> real, v: real)
    requires WithKey(SortDesc(init, key), key, v) == WithKey(init, key, v)
    ensures WithKey(SortDesc(init + [x], key), key, v) == WithKey(init + [x], key, v)
  {
    SortDescSnoc(init, x, key);
    SortDescSorted(init, key);
    InsertWithKey(x, SortDesc(init, key), key, v);
    WithKeyAppend(init, [x], key, v);
  }

  lemma {:induction false} WithKeyAll<T>(s: seq<T>, key: T -> real, v: real)
    requires forall i :: 0 <= i < |s| ==> key(s[i]) == v
    ensures WithKey(s, key, v) == s
  {
    if s != [] {
      WithKeyAll(s[1..], key, v);
    }
  }

  /** When every key is the same, the stable sort leaves the sequence as it is. */
  lemma AllEqualKeysUnchanged<T>(s: seq<T>, key: T -> real, v: real)
    requires forall i :: 0 <= i < |s| ==> key(s[i]) == v
    ensures SortDesc(s, key) == s
  {
    var r := SortDesc(s, key);
    forall i | 0 <= i < |r| ensures key(r[i]) == v {
      assert r[i] in multiset(s);
    }
    WithKeyAll(s, key, v);
    WithKeyAll(r, key, v);
    SortDescStable(s, key, v);
  }

  /**
   * `ORDER BY key DESC LIMIT n`: every element left out has a key no larger than
   * any element returned, and when fewer than n come back nothing was left out.
   */
  lemma TopOfSorted<T>(s: seq<T>, key: T -> real, n: nat)
    ensures SortedDesc(Take(SortDesc(s, key), n), key)
    ensures forall x :: x in Take(SortDesc(s, key), n) ==> x in s
    ensures forall x, y :: x in s && x !in Take(SortDesc(s, key), n) && y in Take(SortDesc(s, key), n)
              ==> key(y) >= key(x)
    ensures |Take(SortDesc(s, key), n)| < n ==> forall x :: x in s ==> x in Take(SortDesc(s, key), n)
    ensures |Take(SortDesc(s, key), n)| == if |s| < n then |s| else n
  {
    var sorted := SortDesc(s, key);
    var r := Take(sorted, n);
    SortDescSorted(s, key);
    forall x, y | x in s && x !in r && y in r ensures key(y) >= key(x) {
      assert x in multiset(sorted);
      var i :| 0 <= i < |sorted| && sorted[i] == x;
      var j :| 0 <= j < |r| && r[j] == y;
      assert forall k :: 0 <= k < |r| ==> r[k] == sorted[k];
      assert sorted[j] == y;
    }
    forall x | x in r ensures x in s {
      assert x in sorted;
      assert x in multiset(s);
    }
    if |r| < n {
      forall x | x in s ensures x in r {
        assert x in multiset(sorted);
      }
    }
  }
}
