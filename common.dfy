/**
 * Small value-level helpers shared by the memory-layer modules: an Option type
 * for nullable values, and the JavaScript array/string operations the source
 * leans on (`slice(0, n)`, `join`, `startsWith`/`endsWith`/`includes`).
 */
module Common {

  datatype Option<+T> = None | Some(value: T)

  /** `s.slice(0, n)` for a non-negative n: the first n elements, or all of them. */
  function Take<T>(s: seq<T>, n: nat): (r: seq<T>)
    ensures |r| == if n < |s| then n else |s|
    ensures r == s[..|r|]
  {
    if n < |s| then s[..n] else s
  }

  /** `xs.join(sep)`: the strings of xs with sep between neighbours. */
  function Join(xs: seq<string>, sep: string): string
  {
    if xs == [] then ""
    else if |xs| == 1 then xs[0]
    else xs[0] + sep + Join(xs[1..], sep)
  }

  /** Sum of the lengths of the strings in xs. */
  function TotalLength(xs: seq<string>): nat
  {
    if xs == [] then 0 else |xs[0]| + TotalLength(xs[1..])
  }

  lemma {:induction false} JoinLength(xs: seq<string>, sep: string)
    ensures |Join(xs, sep)| == TotalLength(xs) + (if xs == [] then 0 else |sep| * (|xs| - 1))
  {
    if |xs| > 1 {
      JoinLength(xs[1..], sep);
    }
  }

  /** Every joined string occurs in the joined result. */
  lemma {:induction false} JoinContains(xs: seq<string>, sep: string)
    ensures forall x :: x in xs ==> Contains(Join(xs, sep), x)
  {
    if xs != [] {
      var j := Join(xs, sep);
      assert OccursAt(j, xs[0], 0) by {
        if |xs| > 1 {
          assert j == xs[0] + (sep + Join(xs[1..], sep));
        }
        assert j[0..|xs[0]|] == xs[0];
      }
      if |xs| > 1 {
        JoinContains(xs[1..], sep);
        var rest := Join(xs[1..], sep);
        var off := |xs[0]| + |sep|;
        assert j == (xs[0] + sep) + rest;
        forall x | x in xs[1..] ensures Contains(j, x) {
          var i :| 0 <= i <= |rest| - |x| && OccursAt(rest, x, i);
          assert j[off + i..off + i + |x|] == rest[i..i + |x|];
          assert OccursAt(j, x, off + i);
        }
      }
    }
  }

  /** Joining one more string at the end adds the separator and that string. */
  lemma {:induction false} JoinSnoc(xs: seq<string>, x: string, sep: string)
    requires xs != []
    ensures Join(xs + [x], sep) == Join(xs, sep) + sep + x
  {
    if |xs| == 1 {
      assert (xs + [x])[1..] == [x];
    } else {
      assert (xs + [x])[1..] == xs[1..] + [x];
      JoinSnoc(xs[1..], x, sep);
    }
  }

  predicate StartsWith(s: string, prefix: string)
  {
    |prefix| <= |s| && s[..|prefix|] == prefix
  }

  predicate EndsWith(s: string, suffix: string)
  {
    |suffix| <= |s| && s[|s| - |suffix|..] == suffix
  }

  /** `s.includes(sub)`. */
  predicate Contains(s: string, sub: string)
  {
    exists i :: 0 <= i <= |s| - |sub| && OccursAt(s, sub, i)
  }

  predicate OccursAt(s: string, sub: string, i: int)
  {
    0 <= i <= |s| - |sub| && s[i..i + |sub|] == sub
  }

  /** The elements of s are pairwise distinct. */
  predicate Distinct<T(==)>(s: seq<T>)
  {
    forall i, j :: 0 <= i < j < |s| ==> s[i] != s[j]
  }

  /** A duplicate-free sequence has as many elements as the set of its elements. */
  lemma {:induction false} DistinctCardinality<T>(s: seq<T>)
    requires Distinct(s)
    ensures |set x | x in s| == |s|
  {
    if s != [] {
      var rest := s[1..];
      DistinctCardinality(rest);
      assert (set x | x in s) == (set x | x in rest) + {s[0]};
      assert s[0] !in rest by {
        forall j | 0 <= j < |rest| ensures rest[j] != s[0] {
          assert rest[j] == s[j + 1];
        }
      }
    }
  }

  /** `s.filter(keep)`: the elements that pass, in their original order. */
  function Filter<T(!new)>(s: seq<T>, keep: T -> bool): (r: seq<T>)
    ensures |r| <= |s|
    ensures forall x :: x in r <==> x in s && keep(x)
    decreases |s|
  {
    if s == [] then []
    else (if keep(s[0]) then [s[0]] else []) + Filter(s[1..], keep)
  }

  lemma {:induction false} FilterAppend<T(!new)>(a: seq<T>, b: seq<T>, keep: T -> bool)
    ensures Filter(a + b, keep) == Filter(a, keep) + Filter(b, keep)
  {
    if a == [] {
      assert a + b == b;
    } else {
      assert (a + b)[1..] == a[1..] + b;
      FilterAppend(a[1..], b, keep);
    }
  }

  /** Filtering by a predicate no element passes leaves nothing. */
  lemma {:induction false} FilterNone<T(!new)>(s: seq<T>, keep: T -> bool)
    requires forall x :: x in s ==> !keep(x)
    ensures Filter(s, keep) == []
  {
    if s != [] {
      FilterNone(s[1..], keep);
    }
  }

  /** No two elements of s share a key (a primary-key constraint). */
  predicate UniqueBy<T, K(==)>(s: seq<T>, key: T -> K)
  {
    forall i, j :: 0 <= i < j < |s| ==> key(s[i]) != key(s[j])
  }

  lemma {:induction false} FilterKeepsUnique<T(!new), K>(s: seq<T>, keep: T -> bool, key: T -> K)
    requires UniqueBy(s, key)
    ensures UniqueBy(Filter(s, keep), key)
    decreases |s|
  {
    if s != [] {
      var t := s[1..];
      FilterKeepsUnique(t, keep, key);
      var ft := Filter(t, keep);
      forall x | x in ft ensures key(x) != key(s[0]) {
        var m :| 0 <= m < |t| && t[m] == x;
        assert s[m + 1] == x;
      }
      var r := Filter(s, keep);
      if keep(s[0]) {
        assert r == [s[0]] + ft;
        forall i, j | 0 <= i < j < |r| ensures key(r[i]) != key(r[j]) {
          if i == 0 {
            assert r[j] == ft[j - 1];
            assert r[j] in ft;
          } else {
            assert r[i] == ft[i - 1] && r[j] == ft[j - 1];
          }
        }
      } else {
        assert r == ft;
      }
    }
  }

  lemma UniqueAppend<T, K>(s: seq<T>, x: T, key: T -> K)
    requires UniqueBy(s, key)
    requires forall y :: y in s ==> key(y) != key(x)
    ensures UniqueBy(s + [x], key)
  {
    var r := s + [x];
    forall i, j | 0 <= i < j < |r| ensures key(r[i]) != key(r[j]) {
      if j == |s| {
        assert r[i] in s;
      }
    }
  }

  lemma UniqueConcat<T, K>(a: seq<T>, b: seq<T>, key: T -> K)
    requires UniqueBy(a, key) && UniqueBy(b, key)
    requires forall x, y :: x in a && y in b ==> key(x) != key(y)
    ensures UniqueBy(a + b, key)
  {
    var r := a + b;
    forall i, j | 0 <= i < j < |r| ensures key(r[i]) != key(r[j]) {
      if j >= |a| {
        if i < |a| {
          assert r[i] in a && r[j] in b;
        } else {
          assert r[i] == b[i - |a|] && r[j] == b[j - |a|];
        }
      }
    }
  }

  /** Filtering by a predicate that every element passes changes nothing. */
  lemma {:induction false} FilterAll<T(!new)>(s: seq<T>, keep: T -> bool)
    requires forall x :: x in s ==> keep(x)
    ensures Filter(s, keep) == s
  {
    if s != [] {
      FilterAll(s[1..], keep);
    }
  }

  /** Filters by predicates that agree on every element are equal. */
  lemma {:induction false} FilterCongruent<T(!new)>(s: seq<T>, p: T -> bool, q: T -> bool)
    requires forall x :: x in s ==> p(x) == q(x)
    ensures Filter(s, p) == Filter(s, q)
  {
    if s != [] {
      FilterCongruent(s[1..], p, q);
    }
  }

  /** The first element of s satisfying p (a `LIMIT 1` select in storage order). */
  function First<T(!new)>(s: seq<T>, p: T -> bool): (r: Option<T>)
    ensures r.Some? ==> r.value in s && p(r.value)
    ensures r.None? <==> forall x :: x in s ==> !p(x)
    decreases |s|
  {
    if s == [] then None
    else if p(s[0]) then Some(s[0])
    else First(s[1..], p)
  }

  /** In a sequence with unique keys, the first element with key k is the only one. */
  lemma FirstByKey<T(!new), K>(s: seq<T>, key: T -> K, k: K, p: T -> bool, x: T)
    requires UniqueBy(s, key)
    requires forall y :: p(y) == (key(y) == k)
    requires x in s && p(x)
    ensures First(s, p) == Some(x)
  {
    var r := First(s, p);
    var i :| 0 <= i < |s| && s[i] == x;
    var j :| 0 <= j < |s| && s[j] == r.value;
    assert forall a, b :: 0 <= a < |s| && 0 <= b < |s| && a != b ==> key(s[a]) != key(s[b]) by {
      forall a, b | 0 <= a < |s| && 0 <= b < |s| && a != b ensures key(s[a]) != key(s[b]) {
        if a > b {
          assert key(s[b]) != key(s[a]);
        }
      }
    }
  }

  /** `UPDATE … SET f WHERE p`: each element satisfying p replaced by its image under f. */
  function UpdateWhere<T>(s: seq<T>, p: T -> bool, f: T -> T): (r: seq<T>)
    ensures |r| == |s|
  {
    seq(|s|, i requires 0 <= i < |s| => if p(s[i]) then f(s[i]) else s[i])
  }

  /** An update that touches no element leaves the sequence as it is. */
  lemma UpdateWhereNoMatch<T>(s: seq<T>, p: T -> bool, f: T -> T)
    requires forall i :: 0 <= i < |s| ==> !p(s[i])
    ensures UpdateWhere(s, p, f) == s
  {
  }

  /** An update that keeps every key keeps the keys unique. */
  lemma UpdateKeepsUnique<T, K>(s: seq<T>, p: T -> bool, f: T -> T, key: T -> K)
    requires UniqueBy(s, key)
    requires forall i :: 0 <= i < |s| && p(s[i]) ==> key(f(s[i])) == key(s[i])
    ensures UniqueBy(UpdateWhere(s, p, f), key)
  {
  }

  /** Two positions holding the same key in a sequence with unique keys are one position. */
  lemma SameKeySamePosition<T, K>(s: seq<T>, key: T -> K, i: int, j: int)
    requires UniqueBy(s, key)
    requires 0 <= i < |s| && 0 <= j < |s| && key(s[i]) == key(s[j])
    ensures i == j
  {
    assert forall a, b :: 0 <= a < |s| && 0 <= b < |s| && a != b ==> key(s[a]) != key(s[b]) by {
      forall a, b | 0 <= a < |s| && 0 <= b < |s| && a != b ensures key(s[a]) != key(s[b]) {
        if a > b {
          assert key(s[b]) != key(s[a]);
        }
      }
    }
  }

  lemma {:induction false} TotalLengthAppend(a: seq<string>, b: seq<string>)
    ensures TotalLength(a + b) == TotalLength(a) + TotalLength(b)
  {
    if a == [] {
      assert a + b == b;
    } else {
      assert (a + b)[1..] == a[1..] + b;
      TotalLengthAppend(a[1..], b);
    }
  }
}
