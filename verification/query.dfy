/** The sequence operations the catalogue's queries are made of: SQL
    `WHERE`, `ORDER BY` and `LIMIT n`, and JavaScript's stable
    `Array.prototype.sort` and `filter`.

    Every ordering is given by a key of reals compared lexicographically,
    smallest first; a descending column is written as its negation, and
    `NULL`-first ordering as a leading 0/1 component. Rows whose keys tie
    keep their input order (the sort is stable), which is how the model
    settles the order SQL leaves open among ties. */
module Query {

  /** The elements satisfying `p`, in order (`WHERE`, `Array.filter`). */
  function Filter<T(==)>(s: seq<T>, p: T -> bool): (r: seq<T>)
    ensures |r| <= |s|
    ensures forall i :: 0 <= i < |r| ==> p(r[i])
    ensures multiset(r) <= multiset(s)
    ensures forall x :: x in s && p(x) ==> multiset(r)[x] == multiset(s)[x]
    decreases |s|
  {
    if |s| == 0 then []
    else
      assert s == [s[0]] + s[1..];
      (if p(s[0]) then [s[0]] else []) + Filter(s[1..], p)
  }


  /** Lexicographic "comes no later than" on keys. */
  predicate KeyLe(a: seq<real>, b: seq<real>)
    decreases |a|
  {
    |a| == 0 || (|b| > 0 && (a[0] < b[0] || (a[0] == b[0] && KeyLe(a[1..], b[1..]))))
  }

  lemma {:induction false} KeyLeReflexive(a: seq<real>)
    ensures KeyLe(a, a)
    decreases |a|
  {
    if |a| > 0 {
      KeyLeReflexive(a[1..]);
    }
  }

  lemma {:induction false} KeyLeTotal(a: seq<real>, b: seq<real>)
    ensures KeyLe(a, b) || KeyLe(b, a)
    decreases |a|
  {
    if |a| > 0 && |b| > 0 && a[0] == b[0] {
      KeyLeTotal(a[1..], b[1..]);
    }
  }

  lemma {:induction false} KeyLeTransitive(a: seq<real>, b: seq<real>, c: seq<real>)
    requires KeyLe(a, b) && KeyLe(b, c)
    ensures KeyLe(a, c)
    decreases |a|
  {
    if |a| > 0 && a[0] == b[0] && b[0] == c[0] {
      KeyLeTransitive(a[1..], b[1..], c[1..]);
    }
  }

  /** Ascending by `key`: no element comes after one it should precede. */
  predicate Sorted<T>(s: seq<T>, key: T -> seq<real>) {
    forall i, j :: 0 <= i < j < |s| ==> KeyLe(key(s[i]), key(s[j]))
  }

  /** Puts `x` before the first element it does not come after. */
  function Insert<T(==)>(x: T, s: seq<T>, key: T -> seq<real>): (r: seq<T>)
    ensures multiset(r) == multiset(s) + multiset{x}
    ensures |r| == |s| + 1
    decreases |s|
  {
    if |s| == 0 then [x]
    else if KeyLe(key(x), key(s[0])) then [x] + s
    else
      assert s == [s[0]] + s[1..];
      [s[0]] + Insert(x, s[1..], key)
  }

  /** Stable insertion sort. */
  function SortBy<T(==)>(s: seq<T>, key: T -> seq<real>): (r: seq<T>)
    ensures multiset(r) == multiset(s)
    ensures |r| == |s|
    decreases |s|
  {
    if |s| == 0 then []
    else
      assert s == [s[0]] + s[1..];
      Insert(s[0], SortBy(s[1..], key), key)
  }

  lemma {:induction false} InsertSorted<T>(x: T, s: seq<T>, key: T -> seq<real>)
    requires Sorted(s, key)
    ensures Sorted(Insert(x, s, key), key)
    decreases |s|
  {
    if |s| == 0 {
    } else if KeyLe(key(x), key(s[0])) {
      var r := [x] + s;
      forall i, j | 0 <= i < j < |r|
        ensures KeyLe(key(r[i]), key(r[j]))
      {
        if i == 0 && j > 1 {
          KeyLeTransitive(key(x), key(s[0]), key(s[j - 1]));
        }
      }
    } else {
      KeyLeTotal(key(x), key(s[0]));
      var t := Insert(x, s[1..], key);
      InsertSorted(x, s[1..], key);
      forall j | 0 <= j < |t|
        ensures KeyLe(key(s[0]), key(t[j]))
      {
        assert t[j] in multiset(t);
        if t[j] != x {
          assert t[j] in multiset(s[1..]);
          var k :| 0 <= k < |s[1..]| && s[1..][k] == t[j];
          assert s[k + 1] == t[j];
        }
      }
      var r := [s[0]] + t;
      assert r == Insert(x, s, key);
      forall i, j | 0 <= i < j < |r|
        ensures KeyLe(key(r[i]), key(r[j]))
      {
        if i > 0 {
          assert r[i] == t[i - 1] && r[j] == t[j - 1];
        }
      }
    }
  }

  /** The sort's output is in key order. */
  lemma {:induction false} SortBySorted<T>(s: seq<T>, key: T -> seq<real>)
    ensures Sorted(SortBy(s, key), key)
    decreases |s|
  {
    if |s| > 0 {
      SortBySorted(s[1..], key);
      InsertSorted(s[0], SortBy(s[1..], key), key);
    }
  }

  /** The elements of `s` whose key is `k`, in their order in `s`. */
  function WithKey<T>(s: seq<T>, key: T -> seq<real>, k: seq<real>): (r: seq<T>)
    ensures |r| <= |s|
    ensures forall i :: 0 <= i < |r| ==> key(r[i]) == k
    decreases |s|
  {
    if |s| == 0 then []
    else (if key(s[0]) == k then [s[0]] else []) + WithKey(s[1..], key, k)
  }

  lemma {:induction false} InsertStable<T>(x: T, s: seq<T>, key: T -> seq<real>, k: seq<real>)
    ensures WithKey(Insert(x, s, key), key, k)
         == (if key(x) == k then [x] else []) + WithKey(s, key, k)
    decreases |s|
  {
    var here := if key(x) == k then [x] else [];
    if |s| == 0 {
      assert [x][1..] == [];
      assert WithKey([x], key, k) == here + WithKey([], key, k);
    } else if KeyLe(key(x), key(s[0])) {
      var r := [x] + s;
      assert r[0] == x && r[1..] == s;
      assert WithKey(r, key, k) == here + WithKey(s, key, k);
    } else {
      var t := Insert(x, s[1..], key);
      var r := [s[0]] + t;
      assert r == Insert(x, s, key);
      assert r[0] == s[0] && r[1..] == t;
      var head := if key(s[0]) == k then [s[0]] else [];
      assert WithKey(r, key, k) == head + WithKey(t, key, k);
      assert WithKey(s, key, k) == head + WithKey(s[1..], key, k);
      InsertStable(x, s[1..], key, k);
      if key(x) == k {
        KeyLeReflexive(key(x));
        assert head == [];
      }
    }
  }

  /** Stability: for every key, the elements carrying it keep their
      relative order. */
  lemma {:induction false} SortByStable<T>(s: seq<T>, key: T -> seq<real>, k: seq<real>)
    ensures WithKey(SortBy(s, key), key, k) == WithKey(s, key, k)
    decreases |s|
  {
    if |s| > 0 {
      SortByStable(s[1..], key, k);
      InsertStable(s[0], SortBy(s[1..], key), key, k);
    }
  }

  /** Every element of `s` that satisfies `p` is kept by `Filter`. */
  lemma FilterKeepsMatching<T>(s: seq<T>, p: T -> bool)
    ensures forall i :: 0 <= i < |s| && p(s[i]) ==> s[i] in multiset(Filter(s, p))
  {
    forall i | 0 <= i < |s| && p(s[i])
      ensures s[i] in multiset(Filter(s, p))
    {
      assert s[i] in s;
    }
  }

  /** The head of a sorted sequence comes no later than any of its elements. */
  lemma SortedHeadIsLeast<T>(s: seq<T>, key: T -> seq<real>)
    requires Sorted(s, key) && |s| > 0
    ensures forall x :: x in multiset(s) ==> KeyLe(key(s[0]), key(x))
  {
    forall x | x in multiset(s)
      ensures KeyLe(key(s[0]), key(x))
    {
      var j :| 0 <= j < |s| && s[j] == x;
      if j == 0 {
        KeyLeReflexive(key(x));
      }
    }
  }

  /** The first `n` elements, or all of them when there are fewer (`LIMIT n`). */
  function Take<T>(s: seq<T>, n: nat): (r: seq<T>)
    ensures |r| == (if n < |s| then n else |s|)
    ensures r == s[..|r|]
  {
    if n < |s| then s[..n] else s
  }

  /** Cutting a sorted sequence keeps a best part: nothing left out comes
      before anything kept. */
  lemma TakeSortedIsTop<T>(s: seq<T>, key: T -> seq<real>, n: nat)
    requires Sorted(s, key)
    ensures forall i, x :: 0 <= i < |Take(s, n)| && x in multiset(s) - multiset(Take(s, n))
              ==> KeyLe(key(Take(s, n)[i]), key(x))
  {
    var t := Take(s, n);
    var m := |t|;
    assert s == t + s[m..];
    assert multiset(s) - multiset(t) == multiset(s[m..]);
    forall i, x | 0 <= i < m && x in multiset(s) - multiset(t)
      ensures KeyLe(key(t[i]), key(x))
    {
      assert x in s[m..];
      var j :| 0 <= j < |s[m..]| && s[m..][j] == x;
      assert s[m + j] == x;
    }
  }

  /** `SELECT ... WHERE p ORDER BY key LIMIT n`. */
  function Select<T(==)>(s: seq<T>, p: T -> bool, key: T -> seq<real>, n: nat): seq<T> {
    Take(SortBy(Filter(s, p), key), n)
  }

  /** The query returns matching rows of the table, in order. */
  lemma SelectSound<T>(s: seq<T>, p: T -> bool, key: T -> seq<real>, n: nat)
    ensures var r := Select(s, p, key, n);
      && (forall i :: 0 <= i < |r| ==> p(r[i]))
      && multiset(r) <= multiset(s)
      && Sorted(r, key)
  {
    var f := Filter(s, p);
    var sorted := SortBy(f, key);
    var r := Take(sorted, n);
    SortBySorted(f, key);
    assert sorted == r + sorted[|r|..];
    assert multiset(r) <= multiset(sorted);
    forall i | 0 <= i < |r|
      ensures p(r[i])
    {
      assert r[i] in multiset(f);
    }
  }

  /** The query returns at most `n` rows, and fewer only when no match is
      left out. */
  lemma SelectComplete<T>(s: seq<T>, p: T -> bool, key: T -> seq<real>, n: nat)
    ensures var r := Select(s, p, key, n);
      && |r| <= n
      && (|r| < n ==> forall x :: x in s && p(x) ==> x in r)
  {
    var f := Filter(s, p);
    var sorted := SortBy(f, key);
    var r := Take(sorted, n);
    if |r| < n {
      assert r == sorted;
      forall x | x in s && p(x)
        ensures x in r
      {
        assert multiset(f)[x] == multiset(s)[x];
        assert x in multiset(sorted);
      }
    }
  }

  /** No match left out ranks before a row the query returns. */
  lemma SelectTop<T>(s: seq<T>, p: T -> bool, key: T -> seq<real>, n: nat)
    ensures var r := Select(s, p, key, n);
      forall i, x :: 0 <= i < |r| && x in s && p(x) && x !in r ==> KeyLe(key(r[i]), key(x))
  {
    var f := Filter(s, p);
    var sorted := SortBy(f, key);
    var r := Take(sorted, n);
    SortBySorted(f, key);
    TakeSortedIsTop(sorted, key, n);
    forall i, x | 0 <= i < |r| && x in s && p(x) && x !in r
      ensures KeyLe(key(r[i]), key(x))
    {
      assert multiset(f)[x] == multiset(s)[x];
      assert x in multiset(sorted) - multiset(r);
    }
  }

  /** A one-column key orders by that column. */
  lemma KeyLeSingle(a: real, b: real)
    ensures KeyLe([a], [b]) <==> a <= b
  {
    assert [a][1..] == [] && [b][1..] == [];
  }

  /** A two-column key orders by the first column, then the second. */
  lemma KeyLePair(a0: real, a1: real, b0: real, b1: real)
    ensures KeyLe([a0, a1], [b0, b1]) <==> a0 < b0 || (a0 == b0 && a1 <= b1)
  {
    assert [a0, a1][1..] == [a1] && [b0, b1][1..] == [b1];
    KeyLeSingle(a1, b1);
  }
}
