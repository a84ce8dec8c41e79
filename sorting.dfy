/**
 * `Array.prototype.sort` with a comparator of the form `(a, b) => key(b) - key(a)`:
 * a descending sort by an integer key. ECMAScript requires `sort` to be stable
 * (since ECMAScript 2019), so the model is a stable insertion sort: an element
 * is placed after every earlier element whose key is at least its own.
 */
module Sorting {

  ghost predicate SortedDesc<T>(s: seq<T>, key: T -> int) {
    forall i, j :: 0 <= i < j < |s| ==> key(s[i]) >= key(s[j])
  }

  /** Insert `x` into `t` in front of the first element with a smaller key. */
  function InsertDesc<T>(t: seq<T>, x: T, key: T -> int): (r: seq<T>)
    ensures |r| == |t| + 1
    ensures multiset(r) == multiset(t) + multiset{x}
    decreases |t|
  {
    if |t| == 0 then [x]
    else if key(t[0]) < key(x) then [x] + t
    else
      assert t == [t[0]] + t[1..];
      [t[0]] + InsertDesc(t[1..], x, key)
  }

  /** No key in `s` exceeds `bound`. */
  ghost predicate KeysAtMost<T>(s: seq<T>, key: T -> int, bound: int) {
    forall i :: 0 <= i < |s| ==> key(s[i]) <= bound
  }

  /** Putting an element in front of a sorted sequence of no larger keys keeps it sorted. */
  lemma ConsSorted<T>(h: T, t: seq<T>, key: T -> int)
    requires SortedDesc(t, key) && KeysAtMost(t, key, key(h))
    ensures SortedDesc([h] + t, key)
  {
    var r := [h] + t;
    forall i, j | 0 <= i < j < |r| ensures key(r[i]) >= key(r[j]) {
      assert r[j] == t[j - 1];
      if i > 0 {
        assert r[i] == t[i - 1];
      }
    }
  }

  /** The tail of a sorted sequence is sorted and bounded by the head's key. */
  lemma TailSorted<T>(t: seq<T>, key: T -> int)
    requires |t| > 0 && SortedDesc(t, key)
    ensures SortedDesc(t[1..], key) && KeysAtMost(t[1..], key, key(t[0]))
  {
    var rest := t[1..];
    forall i | 0 <= i < |rest| ensures key(rest[i]) <= key(t[0]) {
      assert rest[i] == t[i + 1];
    }
    forall i, j | 0 <= i < j < |rest| ensures key(rest[i]) >= key(rest[j]) {
      assert rest[i] == t[i + 1] && rest[j] == t[j + 1];
    }
  }

  /** Inserting an element with a key within the bound keeps every key within it. */
  lemma {:induction false} InsertDescAtMost<T>(t: seq<T>, x: T, key: T -> int, bound: int)
    requires KeysAtMost(t, key, bound) && key(x) <= bound
    ensures KeysAtMost(InsertDesc(t, x, key), key, bound)
    decreases |t|
  {
    if |t| > 0 && key(t[0]) >= key(x) {
      var rest := t[1..];
      assert KeysAtMost(rest, key, bound) by {
        forall i | 0 <= i < |rest| ensures key(rest[i]) <= bound {
          assert rest[i] == t[i + 1];
        }
      }
      InsertDescAtMost(rest, x, key, bound);
      var r := [t[0]] + InsertDesc(rest, x, key);
      forall i | 0 <= i < |r| ensures key(r[i]) <= bound {
        if i > 0 {
          assert r[i] == InsertDesc(rest, x, key)[i - 1];
        }
      }
    } else if |t| > 0 {
      var r := [x] + t;
      forall i | 0 <= i < |r| ensures key(r[i]) <= bound {
        if i > 0 {
          assert r[i] == t[i - 1];
        }
      }
    }
  }

  /** Inserting into a sorted sequence keeps it sorted. */
  lemma {:induction false} InsertDescSorted<T>(t: seq<T>, x: T, key: T -> int)
    requires SortedDesc(t, key)
    ensures SortedDesc(InsertDesc(t, x, key), key)
    decreases |t|
  {
    if |t| > 0 {
      TailSorted(t, key);
      if key(t[0]) < key(x) {
        assert KeysAtMost(t, key, key(x));
        ConsSorted(x, t, key);
      } else {
        InsertDescSorted(t[1..], x, key);
        InsertDescAtMost(t[1..], x, key, key(t[0]));
        ConsSorted(t[0], InsertDesc(t[1..], x, key), key);
      }
    }
  }

  /** The stable descending sort of `s` by `key`. */
  function SortDesc<T>(s: seq<T>, key: T -> int): (r: seq<T>)
    ensures |r| == |s|
    ensures multiset(r) == multiset(s)
    ensures SortedDesc(r, key)
    decreases |s|
  {
    if |s| == 0 then []
    else
      assert s == s[..|s| - 1] + [s[|s| - 1]];
      var sorted := SortDesc(s[..|s| - 1], key);
      InsertDescSorted(sorted, s[|s| - 1], key);
      InsertDesc(sorted, s[|s| - 1], key)
  }

  /** Number of elements of `s` that satisfy `p`. */
  function CountWhere<T>(s: seq<T>, p: T -> bool): (n: nat)
    ensures n <= |s|
    decreases |s|
  {
    if |s| == 0 then 0
    else CountWhere(s[..|s| - 1], p) + (if p(s[|s| - 1]) then 1 else 0)
  }

  lemma {:induction false} CountWhereAppend<T>(a: seq<T>, b: seq<T>, p: T -> bool)
    ensures CountWhere(a + b, p) == CountWhere(a, p) + CountWhere(b, p)
    decreases |b|
  {
    if |b| == 0 {
      assert a + b == a;
    } else {
      CountWhereAppend(a, b[..|b| - 1], p);
      assert (a + b)[..|a + b| - 1] == a + b[..|b| - 1];
    }
  }

  lemma {:induction false} CountWhereInsert<T>(t: seq<T>, x: T, key: T -> int, p: T -> bool)
    ensures CountWhere(InsertDesc(t, x, key), p) == CountWhere(t, p) + (if p(x) then 1 else 0)
    decreases |t|
  {
    if |t| == 0 {
    } else if key(t[0]) < key(x) {
      CountWhereAppend([x], t, p);
      CountWhereAppend([t[0]], t[1..], p);
      assert t == [t[0]] + t[1..];
      assert CountWhere([x], p) == (if p(x) then 1 else 0);
    } else {
      CountWhereInsert(t[1..], x, key, p);
      CountWhereAppend([t[0]], InsertDesc(t[1..], x, key), p);
      CountWhereAppend([t[0]], t[1..], p);
      assert t == [t[0]] + t[1..];
    }
  }

  /** Sorting does not change how many elements satisfy a predicate. */
  lemma {:induction false} CountWhereSort<T>(s: seq<T>, key: T -> int, p: T -> bool)
    ensures CountWhere(SortDesc(s, key), p) == CountWhere(s, p)
    decreases |s|
  {
    if |s| > 0 {
      CountWhereSort(s[..|s| - 1], key, p);
      CountWhereInsert(SortDesc(s[..|s| - 1], key), s[|s| - 1], key, p);
    }
  }

  /** The elements of `s` whose key is `v`, in their order in `s`. */
  function WithKey<T>(s: seq<T>, key: T -> int, v: int): seq<T>
    decreases |s|
  {
    if |s| == 0 then []
    else WithKey(s[..|s| - 1], key, v) + (if key(s[|s| - 1]) == v then [s[|s| - 1]] else [])
  }

  lemma {:induction false} WithKeyAppend<T>(a: seq<T>, b: seq<T>, key: T -> int, v: int)
    ensures WithKey(a + b, key, v) == WithKey(a, key, v) + WithKey(b, key, v)
    decreases |b|
  {
    if |b| == 0 {
      assert a + b == a;
    } else {
      WithKeyAppend(a, b[..|b| - 1], key, v);
      assert (a + b)[..|a + b| - 1] == a + b[..|b| - 1];
    }
  }

  lemma {:induction false} WithKeyNone<T>(s: seq<T>, key: T -> int, v: int)
    requires forall i :: 0 <= i < |s| ==> key(s[i]) < v
    ensures WithKey(s, key, v) == []
    decreases |s|
  {
    if |s| > 0 {
      WithKeyNone(s[..|s| - 1], key, v);
    }
  }

  lemma WithKeySingle<T>(x: T, key: T -> int, v: int)
    ensures WithKey([x], key, v) == if key(x) == v then [x] else []
  {
    assert [x][..0] == [];
  }

  /** Putting `x` in front of a sorted sequence whose keys are all below its own adds it
      after every element with its key (there is none). */
  lemma WithKeyInsertFront<T>(t: seq<T>, x: T, key: T -> int, v: int)
    requires SortedDesc(t, key) && (|t| == 0 || key(t[0]) < key(x))
    ensures WithKey([x] + t, key, v) == WithKey(t, key, v) + (if key(x) == v then [x] else [])
  {
    WithKeyAppend([x], t, key, v);
    WithKeySingle(x, key, v);
    if key(x) == v {
      forall i | 0 <= i < |t| ensures key(t[i]) < v {
        if i > 0 {
          assert key(t[0]) >= key(t[i]);
        }
      }
      WithKeyNone(t, key, v);
    }
  }

  /** Inserting `x` into a sorted sequence puts it after every element with the same key. */
  lemma {:induction false} WithKeyInsert<T>(t: seq<T>, x: T, key: T -> int, v: int)
    requires SortedDesc(t, key)
    ensures WithKey(InsertDesc(t, x, key), key, v) == WithKey(t, key, v) + (if key(x) == v then [x] else [])
    decreases |t|
  {
    if |t| == 0 || key(t[0]) < key(x) {
      assert InsertDesc(t, x, key) == [x] + t;
      WithKeyInsertFront(t, x, key, v);
    } else {
      assert t == [t[0]] + t[1..];
      WithKeyAppend([t[0]], t[1..], key, v);
      TailSorted(t, key);
      WithKeyInsert(t[1..], x, key, v);
      WithKeyAppend([t[0]], InsertDesc(t[1..], x, key), key, v);
    }
  }

  /** The sort is stable: the elements with any one key come out in their input order. */
  lemma {:induction false} SortDescStable<T>(s: seq<T>, key: T -> int, v: int)
    ensures WithKey(SortDesc(s, key), key, v) == WithKey(s, key, v)
    decreases |s|
  {
    if |s| > 0 {
      SortDescStable(s[..|s| - 1], key, v);
      WithKeyInsert(SortDesc(s[..|s| - 1], key), s[|s| - 1], key, v);
    }
  }

  /** A prefix of a descending sequence is sorted and drawn from the sequence. */
  lemma PrefixOfSorted<T>(sorted: seq<T>, key: T -> int, n: nat)
    requires SortedDesc(sorted, key) && n <= |sorted|
    ensures SortedDesc(sorted[..n], key)
    ensures multiset(sorted[..n]) <= multiset(sorted)
  {
    var r := sorted[..n];
    assert sorted == r + sorted[n..];
    forall i, j | 0 <= i < j < n ensures key(r[i]) >= key(r[j]) {
      assert r[i] == sorted[i] && r[j] == sorted[j];
    }
  }

  /** An element a prefix of a descending sequence leaves out has a key no larger than
      any the prefix keeps. */
  lemma LeftOutIsSmaller<T>(sorted: seq<T>, key: T -> int, n: nat, x: T)
    requires SortedDesc(sorted, key) && n <= |sorted|
    requires x in sorted && x !in sorted[..n]
    ensures forall j :: 0 <= j < n ==> key(x) <= key(sorted[j])
  {
    var i :| 0 <= i < |sorted| && sorted[i] == x;
    assert i >= n;
  }

  /** A copy of an element that a prefix of a descending sequence leaves out (counted with
      multiplicity) has a key no larger than any the prefix keeps. */
  lemma LeftOutCopyIsSmaller<T>(sorted: seq<T>, key: T -> int, n: nat, x: T)
    requires SortedDesc(sorted, key) && n <= |sorted|
    requires x in multiset(sorted) - multiset(sorted[..n])
    ensures forall j :: 0 <= j < n ==> key(x) <= key(sorted[j])
  {
    assert sorted == sorted[..n] + sorted[n..];
    assert x in multiset(sorted[n..]);
    var i :| n <= i < |sorted| && sorted[i] == x;
  }

  /** The first `k` elements of the descending sort: the `k` largest keys, largest first. */
  function TopDesc<T>(s: seq<T>, key: T -> int, k: nat): (r: seq<T>)
    ensures |r| == if |s| < k then |s| else k
    ensures SortedDesc(r, key)
    ensures multiset(r) <= multiset(s)
    ensures forall x :: x in s ==> x in r || forall j :: 0 <= j < |r| ==> key(x) <= key(r[j])
  {
    var sorted := SortDesc(s, key);
    var n := if |s| < k then |s| else k;
    PrefixOfSorted(sorted, key, n);
    assert forall x :: x in s ==> x in sorted[..n] || forall j :: 0 <= j < n ==> key(x) <= key(sorted[j]) by {
      forall x | x in s && x !in sorted[..n] ensures forall j :: 0 <= j < n ==> key(x) <= key(sorted[j]) {
        assert x in multiset(s);
        LeftOutIsSmaller(sorted, key, n, x);
      }
    }
    sorted[..n]
  }

  /** Counted with multiplicity, every element `TopDesc` leaves out has a key no larger
      than any it keeps. */
  lemma TopDescLeavesSmaller<T>(s: seq<T>, key: T -> int, k: nat)
    ensures var r := TopDesc(s, key, k);
      forall x :: x in multiset(s) - multiset(r) ==> forall j :: 0 <= j < |r| ==> key(x) <= key(r[j])
  {
    var sorted := SortDesc(s, key);
    var n := if |s| < k then |s| else k;
    assert TopDesc(s, key, k) == sorted[..n];
    forall x | x in multiset(s) - multiset(sorted[..n])
      ensures forall j :: 0 <= j < n ==> key(x) <= key(sorted[j])
    {
      LeftOutCopyIsSmaller(sorted, key, n, x);
    }
  }
}
