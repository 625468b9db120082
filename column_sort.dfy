/**
 * The column sort index of a feature column: the permutation of row numbers
 * that lists the column's values in ascending order. Ties keep the original
 * row order (a stable order), so the index is determined by the column alone.
 */
module ColumnSort {

  /** Every entry of `idx` names one of `n` rows. */
  predicate InRange(idx: seq<int>, n: nat) {
    forall k :: 0 <= k < |idx| ==> 0 <= idx[k] < n
  }

  /** No row is named twice. */
  predicate Distinct(idx: seq<int>) {
    forall k, k' :: 0 <= k < k' < |idx| ==> idx[k] != idx[k']
  }

  /** Every one of `n` rows is named. */
  predicate Covers(idx: seq<int>, n: nat) {
    forall r :: 0 <= r < n ==> r in idx
  }

  /** `idx` is a permutation of the rows `[0, n)`. */
  predicate IsPermutation(idx: seq<int>, n: nat) {
    |idx| == n && InRange(idx, n) && Distinct(idx) && Covers(idx, n)
  }

  /** Reading the column through `idx` gives non-decreasing values. */
  predicate Ascending(keys: seq<real>, idx: seq<int>)
    requires InRange(idx, |keys|)
  {
    forall k, k' :: 0 <= k < k' < |idx| ==> keys[idx[k]] <= keys[idx[k']]
  }

  /** Rows holding equal values appear in their original order. */
  predicate Stable(keys: seq<real>, idx: seq<int>)
    requires InRange(idx, |keys|)
  {
    forall k, k' :: 0 <= k < k' < |idx| && keys[idx[k]] == keys[idx[k']] ==> idx[k] < idx[k']
  }

  predicate Sorted(values: seq<real>) {
    forall k, k' :: 0 <= k < k' < |values| ==> values[k] <= values[k']
  }

  /** The column's values read in the order `idx` gives. */
  function Gather(values: seq<real>, idx: seq<int>): seq<real>
    requires InRange(idx, |values|)
  {
    seq(|idx|, k requires 0 <= k < |idx| => values[idx[k]])
  }

  /**
   * Inserts row `i` into the ordered index `idx`, in front of the first row
   * whose value is strictly greater than that of `i`.
   */
  function Insert(keys: seq<real>, idx: seq<int>, i: int): (r: seq<int>)
    requires InRange(idx, |keys|) && 0 <= i < |keys|
    ensures |r| == |idx| + 1
    ensures InRange(r, |keys|)
    ensures forall x :: x in r <==> x == i || x in idx
  {
    if idx == [] || keys[i] < keys[idx[0]] then [i] + idx
    else [idx[0]] + Insert(keys, idx[1..], i)
  }

  /** The stable order of the first `n` rows of the column. */
  function SortPrefix(keys: seq<real>, n: nat): (r: seq<int>)
    requires n <= |keys|
    ensures |r| == n && InRange(r, |keys|)
    ensures forall x :: x in r <==> 0 <= x < n
  {
    if n == 0 then [] else Insert(keys, SortPrefix(keys, n - 1), n - 1)
  }

  /**
   * The sort index of one column: a permutation of its rows under which its
   * values ascend, ties kept in row order.
   */
  function SortedIndex(keys: seq<real>): (idx: seq<int>)
    ensures IsPermutation(idx, |keys|)
    ensures Ascending(keys, idx)
    ensures Stable(keys, idx)
  {
    SortPrefixPermutation(keys, |keys|);
    SortPrefixAscending(keys, |keys|);
    SortPrefixStable(keys, |keys|);
    SortPrefix(keys, |keys|)
  }

  lemma {:induction false} InsertDistinct(keys: seq<real>, idx: seq<int>, i: int)
    requires InRange(idx, |keys|) && 0 <= i < |keys|
    requires Distinct(idx) && i !in idx
    ensures Distinct(Insert(keys, idx, i))
  {
    if idx != [] && !(keys[i] < keys[idx[0]]) {
      var tail := idx[1..];
      assert forall x :: x in tail ==> x in idx;
      InsertDistinct(keys, tail, i);
      var rest := Insert(keys, tail, i);
      assert idx[0] !in tail by {
        forall j | 0 <= j < |tail| ensures tail[j] != idx[0] {
          assert tail[j] == idx[j + 1];
        }
      }
      assert idx[0] !in rest;
      var r := [idx[0]] + rest;
      forall k, k' | 0 <= k < k' < |r| ensures r[k] != r[k'] {
        if k == 0 {
          assert r[k'] == rest[k' - 1];
        }
      }
    }
  }

  lemma {:induction false} InsertAscending(keys: seq<real>, idx: seq<int>, i: int)
    requires InRange(idx, |keys|) && 0 <= i < |keys|
    requires Ascending(keys, idx)
    ensures Ascending(keys, Insert(keys, idx, i))
  {
    var r := Insert(keys, idx, i);
    if idx == [] || keys[i] < keys[idx[0]] {
      forall k, k' | 0 <= k < k' < |r| ensures keys[r[k]] <= keys[r[k']] {
        if k == 0 && idx != [] {
          assert r[k'] == idx[k' - 1];
          assert keys[idx[0]] <= keys[idx[k' - 1]];
        }
      }
    } else {
      var tail := idx[1..];
      InsertAscending(keys, tail, i);
      var rest := Insert(keys, tail, i);
      forall k, k' | 0 <= k < k' < |r| ensures keys[r[k]] <= keys[r[k']] {
        if k == 0 {
          var x := rest[k' - 1];
          assert x in rest;
          if x != i {
            var j :| 0 <= j < |tail| && tail[j] == x;
            assert idx[j + 1] == x;
          }
        }
      }
    }
  }

  lemma {:induction false} InsertStable(keys: seq<real>, idx: seq<int>, i: int)
    requires InRange(idx, |keys|) && 0 <= i < |keys|
    requires Ascending(keys, idx) && Stable(keys, idx)
    requires forall k :: 0 <= k < |idx| ==> idx[k] < i
    ensures Stable(keys, Insert(keys, idx, i))
  {
    var r := Insert(keys, idx, i);
    if idx == [] || keys[i] < keys[idx[0]] {
      forall k, k' | 0 <= k < k' < |r| ensures keys[r[k]] == keys[r[k']] ==> r[k] < r[k'] {
        if k == 0 {
          assert r[k'] == idx[k' - 1];
          assert keys[idx[0]] <= keys[idx[k' - 1]];
          assert keys[r[k]] < keys[r[k']];
        }
      }
    } else {
      var tail := idx[1..];
      InsertStable(keys, tail, i);
      var rest := Insert(keys, tail, i);
      forall k, k' | 0 <= k < k' < |r| ensures keys[r[k]] == keys[r[k']] ==> r[k] < r[k'] {
        if k == 0 {
          var x := rest[k' - 1];
          assert x in rest;
          if x != i {
            var j :| 0 <= j < |tail| && tail[j] == x;
            assert idx[j + 1] == x;
          }
        }
      }
    }
  }

  lemma {:induction false} InsertGather(keys: seq<real>, idx: seq<int>, i: int)
    requires InRange(idx, |keys|) && 0 <= i < |keys|
    ensures multiset(Gather(keys, Insert(keys, idx, i))) == multiset(Gather(keys, idx)) + multiset{keys[i]}
  {
    if idx == [] || keys[i] < keys[idx[0]] {
      assert Gather(keys, [i] + idx) == [keys[i]] + Gather(keys, idx);
    } else {
      var tail := idx[1..];
      InsertGather(keys, tail, i);
      assert Gather(keys, idx) == [keys[idx[0]]] + Gather(keys, tail);
      assert Gather(keys, [idx[0]] + Insert(keys, tail, i)) == [keys[idx[0]]] + Gather(keys, Insert(keys, tail, i));
    }
  }

  lemma {:induction false} SortPrefixPermutation(keys: seq<real>, n: nat)
    requires n <= |keys|
    ensures IsPermutation(SortPrefix(keys, n), n)
  {
    var r := SortPrefix(keys, n);
    if n > 0 {
      var prev := SortPrefix(keys, n - 1);
      SortPrefixPermutation(keys, n - 1);
      InsertDistinct(keys, prev, n - 1);
    }
    SortPrefixBelow(keys, n);
  }

  lemma SortPrefixBelow(keys: seq<real>, n: nat)
    requires n <= |keys|
    ensures InRange(SortPrefix(keys, n), n)
  {
    var r := SortPrefix(keys, n);
    forall k | 0 <= k < |r| ensures 0 <= r[k] < n {
      assert r[k] in r;
    }
  }

  lemma {:induction false} SortPrefixAscending(keys: seq<real>, n: nat)
    requires n <= |keys|
    ensures Ascending(keys, SortPrefix(keys, n))
  {
    if n > 0 {
      SortPrefixAscending(keys, n - 1);
      InsertAscending(keys, SortPrefix(keys, n - 1), n - 1);
    }
  }

  lemma {:induction false} SortPrefixStable(keys: seq<real>, n: nat)
    requires n <= |keys|
    ensures Stable(keys, SortPrefix(keys, n))
  {
    if n > 0 {
      var prev := SortPrefix(keys, n - 1);
      SortPrefixAscending(keys, n - 1);
      SortPrefixStable(keys, n - 1);
      SortPrefixBelow(keys, n - 1);
      InsertStable(keys, prev, n - 1);
    }
  }

  lemma {:induction false} SortPrefixGather(keys: seq<real>, n: nat)
    requires n <= |keys|
    ensures multiset(Gather(keys, SortPrefix(keys, n))) == multiset(keys[..n])
  {
    if n > 0 {
      SortPrefixGather(keys, n - 1);
      InsertGather(keys, SortPrefix(keys, n - 1), n - 1);
      assert keys[..n] == keys[..n - 1] + [keys[n - 1]];
    }
  }

  /**
   * The values a column shows through its sort index are sorted and are the
   * column's own values, each as often as it occurs.
   */
  lemma SortedValues(keys: seq<real>)
    ensures |Gather(keys, SortedIndex(keys))| == |keys|
    ensures Sorted(Gather(keys, SortedIndex(keys)))
    ensures multiset(Gather(keys, SortedIndex(keys))) == multiset(keys)
  {
    SortPrefixGather(keys, |keys|);
    assert keys[..|keys|] == keys;
  }

  /** Value first, then row number: the strict order a stable sort follows. */
  predicate Precedes(keys: seq<real>, i: int, j: int)
    requires 0 <= i < |keys| && 0 <= j < |keys|
  {
    keys[i] < keys[j] || (keys[i] == keys[j] && i < j)
  }

  predicate StrictlyOrdered(keys: seq<real>, idx: seq<int>)
    requires InRange(idx, |keys|)
  {
    forall k, k' :: 0 <= k < k' < |idx| ==> Precedes(keys, idx[k], idx[k'])
  }

  lemma TailMembers(keys: seq<real>, a: seq<int>)
    requires InRange(a, |keys|) && StrictlyOrdered(keys, a) && a != []
    ensures forall x :: x in a[1..] <==> x in a && x != a[0]
  {
  }

  lemma FirstIsLeast(keys: seq<real>, a: seq<int>)
    requires InRange(a, |keys|) && StrictlyOrdered(keys, a) && a != []
    ensures forall x :: x in a ==> x == a[0] || Precedes(keys, a[0], x)
  {
  }

  /** Two strictly ordered indexes naming the same rows are equal. */
  lemma {:induction false} StrictlyOrderedUnique(keys: seq<real>, a: seq<int>, b: seq<int>)
    requires InRange(a, |keys|) && InRange(b, |keys|) && |a| == |b|
    requires StrictlyOrdered(keys, a) && StrictlyOrdered(keys, b)
    requires forall x :: x in a <==> x in b
    ensures a == b
  {
    if a != [] {
      assert a[0] in b;
      var j :| 0 <= j < |b| && b[j] == a[0];
      assert b[0] in a;
      FirstIsLeast(keys, a);
      FirstIsLeast(keys, b);
      assert a[0] == b[0];
      TailMembers(keys, a);
      TailMembers(keys, b);
      StrictlyOrderedUnique(keys, a[1..], b[1..]);
      assert a == [a[0]] + a[1..];
      assert b == [b[0]] + b[1..];
    }
  }

  /**
   * The sort index is the only ascending, stable permutation of the rows:
   * any procedure producing one produces exactly this index.
   */
  lemma SortedIndexUnique(keys: seq<real>, idx: seq<int>)
    requires IsPermutation(idx, |keys|)
    requires Ascending(keys, idx) && Stable(keys, idx)
    ensures idx == SortedIndex(keys)
  {
    var s := SortedIndex(keys);
    assert StrictlyOrdered(keys, idx) by {
      forall k, k' | 0 <= k < k' < |idx| ensures Precedes(keys, idx[k], idx[k']) {
        assert keys[idx[k]] <= keys[idx[k']];
      }
    }
    assert StrictlyOrdered(keys, s) by {
      forall k, k' | 0 <= k < k' < |s| ensures Precedes(keys, s[k], s[k']) {
        assert keys[s[k]] <= keys[s[k']];
      }
    }
    forall x ensures x in idx <==> x in s {
      if x in idx {
        var j :| 0 <= j < |idx| && idx[j] == x;
      }
      if x in s {
        var j :| 0 <= j < |s| && s[j] == x;
      }
    }
    StrictlyOrderedUnique(keys, idx, s);
  }

  /** The four-row column 3, 1, 2, 1: the tie between rows 1 and 3 keeps row order. */
  lemma SortedIndexExample(keys: seq<real>)
    requires keys == [3.0, 1.0, 2.0, 1.0]
    ensures SortedIndex(keys) == [1, 3, 2, 0]
    ensures Gather(keys, SortedIndex(keys)) == [1.0, 1.0, 2.0, 3.0]
  {
    var idx := [1, 3, 2, 0];
    assert idx[3] == 0 && idx[0] == 1 && idx[2] == 2 && idx[1] == 3;
    assert Covers(idx, 4);
    SortedIndexUnique(keys, idx);
  }
}
