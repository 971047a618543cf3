/** A Mongo collection seen as its documents in natural (insertion) order,
    and the queries the handlers run on it: findOne / find on one key,
    delete, replace, skip/limit and a descending sort. */
module Rows {
  import opened Js

  /** A unique index: no two documents share a key. */
  ghost predicate KeysDistinct<T, K>(rows: seq<T>, keyOf: T -> K) {
    forall i, j :: 0 <= i < j < |rows| ==> keyOf(rows[i]) != keyOf(rows[j])
  }

  /** `findOne({ key: k })`: the first document whose key is `k`. */
  function FindKey<T, K(==)>(rows: seq<T>, keyOf: T -> K, k: K): (r: Option<T>)
    ensures r.None? <==> forall i :: 0 <= i < |rows| ==> keyOf(rows[i]) != k
    ensures r.Some? ==> r.value in rows && keyOf(r.value) == k
  {
    if |rows| == 0 then None
    else if keyOf(rows[0]) == k then Some(rows[0])
    else
      var r := FindKey(rows[1..], keyOf, k);
      assert forall i :: 1 <= i < |rows| ==> rows[i] == rows[1..][i - 1];
      r
  }

  /** How many documents have the key `k`. */
  function Count<T, K(==)>(rows: seq<T>, keyOf: T -> K, k: K): nat
  {
    if |rows| == 0 then 0
    else (if keyOf(rows[0]) == k then 1 else 0) + Count(rows[1..], keyOf, k)
  }

  /** `find({ key: k })`: every document whose key is `k`, in natural order,
      one entry per such document. */
  function Select<T(!new), K(==)>(rows: seq<T>, keyOf: T -> K, k: K): (r: seq<T>)
    ensures |r| <= |rows|
    ensures |r| == Count(rows, keyOf, k)
    ensures forall x :: x in r <==> x in rows && keyOf(x) == k
  {
    if |rows| == 0 then []
    else
      var rest := Select(rows[1..], keyOf, k);
      assert forall x :: x in rows <==> x == rows[0] || x in rows[1..];
      if keyOf(rows[0]) == k then [rows[0]] + rest else rest
  }

  /** The collection after deleting the documents whose key is `k`. */
  function Reject<T(!new), K(==)>(rows: seq<T>, keyOf: T -> K, k: K): (r: seq<T>)
    ensures |r| <= |rows|
    ensures forall x :: x in r <==> x in rows && keyOf(x) != k
  {
    if |rows| == 0 then []
    else
      var rest := Reject(rows[1..], keyOf, k);
      assert forall x :: x in rows <==> x == rows[0] || x in rows[1..];
      if keyOf(rows[0]) != k then [rows[0]] + rest else rest
  }

  /** The collection with the document whose key is `k` replaced by `x`. */
  function Replace<T, K(==)>(rows: seq<T>, keyOf: T -> K, k: K, x: T): (r: seq<T>)
    ensures |r| == |rows|
    ensures forall i :: 0 <= i < |rows| ==> r[i] == if keyOf(rows[i]) == k then x else rows[i]
  {
    if |rows| == 0 then []
    else [if keyOf(rows[0]) == k then x else rows[0]] + Replace(rows[1..], keyOf, k, x)
  }

  lemma TailDistinct<T, K>(rows: seq<T>, keyOf: T -> K)
    requires |rows| > 0 && KeysDistinct(rows, keyOf)
    ensures KeysDistinct(rows[1..], keyOf)
  {
    var tail := rows[1..];
    forall i, j | 0 <= i < j < |tail| ensures keyOf(tail[i]) != keyOf(tail[j]) {
      assert tail[i] == rows[i + 1] && tail[j] == rows[j + 1];
    }
  }

  /** Deleting the documents whose key `field` is `k` keeps every unique index,
      whichever key it is on. */
  lemma {:induction false} RejectKeepsDistinct<T(!new), B, K>(rows: seq<T>, field: T -> B, k: B, keyOf: T -> K)
    requires KeysDistinct(rows, keyOf)
    ensures KeysDistinct(Reject(rows, field, k), keyOf)
  {
    if |rows| > 0 {
      var tail := rows[1..];
      TailDistinct(rows, keyOf);
      RejectKeepsDistinct(tail, field, k, keyOf);
      var rest := Reject(tail, field, k);
      if field(rows[0]) != k {
        var r := [rows[0]] + rest;
        forall i, j | 0 <= i < j < |r| ensures keyOf(r[i]) != keyOf(r[j]) {
          if i == 0 {
            assert r[j] in rest;
            var m :| 0 <= m < |tail| && tail[m] == r[j];
            assert rows[m + 1] == r[j];
          } else {
            assert r[i] == rest[i - 1] && r[j] == rest[j - 1];
          }
        }
      }
    }
  }

  /** Deleting a present key from a uniquely keyed collection removes exactly
      one document; deleting an absent key changes nothing. */
  lemma {:induction false} RejectCount<T(!new), K>(rows: seq<T>, keyOf: T -> K, k: K)
    requires KeysDistinct(rows, keyOf)
    ensures FindKey(rows, keyOf, k).Some? ==> |Reject(rows, keyOf, k)| == |rows| - 1
    ensures FindKey(rows, keyOf, k).None? ==> Reject(rows, keyOf, k) == rows
  {
    if |rows| > 0 {
      var tail := rows[1..];
      TailDistinct(rows, keyOf);
      RejectCount(tail, keyOf, k);
      if keyOf(rows[0]) == k {
        forall i | 0 <= i < |tail| ensures keyOf(tail[i]) != k {
          assert tail[i] == rows[i + 1];
        }
        RejectCount(tail, keyOf, k);
      } else {
        assert FindKey(rows, keyOf, k) == FindKey(tail, keyOf, k);
        assert [rows[0]] + tail == rows;
      }
    }
  }

  /** Appending a document keeps the index unique exactly when its key is new. */
  lemma AppendKeepsDistinct<T, K>(rows: seq<T>, keyOf: T -> K, x: T)
    requires KeysDistinct(rows, keyOf)
    ensures KeysDistinct(rows + [x], keyOf) <==> FindKey(rows, keyOf, keyOf(x)).None?
  {
    var r := rows + [x];
    if FindKey(rows, keyOf, keyOf(x)).None? {
      forall i, j | 0 <= i < j < |r| ensures keyOf(r[i]) != keyOf(r[j]) {
        if j == |rows| {
          assert r[i] == rows[i];
        } else {
          assert r[i] == rows[i] && r[j] == rows[j];
        }
      }
    } else {
      var i :| 0 <= i < |rows| && keyOf(rows[i]) == keyOf(x);
      assert r[i] == rows[i] && r[|rows|] == x;
    }
  }

  /** Whether a document other than the one with id `id` has key `k`. */
  function HeldByOther<T, I(==), K(==)>(rows: seq<T>, idOf: T -> I, id: I, keyOf: T -> K, k: K): (r: bool)
    ensures r <==> exists i :: 0 <= i < |rows| && idOf(rows[i]) != id && keyOf(rows[i]) == k
  {
    if |rows| == 0 then false
    else if idOf(rows[0]) != id && keyOf(rows[0]) == k then true
    else
      var r := HeldByOther(rows[1..], idOf, id, keyOf, k);
      assert forall i :: 1 <= i < |rows| ==> rows[i] == rows[1..][i - 1];
      r
  }

  /** Replacing the document with id `k` by `x` keeps a unique index unique
      when no other document holds `x`'s key. */
  lemma ReplaceKeepsDistinct<T, I, K>(rows: seq<T>, idOf: T -> I, k: I, x: T, keyOf: T -> K)
    requires KeysDistinct(rows, idOf) && KeysDistinct(rows, keyOf)
    requires forall i :: 0 <= i < |rows| && idOf(rows[i]) != k ==> keyOf(rows[i]) != keyOf(x)
    ensures KeysDistinct(Replace(rows, idOf, k, x), keyOf)
  {
    var r := Replace(rows, idOf, k, x);
    assert forall i, j :: 0 <= i < j < |r| ==> keyOf(r[i]) != keyOf(r[j]);
  }

  /** In a uniquely keyed collection a document is the only holder of its key. */
  lemma OnlyHolder<T, K>(rows: seq<T>, keyOf: T -> K, x: T)
    requires KeysDistinct(rows, keyOf) && x in rows
    ensures forall y :: y in rows && keyOf(y) == keyOf(x) ==> y == x
  {
    var i :| 0 <= i < |rows| && rows[i] == x;
    forall y | y in rows && keyOf(y) == keyOf(x) ensures y == x {
      var j :| 0 <= j < |rows| && rows[j] == y;
      assert !(i < j) && !(j < i);
    }
  }

  /** In a uniquely keyed collection, `find` on the key returns the one
      document `findOne` returns. */
  lemma {:induction false} SelectUnique<T(!new), K>(rows: seq<T>, keyOf: T -> K, k: K)
    requires KeysDistinct(rows, keyOf)
    ensures Select(rows, keyOf, k) == match FindKey(rows, keyOf, k) case None => [] case Some(x) => [x]
  {
    if |rows| > 0 {
      var tail := rows[1..];
      TailDistinct(rows, keyOf);
      SelectUnique(tail, keyOf, k);
      if keyOf(rows[0]) == k {
        forall i | 0 <= i < |tail| ensures keyOf(tail[i]) != k {
          assert tail[i] == rows[i + 1];
        }
      }
    }
  }

  // ---------------------------------------------------------------- skip/limit

  function Min(a: int, b: int): int {
    if a <= b then a else b
  }

  /** `.skip(skip).limit(limit)`: at most `limit` documents starting at position `skip`. */
  function Window<T>(rows: seq<T>, skip: nat, limit: nat): (r: seq<T>)
    ensures |r| == if skip >= |rows| then 0 else Min(limit, |rows| - skip)
    ensures forall i :: 0 <= i < |r| ==> r[i] == rows[skip + i]
  {
    if skip >= |rows| then [] else rows[skip..Min(skip + limit, |rows|)]
  }

  /** Two consecutive windows of one limit make the window of twice that limit. */
  lemma WindowsTile<T>(rows: seq<T>, skip: nat, limit: nat)
    ensures Window(rows, skip, limit) + Window(rows, skip + limit, limit) == Window(rows, skip, 2 * limit)
  {
    var n := |rows|;
    if skip + limit < n {
      var m := Min(skip + 2 * limit, n);
      var k := skip + limit;
      assert skip <= k <= m <= n;
      var w := rows[skip..m];
      assert w == w[..limit] + w[limit..];
      assert w[..limit] == rows[skip..k] && w[limit..] == rows[k..m];
    }
  }

  // ---------------------------------------------------------------- sort

  /** Ordered by `key`, largest first. */
  ghost predicate SortedDesc<T>(s: seq<T>, key: T -> int) {
    forall i, j :: 0 <= i < j < |s| ==> key(s[i]) >= key(s[j])
  }

  function InsertDesc<T>(x: T, s: seq<T>, key: T -> int): (r: seq<T>)
    ensures |r| == |s| + 1
    ensures multiset(r) == multiset(s) + multiset{x}
  {
    if |s| == 0 then [x]
    else if key(x) >= key(s[0]) then
      assert s == [s[0]] + s[1..];
      [x] + s
    else
      assert s == [s[0]] + s[1..];
      [s[0]] + InsertDesc(x, s[1..], key)
  }

  /** Inserting keeps every key under a bound that `x` and `s` respect. */
  lemma InsertDescBounded<T>(x: T, s: seq<T>, key: T -> int, b: int)
    requires key(x) <= b
    requires forall i :: 0 <= i < |s| ==> key(s[i]) <= b
    ensures forall i :: 0 <= i < |InsertDesc(x, s, key)| ==> key(InsertDesc(x, s, key)[i]) <= b
  {
    var r := InsertDesc(x, s, key);
    forall i | 0 <= i < |r| ensures key(r[i]) <= b {
      assert r[i] in multiset(r);
      if r[i] != x {
        assert r[i] in multiset(s);
        var m :| 0 <= m < |s| && s[m] == r[i];
      }
    }
  }

  lemma {:induction false} InsertDescSorted<T>(x: T, s: seq<T>, key: T -> int)
    requires SortedDesc(s, key)
    ensures SortedDesc(InsertDesc(x, s, key), key)
  {
    if |s| > 0 && key(x) < key(s[0]) {
      var tail := s[1..];
      assert SortedDesc(tail, key) by {
        forall i, j | 0 <= i < j < |tail| ensures key(tail[i]) >= key(tail[j]) {
          assert tail[i] == s[i + 1] && tail[j] == s[j + 1];
        }
      }
      InsertDescSorted(x, tail, key);
      assert forall i :: 0 <= i < |tail| ==> tail[i] == s[i + 1];
      InsertDescBounded(x, tail, key, key(s[0]));
      var rest := InsertDesc(x, tail, key);
      var r := [s[0]] + rest;
      assert forall i :: 1 <= i < |r| ==> r[i] == rest[i - 1];
    } else if |s| > 0 {
      var r := [x] + s;
      assert forall i :: 1 <= i < |r| ==> r[i] == s[i - 1];
    }
  }

  /** `.sort({ key: -1 })`, stable on ties (insertion sort): a permutation of
      its input, largest key first. */
  function SortDesc<T>(s: seq<T>, key: T -> int): (r: seq<T>)
    ensures |r| == |s|
    ensures multiset(r) == multiset(s)
    ensures SortedDesc(r, key)
  {
    if |s| == 0 then []
    else
      assert s == [s[0]] + s[1..];
      var rest := SortDesc(s[1..], key);
      InsertDescSorted(s[0], rest, key);
      InsertDesc(s[0], rest, key)
  }
}
