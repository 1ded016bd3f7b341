/** Stable sorting by an integer key: JavaScript's `Array.prototype.sort`
    with a comparator `(a, b) => key(a) - key(b)` (stable since ES2019). */
module Sorting {

  ghost predicate SortedBy<T>(s: seq<T>, key: T -> int) {
    forall i, j :: 0 <= i < j < |s| ==> key(s[i]) <= key(s[j])
  }

  /** Inserts `x` before the first element whose key is not smaller. */
  function InsertBy<T>(x: T, s: seq<T>, key: T -> int): (r: seq<T>)
    ensures |r| == |s| + 1
    ensures multiset(r) == multiset(s) + multiset{x}
  {
    if s == [] then [x]
    else if key(x) <= key(s[0]) then [x] + s
    else
      assert s == [s[0]] + s[1..];
      [s[0]] + InsertBy(x, s[1..], key)
  }

  lemma {:induction false} InsertBySorted<T>(x: T, s: seq<T>, key: T -> int)
    requires SortedBy(s, key)
    ensures SortedBy(InsertBy(x, s, key), key)
  {
    if s != [] && key(x) > key(s[0]) {
      var tail := s[1..];
      assert SortedBy(tail, key) by {
        forall i, j | 0 <= i < j < |tail| ensures key(tail[i]) <= key(tail[j]) {
          assert tail[i] == s[i + 1] && tail[j] == s[j + 1];
        }
      }
      InsertBySorted(x, tail, key);
      var rest := InsertBy(x, tail, key);
      var r := [s[0]] + rest;
      InsertByElements(x, tail, key);
      forall j | 0 <= j < |rest| ensures key(s[0]) <= key(rest[j]) {
        assert rest[j] in rest;
        if rest[j] != x {
          var m :| 0 <= m < |tail| && tail[m] == rest[j];
          assert tail[m] == s[m + 1];
        }
      }
      forall i, j | 0 <= i < j < |r| ensures key(r[i]) <= key(r[j]) {
        if i > 0 {
          assert r[i] == rest[i - 1] && r[j] == rest[j - 1];
        } else {
          assert r[j] == rest[j - 1];
        }
      }
    }
  }

  lemma InsertByElements<T>(x: T, s: seq<T>, key: T -> int)
    ensures forall y :: y in InsertBy(x, s, key) ==> y == x || y in s
  {
    var r := InsertBy(x, s, key);
    forall y | y in r ensures y == x || y in s {
      assert y in multiset(r);
    }
  }

  function SortBy<T>(s: seq<T>, key: T -> int): (r: seq<T>)
    ensures |r| == |s|
    ensures multiset(r) == multiset(s)
    ensures SortedBy(r, key)
  {
    if s == [] then []
    else
      assert s == [s[0]] + s[1..];
      var rest := SortBy(s[1..], key);
      InsertBySorted(s[0], rest, key);
      InsertBy(s[0], rest, key)
  }

  /** The elements whose key is `k`, in order. */
  function KeyRun<T>(s: seq<T>, key: T -> int, k: int): seq<T>
  {
    if s == [] then []
    else (if key(s[0]) == k then [s[0]] else []) + KeyRun(s[1..], key, k)
  }

  lemma KeyRunCons<T>(y: T, t: seq<T>, key: T -> int, k: int)
    ensures KeyRun([y] + t, key, k) == (if key(y) == k then [y] else []) + KeyRun(t, key, k)
  {
    assert ([y] + t)[0] == y && ([y] + t)[1..] == t;
  }

  lemma {:induction false} KeyRunInsert<T>(x: T, s: seq<T>, key: T -> int, k: int)
    ensures KeyRun(InsertBy(x, s, key), key, k)
         == (if key(x) == k then [x] else []) + KeyRun(s, key, k)
  {
    if s == [] {
      KeyRunCons(x, [], key, k);
    } else if key(x) <= key(s[0]) {
      KeyRunCons(x, s, key, k);
    } else {
      KeyRunInsert(x, s[1..], key, k);
      KeyRunPast(x, s, key, k);
    }
  }

  /** The step of `KeyRunInsert` where `x` goes after the head. */
  lemma KeyRunPast<T>(x: T, s: seq<T>, key: T -> int, k: int)
    requires s != [] && key(x) > key(s[0])
    requires KeyRun(InsertBy(x, s[1..], key), key, k)
             == (if key(x) == k then [x] else []) + KeyRun(s[1..], key, k)
    ensures KeyRun(InsertBy(x, s, key), key, k)
         == (if key(x) == k then [x] else []) + KeyRun(s, key, k)
  {
    var rest := InsertBy(x, s[1..], key);
    var h0: seq<T> := if key(s[0]) == k then [s[0]] else [];
    var hx: seq<T> := if key(x) == k then [x] else [];
    var tail := KeyRun(s[1..], key, k);
    assert InsertBy(x, s, key) == [s[0]] + rest;
    KeyRunCons(s[0], rest, key, k);
    KeyRunCons(s[0], s[1..], key, k);
    assert [s[0]] + s[1..] == s;
    assert KeyRun(InsertBy(x, s, key), key, k) == h0 + (hx + tail);
    assert KeyRun(s, key, k) == h0 + tail;
    // `x` and the head cannot both have key `k`, so the runs commute.
    if key(x) == k {
      assert h0 == [];
      assert h0 + (hx + tail) == hx + tail && hx + (h0 + tail) == hx + tail;
    } else {
      assert hx == [];
      assert hx + tail == tail && hx + (h0 + tail) == h0 + tail;
    }
  }

  /** Stability: for every key, the elements with that key keep their order. */
  lemma {:induction false} SortByStable<T>(s: seq<T>, key: T -> int, k: int)
    ensures KeyRun(SortBy(s, key), key, k) == KeyRun(s, key, k)
  {
    if s != [] {
      SortByStable(s[1..], key, k);
      KeyRunInsert(s[0], SortBy(s[1..], key), key, k);
    }
  }
}
