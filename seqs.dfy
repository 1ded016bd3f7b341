/** Sequence helpers standing for JavaScript's array `filter`, `find`,
    `findIndex`, `splice` and `Math.max(...ids, 0)`. */
module Seqs {
  import opened Wrappers

  /** `s.filter(p)`. */
  function Filter<T>(s: seq<T>, p: T -> bool): (r: seq<T>)
    ensures |r| <= |s|
    ensures forall x :: x in r ==> x in s && p(x)
    ensures forall x :: x in s && p(x) ==> x in r
    ensures forall i :: 0 <= i < |r| ==> p(r[i])
  {
    if s == [] then []
    else if p(s[0]) then [s[0]] + Filter(s[1..], p)
    else Filter(s[1..], p)
  }

  lemma {:induction false} FilterAll<T>(s: seq<T>, p: T -> bool)
    requires forall x :: x in s ==> p(x)
    ensures Filter(s, p) == s
  {
    if s != [] {
      FilterAll(s[1..], p);
    }
  }

  lemma {:induction false} FilterNone<T>(s: seq<T>, p: T -> bool)
    requires forall x :: x in s ==> !p(x)
    ensures Filter(s, p) == []
  {
    if s != [] {
      FilterNone(s[1..], p);
    }
  }

  lemma {:induction false} FilterAppend<T>(a: seq<T>, b: seq<T>, p: T -> bool)
    ensures Filter(a + b, p) == Filter(a, p) + Filter(b, p)
  {
    if a == [] {
      assert a + b == b;
    } else {
      assert (a + b)[1..] == a[1..] + b;
      FilterAppend(a[1..], b, p);
    }
  }

  /** `a` is `b` with some elements left out, the rest in their order. */
  predicate IsSubseq<T(==)>(a: seq<T>, b: seq<T>)
    decreases |b|
  {
    if a == [] then true
    else if b == [] then false
    else if a[0] == b[0] then IsSubseq(a[1..], b[1..])
    else IsSubseq(a, b[1..])
  }

  /** A filter keeps every copy of a kept element and none of a dropped one. */
  lemma {:induction false} FilterCount<T>(s: seq<T>, p: T -> bool, x: T)
    ensures multiset(Filter(s, p))[x] == if p(x) then multiset(s)[x] else 0
  {
    if s != [] {
      FilterCount(s[1..], p, x);
      assert s == [s[0]] + s[1..];
    }
  }

  lemma {:induction false} FilterIsSubseq<T>(s: seq<T>, p: T -> bool)
    ensures IsSubseq(Filter(s, p), s)
  {
    if s != [] {
      FilterIsSubseq(s[1..], p);
      if !p(s[0]) {
        var r := Filter(s[1..], p);
        if r != [] {
          assert r[0] in r;
        }
      }
    }
  }

  /** The first index whose key is `k` (`findIndex`), or None (`-1`). */
  function IndexOfKey<T>(s: seq<T>, key: T -> int, k: int): (r: Option<nat>)
    ensures r.None? <==> forall i :: 0 <= i < |s| ==> key(s[i]) != k
    ensures r.Some? ==> r.value < |s| && key(s[r.value]) == k
    ensures r.Some? ==> forall j :: 0 <= j < r.value ==> key(s[j]) != k
  {
    if s == [] then None
    else if key(s[0]) == k then Some(0)
    else match IndexOfKey(s[1..], key, k)
      case None => None
      case Some(i) => Some(i + 1)
  }

  /** `s.splice(i, 1)`. */
  function RemoveAt<T>(s: seq<T>, i: nat): (r: seq<T>)
    requires i < |s|
    ensures |r| == |s| - 1
    ensures forall j :: 0 <= j < i ==> r[j] == s[j]
    ensures forall j :: i <= j < |r| ==> r[j] == s[j + 1]
  {
    s[..i] + s[i + 1..]
  }

  /** The elements of `RemoveAt(s, i)` are those of `s`, and every element
      other than `s[i]` stays. */
  lemma RemoveAtMembers<T>(s: seq<T>, i: nat)
    requires i < |s|
    ensures forall x :: x in RemoveAt(s, i) ==> x in s
    ensures forall x :: x in s && x != s[i] ==> x in RemoveAt(s, i)
  {
    var r := RemoveAt(s, i);
    forall x | x in r ensures x in s {
      var m :| 0 <= m < |r| && r[m] == x;
      if m < i { assert r[m] == s[m]; } else { assert r[m] == s[m + 1]; }
    }
    forall x | x in s && x != s[i] ensures x in r {
      var m :| 0 <= m < |s| && s[m] == x;
      if m < i { assert r[m] == x; } else { assert r[m - 1] == x; }
    }
  }

  /** `Math.max(...s.map(key), 0)`. */
  function MaxKeyOr0<T>(s: seq<T>, key: T -> int): (m: int)
    ensures m >= 0
    ensures forall x :: x in s ==> key(x) <= m
    ensures m == 0 || exists i :: 0 <= i < |s| && key(s[i]) == m
  {
    if s == [] then 0
    else
      var rest := MaxKeyOr0(s[1..], key);
      if key(s[0]) > rest then key(s[0]) else rest
  }

  // Identifier discipline of a table: every key below a bound, no key twice.

  ghost predicate AllBelow<T>(s: seq<T>, key: T -> int, bound: int) {
    forall x :: x in s ==> key(x) < bound
  }

  ghost predicate DistinctBy<T>(s: seq<T>, key: T -> int) {
    forall i, j :: 0 <= i < j < |s| ==> key(s[i]) != key(s[j])
  }

  ghost predicate TableOk<T>(s: seq<T>, key: T -> int, bound: int) {
    AllBelow(s, key, bound) && DistinctBy(s, key)
  }

  lemma AppendFresh<T>(s: seq<T>, x: T, key: T -> int, bound: int)
    requires TableOk(s, key, bound)
    requires key(x) == bound
    ensures TableOk(s + [x], key, bound + 1)
  {
    var t := s + [x];
    forall i, j | 0 <= i < j < |t| ensures key(t[i]) != key(t[j]) {
      assert t[i] == s[i];
      assert s[i] in s;
      if j < |s| { assert t[j] == s[j]; }
    }
  }

  lemma {:induction false} FilterKeepsTable<T>(s: seq<T>, p: T -> bool, key: T -> int, bound: int)
    requires TableOk(s, key, bound)
    ensures TableOk(Filter(s, p), key, bound)
  {
    if s != [] {
      assert TableOk(s[1..], key, bound) by {
        forall x | x in s[1..] ensures key(x) < bound { assert x in s; }
        forall i, j | 0 <= i < j < |s[1..]| ensures key(s[1..][i]) != key(s[1..][j]) {
          assert s[1..][i] == s[i + 1] && s[1..][j] == s[j + 1];
        }
      }
      FilterKeepsTable(s[1..], p, key, bound);
      if p(s[0]) {
        var r := Filter(s[1..], p);
        var t := [s[0]] + r;
        forall i, j | 0 <= i < j < |t| ensures key(t[i]) != key(t[j]) {
          if i == 0 {
            assert t[j] == r[j - 1] && r[j - 1] in s[1..];
            var m :| 0 <= m < |s[1..]| && s[1..][m] == r[j - 1];
            assert s[m + 1] == r[j - 1];
          } else {
            assert t[i] == r[i - 1] && t[j] == r[j - 1];
          }
        }
      }
    }
  }

  lemma RemoveAtKeepsTable<T>(s: seq<T>, i: nat, key: T -> int, bound: int)
    requires i < |s| && TableOk(s, key, bound)
    ensures TableOk(RemoveAt(s, i), key, bound)
    ensures forall x :: x in RemoveAt(s, i) ==> x in s && key(x) != key(s[i])
  {
    var r := RemoveAt(s, i);
    forall x | x in r ensures x in s && key(x) < bound && key(x) != key(s[i]) {
      var m :| 0 <= m < |r| && r[m] == x;
      if m < i { assert r[m] == s[m]; } else { assert r[m] == s[m + 1]; }
    }
    forall a, b | 0 <= a < b < |r| ensures key(r[a]) != key(r[b]) {
    }
  }

  lemma ReplaceKeepsBelow<T>(s: seq<T>, i: nat, x: T, key: T -> int, bound: int)
    requires i < |s| && AllBelow(s, key, bound) && key(x) == key(s[i])
    ensures AllBelow(s[i := x], key, bound)
  {
    var r := s[i := x];
    forall y | y in r ensures key(y) < bound {
      var m :| 0 <= m < |r| && r[m] == y;
      assert m != i ==> r[m] == s[m] && s[m] in s;
      assert s[i] in s;
    }
  }

  lemma ReplaceKeepsTable<T>(s: seq<T>, i: nat, x: T, key: T -> int, bound: int)
    requires i < |s| && TableOk(s, key, bound) && key(x) == key(s[i])
    ensures TableOk(s[i := x], key, bound)
  {
    var r := s[i := x];
    forall y | y in r ensures key(y) < bound {
      var m :| 0 <= m < |r| && r[m] == y;
      assert m != i ==> r[m] == s[m] && s[m] in s;
      assert s[i] in s;
    }
  }

  /** The keys of the elements of `s`. */
  function KeySet<T(==)>(s: seq<T>, key: T -> int): (ks: set<int>)
    ensures forall k :: k in ks <==> exists x :: x in s && key(x) == k
  {
    set x | x in s :: key(x)
  }

  /** Concatenation regroups freely. */
  lemma AppendAssoc<T>(a: seq<T>, b: seq<T>, c: seq<T>)
    ensures (a + b) + c == a + (b + c)
  {
  }
}
