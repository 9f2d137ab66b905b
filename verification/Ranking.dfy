/** Orders shared by the retention rules: "the newest k" of a finite set, and a stable
    descending sort. */
module Ranking {

  function Min(a: nat, b: nat): nat { if a <= b then a else b }

  function Elements<T(==)>(s: seq<T>): set<T> { set x | x in s }

  /** Some element of a nonempty set. */
  method Pick<T>(s: set<T>) returns (x: T)
    requires s != {}
    ensures x in s
  {
    x :| x in s;
  }

  lemma Member<T>(s: set<T>) returns (x: T)
    requires s != {}
    ensures x in s
  {
    x :| x in s;
  }

  /** The smallest element. */
  method Least(ids: set<int>) returns (least: int)
    requires ids != {}
    ensures least in ids && forall x :: x in ids ==> least <= x
  {
    least := Pick(ids);
    var todo := ids - {least};
    while todo != {}
      invariant least in ids && todo <= ids
      invariant forall x :: x in ids && x !in todo ==> least <= x
      decreases todo
    {
      var x := Pick(todo);
      if x < least { least := x; }
      todo := todo - {x};
    }
  }

  /** The elements of a set in ascending order. */
  method SortAscending(ids: set<int>) returns (s: seq<int>)
    ensures Elements(s) == ids
    ensures forall i, j :: 0 <= i < j < |s| ==> s[i] < s[j]
  {
    s := [];
    var todo := ids;
    while todo != {}
      invariant forall x :: x in ids <==> x in todo || x in s
      invariant forall i, j :: 0 <= i < j < |s| ==> s[i] < s[j]
      invariant forall x, i :: x in todo && 0 <= i < |s| ==> s[i] < x
      decreases todo
    {
      var least := Least(todo);
      s, todo := s + [least], todo - {least};
    }
    assert forall x :: x in ids <==> x in s;
  }

  // ---------- the newest k elements of a set ----------

  ghost predicate StrictTotalOn<T(!new)>(newer: (T, T) -> bool, s: set<T>) {
    && (forall x :: x in s ==> !newer(x, x))
    && (forall x, y :: x in s && y in s && x != y ==> newer(x, y) || newer(y, x))
    && (forall x, y, z :: x in s && y in s && z in s && newer(x, y) && newer(y, z) ==> newer(x, z))
  }

  function Above<T(==)>(newer: (T, T) -> bool, s: set<T>, x: T): set<T> {
    set y | y in s && newer(y, x)
  }

  function Below<T(==)>(newer: (T, T) -> bool, s: set<T>, x: T): set<T> {
    set y | y in s && newer(x, y)
  }

  /** The elements with fewer than `k` newer ones. */
  function Newest<T(==)>(newer: (T, T) -> bool, s: set<T>, k: nat): set<T> {
    set x | x in s && |Above(newer, s, x)| < k
  }

  lemma {:induction false} Oldest<T(!new)>(newer: (T, T) -> bool, s: set<T>) returns (m: T)
    requires StrictTotalOn(newer, s) && s != {}
    ensures m in s && forall x :: x in s && x != m ==> newer(x, m)
  {
    m :| m in s;
    if s != {m} {
      var rest := s - {m};
      var o := Oldest(newer, rest);
      if newer(m, o) { m := o; }
    }
  }

  /** Exactly min(k, |s|) elements are among the newest k. */
  lemma {:induction false} NewestCount<T(!new)>(newer: (T, T) -> bool, s: set<T>, k: nat)
    requires StrictTotalOn(newer, s)
    ensures |Newest(newer, s, k)| == Min(k, |s|)
  {
    if s != {} {
      var m := Oldest(newer, s);
      var rest := s - {m};
      NewestCount(newer, rest, k);
      assert Above(newer, s, m) == rest;
      forall x | x in rest ensures Above(newer, s, x) == Above(newer, rest, x) {}
      assert Newest(newer, s, k) == Newest(newer, rest, k) + if |rest| < k then {m} else {};
    }
  }

  lemma AboveBelow<T(!new)>(newer: (T, T) -> bool, s: set<T>, x: T)
    requires StrictTotalOn(newer, s) && x in s
    ensures |Above(newer, s, x)| + |Below(newer, s, x)| + 1 == |s|
  {
    var a, b := Above(newer, s, x), Below(newer, s, x);
    assert a !! b && x !in a && x !in b;
    assert s == a + b + {x};
  }

  lemma CardinalityMonotone<T>(a: set<T>, b: set<T>)
    requires a <= b
    ensures |a| <= |b|
  {
    assert b == a + (b - a);
  }

  method Latest<T(!new)>(newer: (T, T) -> bool, s: set<T>) returns (m: T)
    requires StrictTotalOn(newer, s) && s != {}
    ensures m in s && forall x :: x in s && x != m ==> newer(m, x)
  {
    m := Pick(s);
    var todo := s - {m};
    while todo != {}
      invariant m in s && todo <= s && forall x :: x in s && x !in todo && x != m ==> newer(m, x)
      decreases todo
    {
      var x := Pick(todo);
      if newer(x, m) { m := x; }
      todo := todo - {x};
    }
  }

  /** The elements of a set, newest first. */
  method SortNewest<T(!new)>(newer: (T, T) -> bool, s: set<T>) returns (r: seq<T>)
    requires StrictTotalOn(newer, s)
    ensures Elements(r) == s
    ensures forall i, j :: 0 <= i < j < |r| ==> newer(r[i], r[j])
  {
    r := [];
    var todo := s;
    while todo != {}
      invariant todo <= s && Elements(r) == s - todo
      invariant forall i, j :: 0 <= i < j < |r| ==> newer(r[i], r[j])
      invariant forall i, x :: 0 <= i < |r| && x in todo ==> newer(r[i], x)
      decreases todo
    {
      var m := Latest(newer, todo);
      assert Elements(r + [m]) == Elements(r) + {m};
      r, todo := r + [m], todo - {m};
    }
  }

  lemma {:induction false} DistinctIff<T>(s: seq<T>)
    ensures |Elements(s)| <= |s|
    ensures |Elements(s)| == |s| <==> forall i, j :: 0 <= i < j < |s| ==> s[i] != s[j]
  {
    if s != [] {
      var rest, last := s[..|s| - 1], s[|s| - 1];
      DistinctIff(rest);
      assert Elements(s) == Elements(rest) + {last};
      if last in rest {
        var i :| 0 <= i < |rest| && rest[i] == last;
        assert s[i] == s[|s| - 1];
        assert Elements(rest) + {last} == Elements(rest);
      } else {
        assert forall i :: 0 <= i < |rest| ==> s[i] == rest[i] && s[i] != last;
        assert |Elements(rest) + {last}| == |Elements(rest)| + 1;
      }
    }
  }

  /** An ascending list is determined by its elements. */
  lemma {:induction false} AscendingUnique(s: seq<int>, t: seq<int>)
    requires (forall i, j :: 0 <= i < j < |s| ==> s[i] < s[j]) && forall i, j :: 0 <= i < j < |t| ==> t[i] < t[j]
    requires Elements(s) == Elements(t)
    ensures s == t
  {
    assert t != [] ==> t[0] in Elements(t);
    if s != [] {
      var x := s[|s| - 1];
      assert x in Elements(t);
      var y := t[|t| - 1];
      assert y in Elements(s);
      assert x == y;
      assert Elements(s[..|s| - 1]) == Elements(s) - {x};
      assert Elements(t[..|t| - 1]) == Elements(t) - {x};
      AscendingUnique(s[..|s| - 1], t[..|t| - 1]);
      assert s == s[..|s| - 1] + [x] && t == t[..|t| - 1] + [x];
    }
  }

  // ---------- a stable descending sort ----------

  predicate Descending<T(!new)>(s: seq<T>, key: T -> int) {
    forall i, j :: 0 <= i < j < |s| ==> key(s[i]) >= key(s[j])
  }

  function Insert<T>(x: T, s: seq<T>, key: T -> int): seq<T> {
    if s == [] || key(x) >= key(s[0]) then [x] + s else [s[0]] + Insert(x, s[1..], key)
  }

  function SortDescending<T>(s: seq<T>, key: T -> int): seq<T> {
    if s == [] then [] else Insert(s[0], SortDescending(s[1..], key), key)
  }

  lemma {:induction false} InsertKeepsElements<T>(x: T, s: seq<T>, key: T -> int)
    ensures multiset(Insert(x, s, key)) == multiset{x} + multiset(s)
  {
    if s != [] && key(x) < key(s[0]) {
      InsertKeepsElements(x, s[1..], key);
      assert s == [s[0]] + s[1..];
    }
  }

  lemma {:induction false} InsertSorted<T(!new)>(x: T, s: seq<T>, key: T -> int)
    requires Descending(s, key)
    ensures Descending(Insert(x, s, key), key)
  {
    if s != [] && key(x) < key(s[0]) {
      var rest := s[1..];
      InsertSorted(x, rest, key);
      InsertKeepsElements(x, rest, key);
      var t := Insert(x, rest, key);
      forall k | 0 <= k < |t| ensures key(t[k]) <= key(s[0]) {
        assert t[k] in multiset(t);
        assert t[k] == x || t[k] in rest;
      }
    }
  }

  lemma {:induction false} SortDescendingSorts<T(!new)>(s: seq<T>, key: T -> int)
    ensures Descending(SortDescending(s, key), key)
    ensures multiset(SortDescending(s, key)) == multiset(s)
  {
    if s != [] {
      SortDescendingSorts(s[1..], key);
      InsertSorted(s[0], SortDescending(s[1..], key), key);
      InsertKeepsElements(s[0], SortDescending(s[1..], key), key);
      assert s == [s[0]] + s[1..];
    }
  }

  lemma MultisetLength<T>(s: seq<T>, t: seq<T>)
    requires multiset(s) == multiset(t)
    ensures |s| == |t|
  {
    assert |multiset(s)| == |s| && |multiset(t)| == |t|;
  }

  /** A duplicate-free list stays duplicate free under permutation. */
  lemma PermutationKeepsDistinct<T>(s: seq<T>, t: seq<T>)
    requires multiset(s) == multiset(t)
    requires forall i, j :: 0 <= i < j < |s| ==> s[i] != s[j]
    ensures forall i, j :: 0 <= i < j < |t| ==> t[i] != t[j]
  {
    forall i, j | 0 <= i < j < |t| ensures t[i] != t[j] {
      if t[i] == t[j] {
        assert t == t[..j] + [t[j]] + t[j + 1..];
        assert t[i] in multiset(t[..j]);
        assert multiset(t)[t[j]] >= 2;
        DistinctOnce(s, t[j]);
      }
    }
  }

  lemma {:induction false} DistinctOnce<T>(s: seq<T>, x: T)
    requires forall i, j :: 0 <= i < j < |s| ==> s[i] != s[j]
    ensures multiset(s)[x] <= 1
  {
    if s != [] {
      assert s == [s[0]] + s[1..];
      DistinctOnce(s[1..], x);
      assert s[0] !in s[1..];
    }
  }

  /** In a strictly descending list the first k elements are the newest k. */
  lemma SortedPrefixIsNewest<T(!new)>(newer: (T, T) -> bool, s: seq<T>, k: nat)
    requires forall i, j :: 0 <= i < j < |s| ==> newer(s[i], s[j]) && !newer(s[j], s[i]) && s[i] != s[j]
    requires forall i :: 0 <= i < |s| ==> !newer(s[i], s[i])
    ensures Newest(newer, Elements(s), k) == Elements(s[..Min(k, |s|)])
  {
    var all := Elements(s);
    forall i | 0 <= i < |s| ensures |Above(newer, all, s[i])| == i {
      assert Above(newer, all, s[i]) == Elements(s[..i]);
      DistinctSetSize(s[..i]);
    }
    forall x | x in all ensures x in Newest(newer, all, k) <==> x in s[..Min(k, |s|)] {
      var i :| 0 <= i < |s| && s[i] == x;
      assert i < Min(k, |s|) ==> s[..Min(k, |s|)][i] == x;
    }
  }

  lemma {:induction false} DistinctSetSize<T>(s: seq<T>)
    requires forall i, j :: 0 <= i < j < |s| ==> s[i] != s[j]
    ensures |Elements(s)| == |s|
  {
    if s != [] {
      var rest := s[..|s| - 1];
      DistinctSetSize(rest);
      assert Elements(s) == Elements(rest) + {s[|s| - 1]};
      assert s[|s| - 1] !in rest;
    }
  }
}
