/**
 * What the server's queries do with a collection once the filter has
 * chosen the documents: order them by one integer key and cut the list at
 * a limit. The database leaves the order of equal keys open; this model
 * keeps such documents in the collection's natural order.
 */
module Sorting {

  /** Keys never increase along `s`. */
  predicate Descending<T>(s: seq<T>, key: T -> int)
  {
    forall i, j :: 0 <= i < j < |s| ==> key(s[j]) <= key(s[i])
  }

  /** Keys never decrease along `s`. */
  predicate Ascending<T>(s: seq<T>, key: T -> int)
  {
    forall i, j :: 0 <= i < j < |s| ==> key(s[i]) <= key(s[j])
  }

  /** Places `x` before the first element whose key is not larger. */
  function Insert<T>(x: T, s: seq<T>, key: T -> int): (r: seq<T>)
    requires Descending(s, key)
    ensures Descending(r, key)
    ensures multiset(r) == multiset(s) + multiset{x}
    ensures |r| == |s| + 1
  {
    if |s| == 0 || key(s[0]) <= key(x) then [x] + s
    else
      var t := Insert(x, s[1..], key);
      HeadBoundsInsert(x, s, t, key);
      assert s == [s[0]] + s[1..];
      [s[0]] + t
  }

  /** The head of an ordered list stays in front of whatever is inserted
      behind it with a smaller key. */
  lemma HeadBoundsInsert<T>(x: T, s: seq<T>, t: seq<T>, key: T -> int)
    requires |s| > 0 && Descending(s, key) && key(x) < key(s[0])
    requires Descending(t, key) && multiset(t) == multiset(s[1..]) + multiset{x}
    ensures Descending([s[0]] + t, key)
  {
    forall y | y in t ensures key(y) <= key(s[0]) {
      assert y in multiset(t);
      if y != x {
        assert y in multiset(s[1..]);
        var j :| 0 <= j < |s[1..]| && s[1..][j] == y;
        assert s[j + 1] == y;
      }
    }
    var r := [s[0]] + t;
    forall i, j | 0 <= i < j < |r| ensures key(r[j]) <= key(r[i]) {
      if i == 0 {
        assert r[j] == t[j - 1];
        assert t[j - 1] in t;
      } else {
        assert r[i] == t[i - 1] && r[j] == t[j - 1];
      }
    }
  }

  /** Order by `key`, largest first (the database's `-1` sort). */
  function SortDesc<T>(s: seq<T>, key: T -> int): (r: seq<T>)
    ensures Descending(r, key)
    ensures multiset(r) == multiset(s)
    ensures |r| == |s|
  {
    if |s| == 0 then []
    else
      assert s == [s[0]] + s[1..];
      Insert(s[0], SortDesc(s[1..], key), key)
  }

  /** Order by `key`, smallest first (the database's `1` sort). */
  function SortAsc<T>(s: seq<T>, key: T -> int): (r: seq<T>)
    ensures Ascending(r, key)
    ensures multiset(r) == multiset(s)
    ensures |r| == |s|
  {
    var r := SortDesc(s, x => -key(x));
    assert forall i, j :: 0 <= i < j < |r| ==> -key(r[j]) <= -key(r[i]);
    r
  }

  /** At most the first `n` elements. */
  function Limit<T>(s: seq<T>, n: nat): (r: seq<T>)
    ensures |r| <= n && (|s| <= n ==> r == s) && (n <= |s| ==> |r| == n)
    ensures forall i :: 0 <= i < |r| ==> r[i] == s[i]
  {
    if |s| <= n then s else s[..n]
  }

  /** A cut of an ordered list is ordered. */
  lemma LimitKeepsOrder<T>(s: seq<T>, n: nat, key: T -> int)
    requires Descending(s, key)
    ensures Descending(Limit(s, n), key)
  {
  }

  /** A cut of an ordered list keeps the largest keys: whatever the cut
      leaves behind has a key no larger than any element it keeps. */
  lemma LimitKeepsTop<T>(s: seq<T>, n: nat, key: T -> int)
    requires Descending(s, key)
    ensures forall x, i :: x in multiset(s) - multiset(Limit(s, n)) && 0 <= i < |Limit(s, n)| ==>
              key(x) <= key(Limit(s, n)[i])
  {
    var r := Limit(s, n);
    if n < |s| {
      assert s == r + s[n..];
      assert multiset(s) == multiset(r) + multiset(s[n..]);
      forall x, i | x in multiset(s) - multiset(r) && 0 <= i < |r| ensures key(x) <= key(r[i]) {
        assert x in multiset(s[n..]);
        var j :| 0 <= j < |s[n..]| && s[n..][j] == x;
        assert s[n + j] == x && r[i] == s[i];
      }
    }
  }

  /** The elements of `s` that satisfy `p`, in their order. */
  function Filter<T(!new)>(s: seq<T>, p: T -> bool): (r: seq<T>)
    ensures forall x :: multiset(r)[x] == (if p(x) then multiset(s)[x] else 0)
    ensures forall i :: 0 <= i < |r| ==> p(r[i])
    ensures |r| <= |s|
  {
    if |s| == 0 then []
    else
      assert s == [s[0]] + s[1..];
      (if p(s[0]) then [s[0]] else []) + Filter(s[1..], p)
  }

  /** Filtering then ordering keeps exactly the chosen elements: each one
      as often as the collection holds it. */
  lemma {:induction false} ChosenAreKept<T(!new)>(s: seq<T>, p: T -> bool, key: T -> int, x: T)
    ensures x in SortDesc(Filter(s, p), key) <==> x in s && p(x)
  {
    var f := Filter(s, p);
    assert x in SortDesc(f, key) <==> x in multiset(SortDesc(f, key));
    assert x in f <==> x in multiset(f);
    assert x in s <==> x in multiset(s);
  }

  /** Filtering an extended list filters the extension on its own. */
  lemma {:induction false} FilterAppend<T(!new)>(s: seq<T>, x: T, p: T -> bool)
    ensures Filter(s + [x], p) == Filter(s, p) + (if p(x) then [x] else [])
    decreases |s|
  {
    var tail := if p(x) then [x] else [];
    if |s| == 0 {
      assert s + [x] == [x];
      assert [x][1..] == [];
    } else {
      var head := if p(s[0]) then [s[0]] else [];
      var t := s + [x];
      assert t[1..] == s[1..] + [x];
      assert t[0] == s[0];
      assert Filter(t, p) == head + Filter(s[1..] + [x], p);
      FilterAppend(s[1..], x, p);
      assert Filter(s, p) == head + Filter(s[1..], p);
      Associative(head, Filter(s[1..], p), tail);
    }
  }

  lemma Associative<T>(a: seq<T>, b: seq<T>, c: seq<T>)
    ensures a + (b + c) == (a + b) + c
  {
  }

  /** Replacing one element changes the number chosen by what it takes
      away and what it brings. */
  lemma {:induction false} FilterCountReplace<T(!new)>(s: seq<T>, i: int, x: T, p: T -> bool)
    requires 0 <= i < |s|
    ensures |Filter(s[i := x], p)| == |Filter(s, p)| - (if p(s[i]) then 1 else 0) + (if p(x) then 1 else 0)
    decreases |s|
  {
    var t := s[i := x];
    FilterLength(s, p);
    FilterLength(t, p);
    if i > 0 {
      assert t[1..] == s[1..][i - 1 := x];
      FilterCountReplace(s[1..], i - 1, x, p);
    } else {
      assert t[1..] == s[1..];
    }
  }

  /** The first element counts on its own; the rest is filtered alone. */
  lemma FilterLength<T(!new)>(s: seq<T>, p: T -> bool)
    requires |s| > 0
    ensures |Filter(s, p)| == (if p(s[0]) then 1 else 0) + |Filter(s[1..], p)|
  {
  }

  /** An element is among the chosen exactly when the list holds it and it
      satisfies the predicate. */
  lemma FilterMembers<T(!new)>(s: seq<T>, p: T -> bool, x: T)
    ensures x in Filter(s, p) <==> x in s && p(x)
  {
    assert x in Filter(s, p) <==> x in multiset(Filter(s, p));
    assert x in s <==> x in multiset(s);
  }

  /** Reordering keeps the same elements. */
  lemma PermutationMembers<T>(a: seq<T>, b: seq<T>, x: T)
    requires multiset(a) == multiset(b)
    ensures x in a <==> x in b
  {
    assert x in a <==> x in multiset(a);
    assert x in b <==> x in multiset(b);
  }

  /** Nothing is chosen when nothing satisfies the predicate. */
  lemma {:induction false} FilterNothing<T(!new)>(s: seq<T>, p: T -> bool)
    requires forall i :: 0 <= i < |s| ==> !p(s[i])
    ensures Filter(s, p) == []
    decreases |s|
  {
    if |s| > 0 {
      FilterNothing(s[1..], p);
    }
  }
}
