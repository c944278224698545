/** Stable sorting by a comparator, and when its result does not depend on the input's order. */
module Sorting {
  // Array.prototype.sort is stable: x goes before the first element it may precede.
  function Insert<T>(le: (T, T) -> bool, x: T, ys: seq<T>): (r: seq<T>)
    ensures multiset(r) == multiset{x} + multiset(ys)
    decreases ys
  {
    if ys == [] || le(x, ys[0]) then [x] + ys
    else
      assert ys == [ys[0]] + ys[1..];
      [ys[0]] + Insert(le, x, ys[1..])
  }

  function Sort<T>(le: (T, T) -> bool, xs: seq<T>): (r: seq<T>)
    ensures multiset(r) == multiset(xs)
    decreases xs
  {
    if xs == [] then []
    else
      assert xs == [xs[0]] + xs[1..];
      Insert(le, xs[0], Sort(le, xs[1..]))
  }

  predicate NoDuplicates<T(==)>(s: seq<T>) {
    forall i, j :: 0 <= i < j < |s| ==> s[i] != s[j]
  }

  lemma {:induction false} DistinctMultiset<T>(s: seq<T>)
    requires NoDuplicates(s)
    ensures multiset(s) == multiset(set x | x in s)
  {
    if s != [] {
      var init, last := s[..|s| - 1], s[|s| - 1];
      DistinctMultiset(init);
      assert s == init + [last];
      assert (set x | x in s) == (set x | x in init) + {last};
      assert last !in init;
    }
  }

  lemma Twice<T>(s: seq<T>, i: nat, j: nat)
    requires i < j < |s| && s[i] == s[j]
    ensures multiset(s)[s[i]] >= 2
  {
    assert s == s[..i] + [s[i]] + s[i + 1..j] + [s[j]] + s[j + 1..];
  }

  lemma SetHasNoDuplicates<T>(s: seq<T>, elements: set<T>)
    requires multiset(s) == multiset(elements)
    ensures NoDuplicates(s) && forall x :: x in s <==> x in elements
  {
    forall i, j | 0 <= i < j < |s| ensures s[i] != s[j] {
      if s[i] == s[j] {
        Twice(s, i, j);
        assert false;
      }
    }
    assert forall x :: x in s <==> x in multiset(s);
  }

  lemma SortKeepsDistinct<T>(le: (T, T) -> bool, xs: seq<T>)
    requires NoDuplicates(xs)
    ensures NoDuplicates(Sort(le, xs))
  {
    DistinctMultiset(xs);
    SetHasNoDuplicates(Sort(le, xs), set x | x in xs);
  }

  /******* Sortedness *******/

  ghost predicate TotalPreorder<T(!new)>(le: (T, T) -> bool) {
    && (forall a, b :: le(a, b) || le(b, a))
    && (forall a, b, c :: le(a, b) && le(b, c) ==> le(a, c))
  }

  ghost predicate PreorderOn<T(!new)>(le: (T, T) -> bool, dom: set<T>) {
    && (forall a, b :: a in dom && b in dom ==> le(a, b) || le(b, a))
    && (forall a, b, c :: a in dom && b in dom && c in dom && le(a, b) && le(b, c) ==> le(a, c))
  }

  ghost predicate Sorted<T>(le: (T, T) -> bool, xs: seq<T>) {
    forall i, j :: 0 <= i < j < |xs| ==> le(xs[i], xs[j])
  }

  lemma {:induction false} InsertSorts<T(!new)>(le: (T, T) -> bool, x: T, ys: seq<T>, dom: set<T>)
    requires PreorderOn(le, dom) && x in dom && forall y :: y in ys ==> y in dom
    requires Sorted(le, ys)
    ensures Sorted(le, Insert(le, x, ys))
    decreases ys
  {
    if ys != [] && !le(x, ys[0]) {
      InsertSorts(le, x, ys[1..], dom);
      var r := Insert(le, x, ys[1..]);
      forall i | 0 <= i < |r| ensures le(ys[0], r[i]) {
        assert r[i] in multiset(r);
        assert r[i] == x || r[i] in ys[1..];
      }
    }
  }

  lemma {:induction false} SortSorts<T(!new)>(le: (T, T) -> bool, xs: seq<T>, dom: set<T>)
    requires PreorderOn(le, dom) && forall x :: x in xs ==> x in dom
    ensures Sorted(le, Sort(le, xs))
    decreases xs
  {
    if xs != [] {
      var rest := Sort(le, xs[1..]);
      SortSorts(le, xs[1..], dom);
      forall y | y in rest ensures y in dom {
        assert y in multiset(rest);
      }
      InsertSorts(le, xs[0], rest, dom);
    }
  }

  lemma SortTwo<T>(le: (T, T) -> bool, a: T, b: T)
    ensures Sort(le, [a, b]) == if le(a, b) then [a, b] else [b, a]
  {
    assert [a, b][1..] == [b] && [b][1..] == [];
    assert Sort(le, []) == [];
    assert Sort(le, [b]) == [b];
  }

  /******* Uniqueness and stability *******/

  lemma SameHead<T(!new)>(le: (T, T) -> bool, a: seq<T>, b: seq<T>)
    requires Sorted(le, a) && Sorted(le, b) && multiset(a) == multiset(b) && a != []
    requires forall x, y :: x in a && y in a && le(x, y) && le(y, x) ==> x == y
    ensures b != [] && a[0] == b[0]
  {
    assert a[0] in multiset(b);
    var j :| 0 <= j < |b| && b[j] == a[0];
    assert b[0] in multiset(a);
    var i :| 0 <= i < |a| && a[i] == b[0];
    assert i > 0 ==> le(a[0], a[i]);
    assert j > 0 ==> le(b[0], b[j]);
  }

  lemma MultisetTail<T>(s: seq<T>)
    requires s != []
    ensures s == [s[0]] + s[1..]
    ensures multiset(s[1..]) == multiset(s) - multiset{s[0]}
  {
  }

  // Without ties the sorted arrangement of a multiset is unique.
  lemma {:induction false} SortedIsUnique<T(!new)>(le: (T, T) -> bool, a: seq<T>, b: seq<T>)
    requires Sorted(le, a) && Sorted(le, b) && multiset(a) == multiset(b)
    requires forall x, y :: x in a && y in a && le(x, y) && le(y, x) ==> x == y
    ensures a == b
    decreases a
  {
    if a == [] {
      assert |multiset(b)| == 0;
    } else {
      SameHead(le, a, b);
      MultisetTail(a);
      MultisetTail(b);
      SortedIsUnique(le, a[1..], b[1..]);
    }
  }

  ghost predicate Before<T>(s: seq<T>, a: T, b: T) {
    exists i, j :: 0 <= i < j < |s| && s[i] == a && s[j] == b
  }

  lemma BeforeCons<T>(x: T, s: seq<T>, a: T, b: T)
    requires Before(s, a, b) || (x == a && b in s)
    ensures Before([x] + s, a, b)
  {
    var r := [x] + s;
    if Before(s, a, b) {
      var i, j :| 0 <= i < j < |s| && s[i] == a && s[j] == b;
      assert r[i + 1] == a && r[j + 1] == b;
    } else {
      var j :| 0 <= j < |s| && s[j] == b;
      assert r[0] == a && r[j + 1] == b;
    }
  }

  lemma BeforeUncons<T>(s: seq<T>, a: T, b: T)
    requires Before(s, a, b)
    ensures Before(s[1..], a, b) || (s[0] == a && b in s[1..])
  {
    var i, j :| 0 <= i < j < |s| && s[i] == a && s[j] == b;
    assert s[1..][j - 1] == b;
    if i > 0 {
      assert s[1..][i - 1] == a;
    }
  }

  lemma {:induction false} InsertKeepsBefore<T>(le: (T, T) -> bool, x: T, ys: seq<T>, a: T, b: T)
    requires Before(ys, a, b) || (x == a && b in ys && le(a, b))
    ensures Before(Insert(le, x, ys), a, b)
    decreases ys
  {
    if ys == [] || le(x, ys[0]) {
      BeforeCons(x, ys, a, b);
    } else {
      var r := Insert(le, x, ys[1..]);
      assert ys == [ys[0]] + ys[1..];
      if Before(ys, a, b) {
        BeforeUncons(ys, a, b);
      }
      if Before(ys[1..], a, b) || (x == a && b in ys[1..] && le(a, b)) {
        InsertKeepsBefore(le, x, ys[1..], a, b);
      } else {
        assert b in multiset(r);
      }
      BeforeCons(ys[0], r, a, b);
    }
  }

  // What the comparator leaves open stays in the order it came in.
  lemma {:induction false} SortIsStable<T>(le: (T, T) -> bool, xs: seq<T>, a: T, b: T)
    requires Before(xs, a, b) && le(a, b)
    ensures Before(Sort(le, xs), a, b)
    decreases xs
  {
    var rest := Sort(le, xs[1..]);
    BeforeUncons(xs, a, b);
    if Before(xs[1..], a, b) {
      SortIsStable(le, xs[1..], a, b);
    } else {
      assert b in multiset(xs[1..]) && b in multiset(rest);
    }
    InsertKeepsBefore(le, xs[0], rest, a, b);
  }

  lemma NotBothBefore<T>(s: seq<T>, a: T, b: T)
    requires NoDuplicates(s) && a != b && Before(s, a, b)
    ensures !Before(s, b, a)
  {
  }

  /******* The order of text *******/

  // By code points, which is the order of the UTF-8 bytes.
  predicate TextLess(a: string, b: string)
    decreases a
  {
    b != [] && (a == [] || a[0] < b[0] || (a[0] == b[0] && TextLess(a[1..], b[1..])))
  }

  const TEXT_ORDER: (string, string) -> bool := (a: string, b: string) => !TextLess(b, a)

  lemma {:induction false} TextOrderIsTotal(a: string, b: string)
    ensures TextLess(a, b) ==> !TextLess(b, a)
    ensures TextLess(a, b) || TextLess(b, a) || a == b
    decreases a
  {
    if a != [] && b != [] {
      TextOrderIsTotal(a[1..], b[1..]);
      assert a == [a[0]] + a[1..] && b == [b[0]] + b[1..];
    }
  }

  lemma {:induction false} TextLessTransitive(a: string, b: string, c: string)
    requires TextLess(a, b) && TextLess(b, c)
    ensures TextLess(a, c)
    decreases a
  {
    if a != [] && a[0] == b[0] && b[0] == c[0] {
      TextLessTransitive(a[1..], b[1..], c[1..]);
    }
  }

  lemma TextOrderIsPreorder()
    ensures TotalPreorder(TEXT_ORDER)
  {
    forall a, b, c | TEXT_ORDER(a, b) && TEXT_ORDER(b, c) ensures TEXT_ORDER(a, c) {
      TextOrderIsTotal(a, b);
      TextOrderIsTotal(b, c);
      if TextLess(a, b) && TextLess(b, c) {
        TextLessTransitive(a, b, c);
        TextOrderIsTotal(a, c);
      }
    }
    forall a, b ensures TEXT_ORDER(a, b) || TEXT_ORDER(b, a) {
      TextOrderIsTotal(a, b);
    }
  }
}
