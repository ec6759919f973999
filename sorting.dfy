/**
 * Python's `sorted(..., key=...)` on the two-part keys MobiiElite sorts by: the keys are computed
 * once per element, compared as tuples, and the sort is stable.
 */
module Sorting {
  /**
   * A key component Python can order: a number (booleans count as 0 and 1), a string, a duration
   * or a timestamp, the last two in milliseconds.
   */
  datatype Ord = ONum(n: int) | OStr(s: string) | ODur(ms: int) | OTime(ms: int)

  function Rank(o: Ord): nat {
    match o
    case ONum(_) => 0
    case OStr(_) => 1
    case ODur(_) => 2
    case OTime(_) => 3
  }

  /** `a <= b` on strings: code point by code point, a proper prefix first. */
  predicate StrLe(a: string, b: string)
    decreases |a|
  {
    a == [] || (b != [] && (a[0] < b[0] || (a[0] == b[0] && StrLe(a[1..], b[1..]))))
  }

  /** Components of the same kind compare by value; kinds never meet in a sort the model lets run. */
  predicate OrdLe(a: Ord, b: Ord) {
    match (a, b)
    case (ONum(x), ONum(y)) => x <= y
    case (OStr(x), OStr(y)) => StrLe(x, y)
    case (ODur(x), ODur(y)) => x <= y
    case (OTime(x), OTime(y)) => x <= y
    case _ => Rank(a) < Rank(b)
  }

  type Key = (Ord, Ord)

  /** Tuple comparison: the first components decide unless they are equal. */
  predicate KeyLe(a: Key, b: Key) {
    if a.0 == b.0 then OrdLe(a.1, b.1) else OrdLe(a.0, b.0)
  }

  predicate KeyLt(a: Key, b: Key) {
    KeyLe(a, b) && a != b
  }

  // ---------------------------------------------------------------------------------------
  // The order is total

  lemma {:induction false} StrLeTotal(a: string, b: string)
    ensures StrLe(a, b) || StrLe(b, a)
    decreases |a|
  {
    if a != [] && b != [] && a[0] == b[0] {
      StrLeTotal(a[1..], b[1..]);
    }
  }

  lemma {:induction false} StrLeAntisymmetric(a: string, b: string)
    requires StrLe(a, b) && StrLe(b, a)
    ensures a == b
    decreases |a|
  {
    if a != [] {
      StrLeAntisymmetric(a[1..], b[1..]);
      assert a == [a[0]] + a[1..] && b == [b[0]] + b[1..];
    }
  }

  lemma {:induction false} StrLeTransitive(a: string, b: string, c: string)
    requires StrLe(a, b) && StrLe(b, c)
    ensures StrLe(a, c)
    decreases |a|
  {
    if a != [] && b != [] && c != [] && a[0] == b[0] && b[0] == c[0] {
      StrLeTransitive(a[1..], b[1..], c[1..]);
    }
  }

  lemma StrLeReflexive(a: string)
    ensures StrLe(a, a)
  {
  }

  lemma OrdLeTotal(a: Ord, b: Ord)
    ensures OrdLe(a, b) || OrdLe(b, a)
  {
    if a.OStr? && b.OStr? {
      StrLeTotal(a.s, b.s);
    }
  }

  lemma OrdLeAntisymmetric(a: Ord, b: Ord)
    requires OrdLe(a, b) && OrdLe(b, a)
    ensures a == b
  {
    if a.OStr? && b.OStr? {
      StrLeAntisymmetric(a.s, b.s);
    }
  }

  lemma OrdLeTransitive(a: Ord, b: Ord, c: Ord)
    requires OrdLe(a, b) && OrdLe(b, c)
    ensures OrdLe(a, c)
  {
    if a.OStr? && b.OStr? && c.OStr? {
      StrLeTransitive(a.s, b.s, c.s);
    }
  }

  lemma OrdLeReflexive(a: Ord)
    ensures OrdLe(a, a)
  {
    if a.OStr? {
      StrLeReflexive(a.s);
    }
  }

  lemma KeyLeTotal(a: Key, b: Key)
    ensures KeyLe(a, b) || KeyLe(b, a)
  {
    OrdLeTotal(a.0, b.0);
    OrdLeTotal(a.1, b.1);
  }

  lemma KeyLeAntisymmetric(a: Key, b: Key)
    requires KeyLe(a, b) && KeyLe(b, a)
    ensures a == b
  {
    if a.0 == b.0 {
      OrdLeAntisymmetric(a.1, b.1);
    } else {
      OrdLeAntisymmetric(a.0, b.0);
    }
  }

  lemma KeyLeTransitive(a: Key, b: Key, c: Key)
    requires KeyLe(a, b) && KeyLe(b, c)
    ensures KeyLe(a, c)
  {
    if a.0 == b.0 && b.0 == c.0 {
      OrdLeTransitive(a.1, b.1, c.1);
    } else if a.0 == b.0 {
      assert OrdLe(b.0, c.0);
    } else if b.0 == c.0 {
      assert OrdLe(a.0, b.0);
    } else {
      OrdLeTransitive(a.0, b.0, c.0);
      if a.0 == c.0 {
        OrdLeAntisymmetric(a.0, b.0);
      }
    }
  }

  lemma KeyLeReflexive(a: Key)
    ensures KeyLe(a, a)
  {
    OrdLeReflexive(a.1);
  }

  // ---------------------------------------------------------------------------------------
  // A stable sort

  predicate Sorted<T>(s: seq<(Key, T)>) {
    forall i, j :: 0 <= i < j < |s| ==> KeyLe(s[i].0, s[j].0)
  }

  /** `x` placed before the first element with a greater key, so after every element with its own key. */
  function Insert<T(==)>(x: (Key, T), s: seq<(Key, T)>): (r: seq<(Key, T)>)
    ensures multiset(r) == multiset(s) + multiset{x}
  {
    if s == [] then [x]
    else if KeyLt(x.0, s[0].0) then [x] + s
    else
      assert s == [s[0]] + s[1..];
      [s[0]] + Insert(x, s[1..])
  }

  /** `sorted(s, key=...)` on elements that carry their keys. */
  function Sort<T(==)>(s: seq<(Key, T)>): (r: seq<(Key, T)>)
    ensures multiset(r) == multiset(s)
  {
    if s == [] then []
    else
      assert s == s[..|s| - 1] + [s[|s| - 1]];
      Insert(s[|s| - 1], Sort(s[..|s| - 1]))
  }

  /** The elements with key `k`, in order. */
  function Select<T>(s: seq<(Key, T)>, k: Key): seq<(Key, T)> {
    if s == [] then [] else (if s[0].0 == k then [s[0]] else []) + Select(s[1..], k)
  }

  lemma {:induction false} InsertSorted<T>(x: (Key, T), s: seq<(Key, T)>)
    requires Sorted(s)
    ensures Sorted(Insert(x, s))
  {
    if s == [] {
    } else if KeyLt(x.0, s[0].0) {
      assert Insert(x, s) == [x] + s;
      SortedFront(x, s);
    } else {
      var t := s[1..];
      SortedTail(s);
      InsertSorted(x, t);
      KeyLeTotal(x.0, s[0].0);
      if x.0 == s[0].0 { KeyLeReflexive(x.0); }
      var it := Insert(x, t);
      forall y | y in it ensures KeyLe(s[0].0, y.0) {
        InsertMembers(x, t, y);
        if y != x {
          var j :| 0 <= j < |t| && t[j] == y;
          assert s[j + 1] == y;
        }
      }
      assert Insert(x, s) == [s[0]] + it;
      SortedCons(s[0], it);
    }
  }

  /** An element below the first of a sorted list keeps it sorted in front. */
  lemma SortedFront<T>(x: (Key, T), s: seq<(Key, T)>)
    requires s != [] && Sorted(s) && KeyLt(x.0, s[0].0)
    ensures Sorted([x] + s)
  {
    var r := [x] + s;
    forall i, j | 0 <= i < j < |r| ensures KeyLe(r[i].0, r[j].0) {
      if i == 0 && j > 1 {
        KeyLeTransitive(x.0, s[0].0, s[j - 1].0);
      }
    }
  }

  /** An element at or below every element of a sorted list keeps it sorted in front. */
  lemma SortedCons<T>(x: (Key, T), s: seq<(Key, T)>)
    requires Sorted(s) && forall y | y in s :: KeyLe(x.0, y.0)
    ensures Sorted([x] + s)
  {
    var r := [x] + s;
    forall i, j | 0 <= i < j < |r| ensures KeyLe(r[i].0, r[j].0) {
      if i == 0 {
        assert r[j] == s[j - 1];
        assert r[j] in s;
      } else {
        assert r[i] == s[i - 1] && r[j] == s[j - 1];
      }
    }
  }

  lemma {:induction false} InsertMembers<T>(x: (Key, T), s: seq<(Key, T)>, y: (Key, T))
    requires y in Insert(x, s)
    ensures y == x || y in s
  {
    if s != [] && !KeyLt(x.0, s[0].0) && y != s[0] {
      assert y in Insert(x, s[1..]);
      InsertMembers(x, s[1..], y);
    }
  }

  lemma {:induction false} SortSorted<T>(s: seq<(Key, T)>)
    ensures Sorted(Sort(s))
  {
    if s != [] {
      SortSorted(s[..|s| - 1]);
      InsertSorted(s[|s| - 1], Sort(s[..|s| - 1]));
    }
  }

  lemma {:induction false} SelectAppend<T>(a: seq<(Key, T)>, b: seq<(Key, T)>, k: Key)
    ensures Select(a + b, k) == Select(a, k) + Select(b, k)
  {
    if a == [] {
      assert a + b == b;
    } else {
      assert (a + b)[1..] == a[1..] + b;
      SelectAppend(a[1..], b, k);
    }
  }

  lemma {:induction false} SelectNone<T>(s: seq<(Key, T)>, k: Key)
    requires forall i :: 0 <= i < |s| ==> s[i].0 != k
    ensures Select(s, k) == []
  {
    if s != [] {
      SelectNone(s[1..], k);
    }
  }

  lemma SortedTail<T>(s: seq<(Key, T)>)
    requires s != [] && Sorted(s)
    ensures Sorted(s[1..])
  {
    var t := s[1..];
    forall i, j | 0 <= i < j < |t|
      ensures KeyLe(t[i].0, t[j].0)
    {
      assert t[i] == s[i + 1] && t[j] == s[j + 1];
    }
  }

  /** No element of a sorted sequence has the key of an element placed strictly before all of them. */
  lemma SelectAfterLess<T>(x: (Key, T), s: seq<(Key, T)>)
    requires s != [] && Sorted(s) && KeyLt(x.0, s[0].0)
    ensures Select(s, x.0) == []
  {
    forall i | 0 <= i < |s| ensures s[i].0 != x.0 {
      if i > 0 {
        KeyLeTransitive(x.0, s[0].0, s[i].0);
      }
      if s[i].0 == x.0 {
        KeyLeAntisymmetric(x.0, s[0].0);
      }
    }
    SelectNone(s, x.0);
  }

  /** An element inserted in front keeps the selection of the rest. */
  lemma SelectInFront<T>(x: (Key, T), s: seq<(Key, T)>, k: Key)
    ensures Select([x] + s, k) == (if x.0 == k then [x] else []) + Select(s, k)
  {
    assert ([x] + s)[1..] == s;
  }

  lemma {:induction false} InsertSelect<T>(x: (Key, T), s: seq<(Key, T)>, k: Key)
    requires Sorted(s)
    ensures Select(Insert(x, s), k) == Select(s, k) + (if x.0 == k then [x] else [])
  {
    if s == [] {
      assert Insert(x, s) == [x] + s;
      SelectInFront(x, s, k);
    } else if KeyLt(x.0, s[0].0) {
      assert Insert(x, s) == [x] + s;
      SelectInFront(x, s, k);
      if x.0 == k {
        SelectAfterLess(x, s);
      }
    } else {
      var t := s[1..];
      SortedTail(s);
      InsertSelect(x, t, k);
      assert s == [s[0]] + t;
      assert Insert(x, s) == [s[0]] + Insert(x, t);
      var head: seq<(Key, T)> := if s[0].0 == k then [s[0]] else [];
      var own: seq<(Key, T)> := if x.0 == k then [x] else [];
      var rest := Select(t, k);
      assert Select(Insert(x, s), k) == head + (rest + own) by {
        SelectInFront(s[0], Insert(x, t), k);
      }
      assert Select(s, k) == head + rest by {
        SelectInFront(s[0], t, k);
      }
      ConcatAssociates(head, rest, own);
    }
  }

  lemma ConcatAssociates<U>(a: seq<U>, b: seq<U>, c: seq<U>)
    ensures a + (b + c) == (a + b) + c
  {
  }

  /** Stability: the elements of any one key keep their input order. */
  lemma {:induction false} SortStable<T>(s: seq<(Key, T)>, k: Key)
    ensures Select(Sort(s), k) == Select(s, k)
  {
    if s != [] {
      var init, last := s[..|s| - 1], s[|s| - 1];
      SortStable(init, k);
      SortSorted(init);
      InsertSelect(last, Sort(init), k);
      assert Sort(s) == Insert(last, Sort(init));
      SelectLast(s, k);
    }
  }

  lemma SelectLast<T>(s: seq<(Key, T)>, k: Key)
    requires s != []
    ensures Select(s, k) == Select(s[..|s| - 1], k) + (if s[|s| - 1].0 == k then [s[|s| - 1]] else [])
  {
    var init, last := s[..|s| - 1], s[|s| - 1];
    assert s == init + [last];
    SelectAppend(init, [last], k);
    assert Select([last], k) == (if last.0 == k then [last] else []) + Select([], k);
  }

  /** The elements, keys dropped. */
  function Values<T>(s: seq<(Key, T)>): (r: seq<T>)
    ensures |r| == |s| && forall i :: 0 <= i < |s| ==> r[i] == s[i].1
  {
    seq(|s|, i requires 0 <= i < |s| => s[i].1)
  }

  lemma ValuesAppend<T>(a: seq<(Key, T)>, b: seq<(Key, T)>)
    ensures Values(a + b) == Values(a) + Values(b)
  {
  }

  lemma {:induction false} InsertValues<T>(x: (Key, T), s: seq<(Key, T)>)
    ensures multiset(Values(Insert(x, s))) == multiset(Values(s)) + multiset{x.1}
  {
    if s == [] {
      assert Values([x]) == [x.1];
    } else if KeyLt(x.0, s[0].0) {
      ValuesAppend([x], s);
      assert Values([x]) == [x.1];
    } else {
      InsertValues(x, s[1..]);
      assert s == [s[0]] + s[1..];
      ValuesAppend([s[0]], s[1..]);
      ValuesAppend([s[0]], Insert(x, s[1..]));
    }
  }

  /** Sorting permutes the values as well as the elements. */
  lemma {:induction false} SortValues<T>(s: seq<(Key, T)>)
    ensures multiset(Values(Sort(s))) == multiset(Values(s))
  {
    if s != [] {
      var init, last := s[..|s| - 1], s[|s| - 1];
      var m := multiset(Values(init)) + multiset{last.1};
      assert multiset(Values(Sort(s))) == m by {
        assert Sort(s) == Insert(last, Sort(init));
        SortValues(init);
        InsertValues(last, Sort(init));
      }
      assert multiset(Values(s)) == m by {
        assert s == init + [last];
        ValuesAppend(init, [last]);
        assert Values([last]) == [last.1];
      }
    }
  }
}
