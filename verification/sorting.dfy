/** Stable sorting by a total preorder, the behaviour of Python's `list.sort`
    (with or without `reverse=True`) and of the database's `ORDER BY` as the
    model fixes it. */
module Sorting {

  /** `before(a, b)`: `a` may be placed ahead of `b`. Any two elements are
      comparable and the relation is transitive. */
  ghost predicate TotalPreorder<T(!new)>(before: (T, T) -> bool) {
    && (forall a, b :: before(a, b) || before(b, a))
    && (forall a, b, c :: before(a, b) && before(b, c) ==> before(a, c))
  }

  predicate SortedBy<T>(s: seq<T>, before: (T, T) -> bool) {
    forall i, j | 0 <= i < j < |s| :: before(s[i], s[j])
  }

  /** `a` and `b` rank equally. */
  predicate Tied<T>(a: T, b: T, before: (T, T) -> bool) {
    before(a, b) && before(b, a)
  }

  /** The elements of `s` that rank equally with `z`, in their order in `s`. */
  function TiesWith<T>(s: seq<T>, z: T, before: (T, T) -> bool): seq<T> {
    if |s| == 0 then []
    else (if Tied(s[0], z, before) then [s[0]] else []) + TiesWith(s[1..], z, before)
  }

  /** Puts `x` ahead of the first element it may precede, hence ahead of every
      element it ties with. */
  function Insert<T(!new)>(x: T, s: seq<T>, before: (T, T) -> bool): (r: seq<T>)
    ensures |r| == |s| + 1
    ensures multiset(r) == multiset(s) + multiset{x}
  {
    if |s| == 0 then [x]
    else if before(x, s[0]) then
      [x] + s
    else
      assert s == [s[0]] + s[1..];
      [s[0]] + Insert(x, s[1..], before)
  }

  /** Inserting into a sorted sequence keeps it sorted. */
  lemma {:induction false} InsertSorted<T(!new)>(x: T, s: seq<T>, before: (T, T) -> bool)
    requires TotalPreorder(before) && SortedBy(s, before)
    ensures SortedBy(Insert(x, s, before), before)
  {
    var r := Insert(x, s, before);
    if |s| == 0 {
    } else if before(x, s[0]) {
      forall i, j | 0 <= i < j < |r| ensures before(r[i], r[j]) {
        if i == 0 {
          if j > 1 {
            assert r[j] == s[j - 1] && before(s[0], s[j - 1]);
          }
        } else {
          assert r[i] == s[i - 1] && r[j] == s[j - 1];
        }
      }
    } else {
      var rest := Insert(x, s[1..], before);
      InsertSorted(x, s[1..], before);
      assert before(s[0], x);
      forall j | 1 <= j < |r| ensures before(s[0], r[j]) {
        assert r[j] == rest[j - 1];
        assert r[j] in multiset(rest);
        if r[j] != x {
          assert r[j] in multiset(s[1..]);
          var k :| 0 <= k < |s[1..]| && s[1..][k] == r[j];
          assert s[k + 1] == r[j];
        }
      }
      forall i, j | 0 <= i < j < |r| ensures before(r[i], r[j]) {
        if i > 0 {
          assert r[i] == rest[i - 1] && r[j] == rest[j - 1];
        }
      }
    }
  }

  /** Insertion sort: a sorted permutation of `s`. */
  function SortBy<T(!new)>(s: seq<T>, before: (T, T) -> bool): (r: seq<T>)
    ensures |r| == |s|
    ensures multiset(r) == multiset(s)
  {
    if |s| == 0 then []
    else
      assert s == [s[0]] + s[1..];
      Insert(s[0], SortBy(s[1..], before), before)
  }

  /** The insertion sort yields a sorted sequence. */
  lemma {:induction false} SortIsSorted<T(!new)>(s: seq<T>, before: (T, T) -> bool)
    requires TotalPreorder(before)
    ensures SortedBy(SortBy(s, before), before)
  {
    if |s| > 0 {
      SortIsSorted(s[1..], before);
      InsertSorted(s[0], SortBy(s[1..], before), before);
    }
  }

  /** Inserting `x` puts it ahead of everything it ties with. */
  lemma {:induction false} InsertStable<T(!new)>(x: T, s: seq<T>, z: T, before: (T, T) -> bool)
    requires TotalPreorder(before)
    ensures TiesWith(Insert(x, s, before), z, before)
         == (if Tied(x, z, before) then [x] else []) + TiesWith(s, z, before)
  {
    if |s| == 0 {
      assert Insert(x, s, before) == [x];
    } else if before(x, s[0]) {
      assert Insert(x, s, before) == [x] + s;
      assert ([x] + s)[1..] == s;
    } else {
      InsertStable(x, s[1..], z, before);
      assert Tied(x, z, before) ==> !Tied(s[0], z, before);
      InsertStablePast(x, s, z, before);
    }
  }

  /** The step of `InsertStable` where `x` moves past the head, which cannot
      tie with `z` when `x` does. */
  lemma InsertStablePast<T(!new)>(x: T, s: seq<T>, z: T, before: (T, T) -> bool)
    requires |s| > 0 && !before(x, s[0])
    requires Tied(x, z, before) ==> !Tied(s[0], z, before)
    requires TiesWith(Insert(x, s[1..], before), z, before)
          == (if Tied(x, z, before) then [x] else []) + TiesWith(s[1..], z, before)
    ensures TiesWith(Insert(x, s, before), z, before)
         == (if Tied(x, z, before) then [x] else []) + TiesWith(s, z, before)
  {
    var rest := Insert(x, s[1..], before);
    var tx := if Tied(x, z, before) then [x] else [];
    var t0 := if Tied(s[0], z, before) then [s[0]] else [];
    var tail := TiesWith(s[1..], z, before);
    assert Insert(x, s, before) == [s[0]] + rest;
    assert ([s[0]] + rest)[1..] == rest;
    assert TiesWith([s[0]] + rest, z, before) == t0 + (tx + tail);
    assert TiesWith(s, z, before) == t0 + tail;
    SwapAroundEmpty(t0, tx, tail);
  }

  /** Two prefixes, one of them empty, commute. */
  lemma SwapAroundEmpty<T>(a: seq<T>, b: seq<T>, c: seq<T>)
    requires a == [] || b == []
    ensures a + (b + c) == b + (a + c)
  {
    if a == [] {
      assert a + (b + c) == b + c && a + c == c;
    } else {
      assert b + c == c && b + (a + c) == a + c;
    }
  }

  /** The sort is stable: elements that rank equally keep their relative order. */
  lemma {:induction false} SortIsStable<T(!new)>(s: seq<T>, z: T, before: (T, T) -> bool)
    requires TotalPreorder(before)
    ensures TiesWith(SortBy(s, before), z, before) == TiesWith(s, z, before)
  {
    if |s| > 0 {
      SortIsStable(s[1..], z, before);
      InsertStable(s[0], SortBy(s[1..], before), z, before);
    }
  }

  /** The sum of an integer measure over a sequence. */
  function SumBy<T>(s: seq<T>, f: T -> int): int {
    if |s| == 0 then 0 else f(s[0]) + SumBy(s[1..], f)
  }

  lemma {:induction false} InsertKeepsSum<T(!new)>(x: T, s: seq<T>, before: (T, T) -> bool, f: T -> int)
    ensures SumBy(Insert(x, s, before), f) == f(x) + SumBy(s, f)
  {
    if |s| > 0 && !before(x, s[0]) {
      InsertKeepsSum(x, s[1..], before, f);
      assert ([s[0]] + Insert(x, s[1..], before))[1..] == Insert(x, s[1..], before);
    } else if |s| > 0 {
      assert ([x] + s)[1..] == s;
    }
  }

  /** Sorting does not change a sum. */
  lemma {:induction false} SortKeepsSum<T(!new)>(s: seq<T>, before: (T, T) -> bool, f: T -> int)
    ensures SumBy(SortBy(s, before), f) == SumBy(s, f)
  {
    if |s| > 0 {
      SortKeepsSum(s[1..], before, f);
      InsertKeepsSum(s[0], SortBy(s[1..], before), before, f);
    }
  }
}
