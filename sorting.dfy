/**
 * Python's `sorted`: a stable sort. Insertion sort places every element
 * after all earlier elements that do not sort strictly after it, so it
 * computes the same list as Python's stable merge sort.
 */
module Sorting {
  import opened PyStr

  /** `le` is total and transitive: the "not strictly after" relation of a sort key. */
  ghost predicate TotalPreorder<T(!new)>(le: (T, T) -> bool) {
    && (forall a, b :: le(a, b) || le(b, a))
    && (forall a, b, c :: le(a, b) && le(b, c) ==> le(a, c))
  }

  predicate SortedBy<T>(s: seq<T>, le: (T, T) -> bool) {
    forall i, j :: 0 <= i < j < |s| ==> le(s[i], s[j])
  }

  /** Inserts `x` after the leading run of elements that sort no later than `x`. */
  function Insert<T(!new)>(x: T, s: seq<T>, le: (T, T) -> bool): (r: seq<T>)
    requires TotalPreorder(le) && SortedBy(s, le)
    ensures SortedBy(r, le)
    ensures multiset(r) == multiset(s) + multiset{x}
  {
    if s == [] then [x]
    else if le(s[0], x) then
      var tail := Insert(x, s[1..], le);
      assert s == [s[0]] + s[1..];
      assert forall j :: 0 <= j < |tail| ==> le(s[0], tail[j]) by {
        forall j | 0 <= j < |tail| ensures le(s[0], tail[j]) {
          assert tail[j] in multiset(tail);
          assert tail[j] == x || tail[j] in multiset(s[1..]);
          if tail[j] != x {
            var k :| 0 <= k < |s[1..]| && s[1..][k] == tail[j];
            assert s[k + 1] == tail[j];
          }
        }
      }
      [s[0]] + tail
    else
      assert forall j :: 0 <= j < |s| ==> le(x, s[j]) by {
        forall j | 0 <= j < |s| ensures le(x, s[j]) {
          assert le(x, s[0]);
          if j > 0 { assert le(s[0], s[j]); }
        }
      }
      [x] + s
  }

  /** `a` and `b` sort equal: neither sorts strictly after the other. */
  predicate Tied<T>(le: (T, T) -> bool, a: T, b: T) {
    le(a, b) && le(b, a)
  }

  /** The elements of `s` that sort equal to `x`, in their order in `s`. */
  function TiesOf<T>(s: seq<T>, le: (T, T) -> bool, x: T): seq<T> {
    if s == [] then [] else (if Tied(le, s[0], x) then [s[0]] else []) + TiesOf(s[1..], le, x)
  }

  lemma {:induction false} TiesOfConcat<T>(a: seq<T>, b: seq<T>, le: (T, T) -> bool, x: T)
    ensures TiesOf(a + b, le, x) == TiesOf(a, le, x) + TiesOf(b, le, x)
    decreases |a|
  {
    if a == [] {
      assert a + b == b;
    } else {
      var h := if Tied(le, a[0], x) then [a[0]] else [];
      var ab := a + b;
      assert ab[0] == a[0] && ab[1..] == a[1..] + b;
      assert TiesOf(ab, le, x) == h + TiesOf(a[1..] + b, le, x);
      TiesOfConcat(a[1..], b, le, x);
      calc {
        TiesOf(ab, le, x);
        h + (TiesOf(a[1..], le, x) + TiesOf(b, le, x));
        (h + TiesOf(a[1..], le, x)) + TiesOf(b, le, x);
        TiesOf(a, le, x) + TiesOf(b, le, x);
      }
    }
  }

  lemma TiesOfSingle<T>(y: T, le: (T, T) -> bool, x: T)
    ensures TiesOf([y], le, x) == if Tied(le, y, x) then [y] else []
  {
    assert [y][1..] == [];
  }

  lemma {:induction false} TiesOfNone<T>(s: seq<T>, le: (T, T) -> bool, x: T)
    requires forall j :: 0 <= j < |s| ==> !Tied(le, s[j], x)
    ensures TiesOf(s, le, x) == []
    decreases |s|
  {
    if s != [] {
      TiesOfNone(s[1..], le, x);
    }
  }

  /** `x0` lands after every element of `s` that sorts equal to it. */
  lemma {:induction false} InsertStable<T(!new)>(x0: T, s: seq<T>, le: (T, T) -> bool, x: T)
    requires TotalPreorder(le) && SortedBy(s, le)
    ensures TiesOf(Insert(x0, s, le), le, x) == TiesOf(s, le, x) + TiesOf([x0], le, x)
    decreases |s|, 1
  {
    if s == [] {
    } else if le(s[0], x0) {
      InsertStableAfter(x0, s, le, x);
    } else {
      InsertStableFront(x0, s, le, x);
    }
  }

  lemma {:induction false} InsertStableAfter<T(!new)>(x0: T, s: seq<T>, le: (T, T) -> bool, x: T)
    requires TotalPreorder(le) && SortedBy(s, le)
    requires s != [] && le(s[0], x0)
    ensures TiesOf(Insert(x0, s, le), le, x) == TiesOf(s, le, x) + TiesOf([x0], le, x)
    decreases |s|, 0
  {
    var tail := Insert(x0, s[1..], le);
    var head, rest, last := TiesOf([s[0]], le, x), TiesOf(s[1..], le, x), TiesOf([x0], le, x);
    calc {
      TiesOf(Insert(x0, s, le), le, x);
      { assert Insert(x0, s, le) == [s[0]] + tail; }
      TiesOf([s[0]] + tail, le, x);
      { TiesOfConcat([s[0]], tail, le, x); }
      head + TiesOf(tail, le, x);
      { InsertStable(x0, s[1..], le, x); }
      head + (rest + last);
      (head + rest) + last;
      { TiesOfConcat([s[0]], s[1..], le, x); assert [s[0]] + s[1..] == s; }
      TiesOf(s, le, x) + last;
    }
  }

  lemma InsertStableFront<T(!new)>(x0: T, s: seq<T>, le: (T, T) -> bool, x: T)
    requires TotalPreorder(le) && SortedBy(s, le)
    requires s != [] && !le(s[0], x0)
    ensures TiesOf(Insert(x0, s, le), le, x) == TiesOf(s, le, x) + TiesOf([x0], le, x)
  {
    var r := Insert(x0, s, le);
    assert r == [x0] + s;
    TiesOfConcat([x0], s, le, x);
    TiesOfSingle(x0, le, x);
    if Tied(le, x0, x) {
      InsertBefore(x0, s, le, x);
    }
  }

  /** When `x0` sorts strictly before all of `s`, nothing in `s` ties with an element tied to `x0`. */
  lemma InsertBefore<T(!new)>(x0: T, s: seq<T>, le: (T, T) -> bool, x: T)
    requires TotalPreorder(le) && SortedBy(s, le)
    requires s != [] && !le(s[0], x0) && Tied(le, x0, x)
    ensures TiesOf(s, le, x) == []
  {
    forall j | 0 <= j < |s| ensures !Tied(le, s[j], x) {
      if j > 0 { assert le(s[0], s[j]); }
    }
    TiesOfNone(s, le, x);
  }

  lemma StableStep<T(!new)>(last: T, init: seq<T>, sortedInit: seq<T>, le: (T, T) -> bool)
    requires TotalPreorder(le) && SortedBy(sortedInit, le)
    requires forall x :: TiesOf(sortedInit, le, x) == TiesOf(init, le, x)
    ensures forall x :: TiesOf(Insert(last, sortedInit, le), le, x) == TiesOf(init + [last], le, x)
  {
    forall x ensures TiesOf(Insert(last, sortedInit, le), le, x) == TiesOf(init + [last], le, x) {
      InsertStable(last, sortedInit, le, x);
      TiesOfConcat(init, [last], le, x);
    }
  }

  /**
   * `sorted(s, key=...)` where `le(a, b)` means `not key(b) < key(a)`:
   * sorted, a permutation, and stable (elements that sort equal keep their
   * order from `s`).
   */
  function SortBy<T(!new)>(s: seq<T>, le: (T, T) -> bool): (r: seq<T>)
    requires TotalPreorder(le)
    ensures SortedBy(r, le)
    ensures multiset(r) == multiset(s) && |r| == |s|
    ensures forall x :: TiesOf(r, le, x) == TiesOf(s, le, x)
  {
    if s == [] then []
    else
      var init := s[..|s| - 1];
      assert s == init + [s[|s| - 1]];
      assert multiset(s) == multiset(init) + multiset{s[|s| - 1]};
      var sortedInit := SortBy(init, le);
      StableStep(s[|s| - 1], init, sortedInit, le);
      Insert(s[|s| - 1], sortedInit, le)
  }

  // ---------------------------------------------------------------------
  // Sorted sets of strings: `sorted(set(xs))`
  // ---------------------------------------------------------------------

  predicate StrictlySorted(s: seq<string>) {
    forall i, j :: 0 <= i < j < |s| ==> Lt(s[i], s[j])
  }

  /** Inserts `x` into a strictly ascending list unless it is already there. */
  function InsertUnique(x: string, s: seq<string>): (r: seq<string>)
    requires StrictlySorted(s)
    ensures StrictlySorted(r)
    ensures forall y :: y in r <==> y in s || y == x
  {
    if s == [] then [x]
    else if x == s[0] then s
    else if Lt(s[0], x) then
      var tail := InsertUnique(x, s[1..]);
      assert forall j :: 0 <= j < |tail| ==> Lt(s[0], tail[j]) by {
        forall j | 0 <= j < |tail| ensures Lt(s[0], tail[j]) {
          if tail[j] != x {
            assert tail[j] in tail;
            assert tail[j] in s[1..];
            var k :| 0 <= k < |s[1..]| && s[1..][k] == tail[j];
            assert s[k + 1] == tail[j];
          }
        }
      }
      [s[0]] + tail
    else
      assert forall j :: 0 <= j < |s| ==> Lt(x, s[j]) by {
        LtTotal(x, s[0]);
        forall j | 0 <= j < |s| ensures Lt(x, s[j]) {
          if j > 0 { LtTransitive(x, s[0], s[j]); }
        }
      }
      [x] + s
  }

  /** `sorted(set(xs))`: the distinct elements of `xs` in ascending order. */
  function SortedUnique(xs: seq<string>): (r: seq<string>)
    ensures StrictlySorted(r)
    ensures forall y :: y in r <==> y in xs
  {
    if xs == [] then []
    else
      var init := xs[..|xs| - 1];
      assert xs == init + [xs[|xs| - 1]];
      InsertUnique(xs[|xs| - 1], SortedUnique(init))
  }

  lemma NonEmptyHasElement(s: seq<string>)
    ensures s != [] <==> exists y :: y in s
  {
    if s != [] { assert s[0] in s; }
  }

  /** A strictly ascending list is determined by its elements. */
  lemma {:induction false} StrictlySortedUnique(a: seq<string>, b: seq<string>)
    requires StrictlySorted(a) && StrictlySorted(b)
    requires forall y :: y in a <==> y in b
    ensures a == b
    decreases |a|
  {
    if a != [] && b != [] {
      // a[0] and b[0] are both the least element of the common set
      assert b[0] in b && a[0] in a;
      var ia :| 0 <= ia < |a| && a[ia] == b[0];
      var ib :| 0 <= ib < |b| && b[ib] == a[0];
      if ia > 0 && ib > 0 {
        assert Lt(a[0], b[0]) && Lt(b[0], a[0]);
        LtAsymmetric(a[0], b[0]);
      }
      assert a[0] == b[0] by {
        if ia != 0 && ib == 0 { assert Lt(a[0], a[ia]); LtIrreflexive(a[0]); }
        if ib != 0 && ia == 0 { assert Lt(b[0], b[ib]); LtIrreflexive(b[0]); }
      }
      assert a == [a[0]] + a[1..] && b == [b[0]] + b[1..];
      forall y ensures y in a[1..] <==> y in b[1..] {
        if y in a[1..] {
          var k :| 0 <= k < |a[1..]| && a[1..][k] == y;
          assert a[k + 1] == y;
          assert Lt(a[0], y);
          LtIrreflexive(y);
          assert y in b;
          var kb :| 0 <= kb < |b| && b[kb] == y;
          assert kb != 0;
          assert b[1..][kb - 1] == y;
        }
        if y in b[1..] {
          var k :| 0 <= k < |b[1..]| && b[1..][k] == y;
          assert b[k + 1] == y;
          assert Lt(b[0], y);
          LtIrreflexive(y);
          assert y in a;
          var ka :| 0 <= ka < |a| && a[ka] == y;
          assert ka != 0;
          assert a[1..][ka - 1] == y;
        }
      }
      StrictlySortedUnique(a[1..], b[1..]);
    } else {
      NonEmptyHasElement(a);
      NonEmptyHasElement(b);
    }
  }
}
