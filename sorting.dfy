/**
 * JavaScript's `Array.prototype.sort(cmp)`, which the language guarantees to be
 * stable, modelled as a stable insertion sort. `before(a, b)` stands for
 * `cmp(a, b) < 0`: `a` must come strictly before `b`. The comparators the
 * source uses are all strict weak orders (compare by one or two keys).
 */
module Sorting {
  import opened Seqs

  ghost predicate StrictWeakOrder<T(!new)>(before: (T, T) -> bool) {
    && (forall a, b :: before(a, b) ==> !before(b, a))
    && (forall a, b, c :: !before(a, b) && !before(b, c) ==> !before(a, c))
  }

  /** No element is strictly before one placed earlier. */
  ghost predicate Sorted<T>(s: seq<T>, before: (T, T) -> bool) {
    forall i, j :: 0 <= i < j < |s| ==> !before(s[j], s[i])
  }

  /** Neither of `a`, `b` goes before the other: the comparator returns 0. */
  predicate Tied<T>(before: (T, T) -> bool, a: T, b: T) {
    !before(a, b) && !before(b, a)
  }

  /** The elements of `s` tied with `y`, in their order in `s`. */
  function TiesWith<T>(s: seq<T>, y: T, before: (T, T) -> bool): seq<T> {
    if s == [] then []
    else (if Tied(before, s[0], y) then [s[0]] else []) + TiesWith(s[1..], y, before)
  }

  /** Inserts `x` in front of the first element that does not go strictly before it. */
  function Insert<T>(x: T, s: seq<T>, before: (T, T) -> bool): seq<T>
  {
    if s == [] || !before(s[0], x) then [x] + s
    else [s[0]] + Insert(x, s[1..], before)
  }

  /** Inserting adds exactly `x`. */
  lemma {:induction false} InsertPermutes<T>(x: T, s: seq<T>, before: (T, T) -> bool)
    ensures multiset(Insert(x, s, before)) == multiset(s) + multiset{x}
    decreases |s|
  {
    if s != [] && before(s[0], x) {
      InsertPermutes(x, s[1..], before);
      assert s == [s[0]] + s[1..];
    }
  }

  /** `[...s].sort(cmp)` */
  function Sort<T>(s: seq<T>, before: (T, T) -> bool): (r: seq<T>)
    ensures multiset(r) == multiset(s)
    ensures |r| == |s|
  {
    if s == [] then []
    else
      assert s == [s[0]] + s[1..];
      InsertPermutes(s[0], Sort(s[1..], before), before);
      Insert(s[0], Sort(s[1..], before), before)
  }

  lemma {:induction false} InsertSorted<T(!new)>(x: T, s: seq<T>, before: (T, T) -> bool)
    requires StrictWeakOrder(before) && Sorted(s, before)
    ensures Sorted(Insert(x, s, before), before)
    decreases |s|
  {
    if s != [] && before(s[0], x) {
      var rest := Insert(x, s[1..], before);
      InsertSorted(x, s[1..], before);
      InsertPermutes(x, s[1..], before);
      var r := [s[0]] + rest;
      forall i, j | 0 <= i < j < |r|
        ensures !before(r[j], r[i])
      {
        if i == 0 {
          var e := r[j];
          assert e in multiset(rest);
          assert e == x || e in multiset(s[1..]);
          if e != x {
            var k :| 0 <= k < |s[1..]| && s[1..][k] == e;
            assert s[k + 1] == e;
          }
        } else {
          assert r[i] == rest[i - 1] && r[j] == rest[j - 1];
        }
      }
    }
  }

  /** Inserting `x` adds `x` to the elements tied with `y` exactly when `x` is tied with `y`, in front of the others. */
  lemma {:induction false} InsertTies<T(!new)>(x: T, s: seq<T>, y: T, before: (T, T) -> bool)
    requires Tied(before, x, y) ==> forall a :: before(a, x) ==> !Tied(before, a, y)
    ensures TiesWith(Insert(x, s, before), y, before)
         == (if Tied(before, x, y) then [x] else []) + TiesWith(s, y, before)
    decreases |s|
  {
    if s == [] || !before(s[0], x) {
      TiesCons(x, s, y, before);
    } else {
      var head, tail := s[0], s[1..];
      var rest := Insert(x, tail, before);
      var tx := if Tied(before, x, y) then [x] else [];
      var th := if Tied(before, head, y) then [head] else [];
      var ties := TiesWith(tail, y, before);
      assert Insert(x, s, before) == [head] + rest;
      assert TiesWith(rest, y, before) == tx + ties by {
        InsertTies(x, tail, y, before);
      }
      assert TiesWith([head] + rest, y, before) == th + (tx + ties) by {
        TiesCons(head, rest, y, before);
      }
      assert TiesWith(s, y, before) == th + ties by {
        assert s == [head] + tail;
        TiesCons(head, tail, y, before);
      }
      if Tied(before, x, y) {
        assert th == [];
        assert th + (tx + ties) == tx + (th + ties);
      } else {
        assert tx == [];
        assert th + (tx + ties) == tx + (th + ties);
      }
    }
  }

  lemma TiesCons<T>(h: T, t: seq<T>, y: T, before: (T, T) -> bool)
    ensures TiesWith([h] + t, y, before) == (if Tied(before, h, y) then [h] else []) + TiesWith(t, y, before)
  {
    assert ([h] + t)[1..] == t;
  }

  /** Whatever goes before `x` goes before everything tied with `x`. */
  lemma BeforeTiedIsBefore<T(!new)>(before: (T, T) -> bool, a: T, x: T, y: T)
    requires StrictWeakOrder(before) && before(a, x) && Tied(before, x, y)
    ensures before(a, y)
  {
  }

  /** The sort orders its result: no later element goes strictly before an earlier one. */
  lemma {:induction false} SortSorted<T(!new)>(s: seq<T>, before: (T, T) -> bool)
    requires StrictWeakOrder(before)
    ensures Sorted(Sort(s, before), before)
    decreases |s|
  {
    if s != [] {
      SortSorted(s[1..], before);
      InsertSorted(s[0], Sort(s[1..], before), before);
    }
  }

  /** The sort is stable: the elements tied with any `y` keep their relative order. */
  lemma {:induction false} SortStable<T(!new)>(s: seq<T>, y: T, before: (T, T) -> bool)
    requires StrictWeakOrder(before)
    ensures TiesWith(Sort(s, before), y, before) == TiesWith(s, y, before)
    decreases |s|
  {
    if s != [] {
      SortStable(s[1..], y, before);
      forall a | Tied(before, s[0], y) && before(a, s[0])
        ensures !Tied(before, a, y)
      {
        BeforeTiedIsBefore(before, a, s[0], y);
      }
      InsertTies(s[0], Sort(s[1..], before), y, before);
    }
  }
}
