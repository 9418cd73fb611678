/**
 * Sequence operations the source performs through JavaScript's array
 * library: `filter`, `find`/`indexOf`, `map`, and `[...new Set(xs)]`.
 */
module Seqs {
  import opened Wrappers

  /** `a` is an order-preserving subsequence of `b`. */
  predicate IsSubsequence<T(==)>(a: seq<T>, b: seq<T>)
    decreases |b|
  {
    a == [] || (b != [] && ((a[0] == b[0] && IsSubsequence(a[1..], b[1..])) || IsSubsequence(a, b[1..])))
  }

  lemma {:induction false} SubsequenceMember<T>(a: seq<T>, b: seq<T>, i: nat)
    requires IsSubsequence(a, b) && i < |a|
    ensures a[i] in b
    decreases |b|
  {
    if a[0] == b[0] && IsSubsequence(a[1..], b[1..]) {
      if i > 0 {
        SubsequenceMember(a[1..], b[1..], i - 1);
      }
    } else {
      SubsequenceMember(a, b[1..], i);
    }
  }

  predicate Distinct<T(==)>(s: seq<T>) {
    forall i, j :: 0 <= i < j < |s| ==> s[i] != s[j]
  }

  /** `s.filter(f)`: exactly the elements satisfying `f`, with their multiplicities, in their order. */
  function Filter<T(!new)>(s: seq<T>, f: T -> bool): (r: seq<T>)
    ensures |r| <= |s|
    ensures forall i :: 0 <= i < |r| ==> f(r[i])
    ensures IsSubsequence(r, s)
  {
    if s == [] then []
    else
      var rest := Filter(s[1..], f);
      assert s == [s[0]] + s[1..];
      if f(s[0]) then
        assert ([s[0]] + rest)[1..] == rest;
        [s[0]] + rest
      else rest
  }

  /** The filter keeps every element satisfying `f` with its multiplicity, and nothing else. */
  lemma {:induction false} FilterMultiset<T(!new)>(s: seq<T>, f: T -> bool, x: T)
    ensures multiset(Filter(s, f))[x] == if f(x) then multiset(s)[x] else 0
    decreases |s|
  {
    if s != [] {
      FilterMultiset(s[1..], f, x);
      assert s == [s[0]] + s[1..];
    }
  }

  /** A filter every element passes returns its input. */
  lemma {:induction false} FilterAll<T(!new)>(s: seq<T>, f: T -> bool)
    requires forall i :: 0 <= i < |s| ==> f(s[i])
    ensures Filter(s, f) == s
    decreases |s|
  {
    if s != [] {
      FilterAll(s[1..], f);
    }
  }

  /** Filtering twice by the same predicate is filtering once. */
  lemma FilterIdempotent<T(!new)>(s: seq<T>, f: T -> bool)
    ensures Filter(Filter(s, f), f) == Filter(s, f)
  {
    FilterAll(Filter(s, f), f);
  }

  /** Filters that agree on every element return the same. */
  lemma {:induction false} FilterCongruent<T(!new)>(s: seq<T>, f: T -> bool, g: T -> bool)
    requires forall i :: 0 <= i < |s| ==> f(s[i]) == g(s[i])
    ensures Filter(s, f) == Filter(s, g)
    decreases |s|
  {
    if s != [] {
      FilterCongruent(s[1..], f, g);
    }
  }

  /** A filter no element passes returns nothing. */
  lemma {:induction false} FilterNone<T(!new)>(s: seq<T>, f: T -> bool)
    requires forall i :: 0 <= i < |s| ==> !f(s[i])
    ensures Filter(s, f) == []
    decreases |s|
  {
    if s != [] {
      FilterNone(s[1..], f);
    }
  }

  /** Filtering distributes over concatenation, which is what "order preserved" means. */
  lemma {:induction false} FilterConcat<T(!new)>(s: seq<T>, t: seq<T>, f: T -> bool)
    ensures Filter(s + t, f) == Filter(s, f) + Filter(t, f)
    decreases |s|
  {
    if s != [] {
      var st := s + t;
      assert st[0] == s[0] && st[1..] == s[1..] + t;
      FilterConcat(s[1..], t, f);
      assert Filter(st, f) == (if f(s[0]) then [s[0]] else []) + Filter(st[1..], f);
      assert Filter(s, f) == (if f(s[0]) then [s[0]] else []) + Filter(s[1..], f);
    } else {
      assert s + t == t;
    }
  }

  /** When the second part contributes nothing, filtering the whole is filtering the first part. */
  lemma FilterConcatLeft<T(!new)>(s: seq<T>, t: seq<T>, f: T -> bool)
    requires Filter(t, f) == []
    ensures Filter(s + t, f) == Filter(s, f)
  {
    FilterConcat(s, t, f);
    assert Filter(s, f) + [] == Filter(s, f);
  }

  /** When the first part contributes nothing, filtering the whole is filtering the second part. */
  lemma FilterConcatRight<T(!new)>(s: seq<T>, t: seq<T>, f: T -> bool)
    requires Filter(s, f) == []
    ensures Filter(s + t, f) == Filter(t, f)
  {
    FilterConcat(s, t, f);
    assert [] + Filter(t, f) == Filter(t, f);
  }

  /** The blocks one after the other. */
  function Concat<T>(blocks: seq<seq<T>>): (r: seq<T>)
  {
    if |blocks| == 0 then [] else Concat(blocks[..|blocks| - 1]) + blocks[|blocks| - 1]
  }

  /** The first `k + 1` blocks are the first `k` and then block `k`. */
  lemma ConcatPrefix<T>(blocks: seq<seq<T>>, k: nat)
    requires k < |blocks|
    ensures Concat(blocks[..k + 1]) == Concat(blocks[..k]) + blocks[k]
  {
    assert blocks[..k + 1][..k] == blocks[..k];
  }

  lemma AppendAssociative<T>(a: seq<T>, b: seq<T>, c: seq<T>)
    ensures (a + b) + c == a + (b + c)
  {
  }

  /** One more block adds its elements at the end. */
  lemma ConcatAppend<T>(blocks: seq<seq<T>>, b: seq<T>)
    ensures Concat(blocks + [b]) == Concat(blocks) + b
  {
    assert (blocks + [b])[..|blocks|] == blocks;
  }

  /** One more block gives the same elements as extending the last block with it. */
  lemma ConcatMergesLast<T>(blocks: seq<seq<T>>, b: seq<T>)
    requires |blocks| > 0
    ensures Concat(blocks + [b]) == Concat(blocks[..|blocks| - 1] + [blocks[|blocks| - 1] + b])
  {
    var n := |blocks| - 1;
    var front, last := blocks[..n], blocks[n];
    calc {
      Concat(blocks + [b]);
      { ConcatAppend(blocks, b); }
      Concat(blocks) + b;
      (Concat(front) + last) + b;
      { AppendAssociative(Concat(front), last, b); }
      Concat(front) + (last + b);
      { ConcatAppend(front, last + b); }
      Concat(front + [last + b]);
    }
  }

  /** Blocks of `n` elements each concatenate to `|blocks| * n` elements. */
  lemma {:induction false} ConcatUniformLength<T>(blocks: seq<seq<T>>, n: nat)
    requires forall k :: 0 <= k < |blocks| ==> |blocks[k]| == n
    ensures |Concat(blocks)| == |blocks| * n
    decreases |blocks|
  {
    if blocks != [] {
      var last := |blocks| - 1;
      ConcatUniformLength(blocks[..last], n);
      assert |blocks| * n == last * n + n;
    }
  }

  /** Every position of the concatenation is position `i` of some block `k`, after the blocks before `k`. */
  lemma {:induction false} ConcatMember<T>(blocks: seq<seq<T>>, j: nat) returns (k: nat, i: nat)
    requires j < |Concat(blocks)|
    ensures k < |blocks| && i < |blocks[k]| && Concat(blocks)[j] == blocks[k][i]
    ensures j == |Concat(blocks[..k])| + i
    decreases |blocks|
  {
    var last := |blocks| - 1;
    var prev := Concat(blocks[..last]);
    if j < |prev| {
      k, i := ConcatMember(blocks[..last], j);
      assert blocks[..last][..k] == blocks[..k];
    } else {
      k, i := last, j - |prev|;
    }
  }

  /** Every element of every block is in the concatenation. */
  lemma {:induction false} ConcatHas<T>(blocks: seq<seq<T>>, k: nat, i: nat)
    requires k < |blocks| && i < |blocks[k]|
    ensures blocks[k][i] in Concat(blocks)
    decreases |blocks|
  {
    var last := |blocks| - 1;
    if k < last {
      ConcatHas(blocks[..last], k, i);
    } else {
      assert Concat(blocks)[|Concat(blocks[..last])| + i] == blocks[k][i];
    }
  }

  /**
   * Filtering a concatenation by a test that block `k`'s elements pass and
   * every other block's fail gives block `k` back.
   */
  lemma FilterSelectsBlock<T(!new)>(blocks: seq<seq<T>>, f: T -> bool, k: nat)
    requires k < |blocks| && forall i :: 0 <= i < |blocks[k]| ==> f(blocks[k][i])
    requires forall j, i :: 0 <= j < |blocks| && j != k && 0 <= i < |blocks[j]| ==> !f(blocks[j][i])
    ensures Filter(Concat(blocks), f) == blocks[k]
  {
    FilterBlocksUpTo(blocks, f, k, |blocks|);
    assert blocks[..|blocks|] == blocks;
  }

  lemma {:induction false} FilterBlocksUpTo<T(!new)>(blocks: seq<seq<T>>, f: T -> bool, k: nat, m: nat)
    requires k < |blocks| && m <= |blocks| && forall i :: 0 <= i < |blocks[k]| ==> f(blocks[k][i])
    requires forall j, i :: 0 <= j < |blocks| && j != k && 0 <= i < |blocks[j]| ==> !f(blocks[j][i])
    ensures Filter(Concat(blocks[..m]), f) == if k < m then blocks[k] else []
  {
    if m > 0 {
      FilterBlocksUpTo(blocks, f, k, m - 1);
      ConcatPrefix(blocks, m - 1);
      var b := blocks[m - 1];
      if m - 1 == k {
        FilterAll(b, f);
        FilterConcatRight(Concat(blocks[..m - 1]), b, f);
      } else {
        FilterNone(b, f);
        if k < m - 1 {
          FilterConcatLeft(Concat(blocks[..m - 1]), b, f);
        } else {
          FilterConcatRight(Concat(blocks[..m - 1]), b, f);
        }
      }
    } else {
      assert blocks[..0] == [];
    }
  }

  /** Occurrences of `x` in `s`, counted from the back. */
  ghost function Count<T>(s: seq<T>, x: T): nat {
    if s == [] then 0 else Count(s[..|s| - 1], x) + (if s[|s| - 1] == x then 1 else 0)
  }

  lemma {:induction false} CountAppend<T>(a: seq<T>, b: seq<T>, x: T)
    ensures Count(a + b, x) == Count(a, x) + Count(b, x)
    decreases |b|
  {
    if b == [] {
      assert a + b == a;
    } else {
      assert (a + b)[..|a + b| - 1] == a + b[..|b| - 1];
      CountAppend(a, b[..|b| - 1], x);
    }
  }

  /** The count is the multiplicity in the sequence's multiset. */
  lemma {:induction false} CountIsMultiplicity<T>(s: seq<T>, x: T)
    ensures Count(s, x) == multiset(s)[x]
  {
    if s != [] {
      CountIsMultiplicity(s[..|s| - 1], x);
      assert s == s[..|s| - 1] + [s[|s| - 1]];
    }
  }

  lemma MultisetExtensionality<T>(a: multiset<T>, b: multiset<T>)
    requires forall x :: a[x] == b[x]
    ensures a == b
  {
  }

  /** `s.findIndex(f)`: the first index whose element satisfies `f`, if any. */
  function FindIndex<T>(s: seq<T>, f: T -> bool): (r: Option<nat>)
    ensures r.Some? ==> r.value < |s| && f(s[r.value])
    ensures r.Some? ==> forall j :: 0 <= j < r.value ==> !f(s[j])
    ensures r.None? <==> forall j :: 0 <= j < |s| ==> !f(s[j])
  {
    if |s| == 0 then None
    else if f(s[0]) then Some(0)
    else match FindIndex(s[1..], f)
      case None => None
      case Some(k) => Some(k + 1)
  }

  /** Element `i` is the first to satisfy `f`. */
  predicate FirstMatch<T>(s: seq<T>, f: T -> bool, i: nat) {
    i < |s| && f(s[i]) && forall j :: 0 <= j < i ==> !f(s[j])
  }

  /** `FindIndex` finds exactly the first element satisfying `f`. */
  lemma FindIndexFirst<T>(s: seq<T>, f: T -> bool, i: nat)
    requires FirstMatch(s, f, i)
    ensures FindIndex(s, f) == Some(i)
  {
    var r := FindIndex(s, f);
    assert r.Some?;
    assert f(s[r.value]);
  }

  /** Putting a satisfying element in place of the first keeps it first. */
  lemma FirstMatchReplace<T>(s: seq<T>, f: T -> bool, i: nat, x: T)
    requires FirstMatch(s, f, i) && f(x)
    ensures FirstMatch(s[i := x], f, i)
  {
    assert forall j :: 0 <= j < i ==> s[i := x][j] == s[j];
  }

  /** With no element satisfying `f`, a satisfying element put after them is the first. */
  lemma FirstMatchAppend<T>(s: seq<T>, f: T -> bool, x: T)
    requires forall j :: 0 <= j < |s| ==> !f(s[j])
    requires f(x)
    ensures FirstMatch(s + [x], f, |s|)
  {
    assert forall j :: 0 <= j < |s| ==> (s + [x])[j] == s[j];
  }

  /** Putting an element that fails `f` in place of another leaves no element satisfying `f`. */
  lemma NoMatchUpdate<T>(s: seq<T>, f: T -> bool, i: nat, x: T)
    requires i < |s| && !f(x) && FindIndex(s, f).None?
    ensures FindIndex(s[i := x], f).None?
  {
    var t := s[i := x];
    forall j | 0 <= j < |t|
      ensures !f(t[j])
    {
      if j != i {
        assert t[j] == s[j];
      }
    }
  }

  /** The first element satisfying `f` replaced by `x`, or `x` added at the end when there is none. */
  function ReplaceFirstOrAppend<T>(s: seq<T>, f: T -> bool, x: T): (r: seq<T>)
    ensures |r| == |s| || |r| == |s| + 1
  {
    match FindIndex(s, f)
    case Some(i) => s[i := x]
    case None => s + [x]
  }

  /** Only the first element satisfying `f` is replaced, and no other element changes. */
  lemma ReplacesFirst<T>(s: seq<T>, f: T -> bool, x: T, i: nat)
    requires FirstMatch(s, f, i)
    ensures ReplaceFirstOrAppend(s, f, x) == s[i := x]
  {
    FindIndexFirst(s, f, i);
  }

  /** With no element satisfying `f`, `x` is added after all of them. */
  lemma AppendsWhenNone<T>(s: seq<T>, f: T -> bool, x: T)
    requires forall j :: 0 <= j < |s| ==> !f(s[j])
    ensures ReplaceFirstOrAppend(s, f, x) == s + [x]
  {
  }

  /** When `x` itself satisfies `f`, doing it twice is doing it once. */
  lemma ReplaceFirstOrAppendIdempotent<T>(s: seq<T>, f: T -> bool, x: T)
    requires f(x)
    ensures ReplaceFirstOrAppend(ReplaceFirstOrAppend(s, f, x), f, x) == ReplaceFirstOrAppend(s, f, x)
  {
    match FindIndex(s, f)
    case Some(i) =>
      FirstMatchReplace(s, f, i, x);
      FindIndexFirst(s[i := x], f, i);
      assert s[i := x][i := x] == s[i := x];
    case None =>
      FirstMatchAppend(s, f, x);
      FindIndexFirst(s + [x], f, |s|);
      assert (s + [x])[|s| := x] == s + [x];
  }

  /** `s.find(f)`: the first element satisfying `f`, if any. */
  function Find<T>(s: seq<T>, f: T -> bool): (r: Option<T>)
    ensures r.None? <==> forall j :: 0 <= j < |s| ==> !f(s[j])
    ensures r.Some? ==> exists k :: 0 <= k < |s| && s[k] == r.value && f(s[k]) && forall j :: 0 <= j < k ==> !f(s[j])
  {
    match FindIndex(s, f)
    case None => None
    case Some(k) => Some(s[k])
  }

  /** `s.map(f)` */
  function Map<T, U>(f: T -> U, s: seq<T>): (r: seq<U>)
    ensures |r| == |s|
    ensures forall i :: 0 <= i < |s| ==> r[i] == f(s[i])
  {
    if s == [] then [] else [f(s[0])] + Map(f, s[1..])
  }

  /** Mapping two permutations of each other gives permutations of each other. */
  lemma {:induction false} MapMultiset<T, U>(f: T -> U, s: seq<T>, t: seq<T>)
    requires multiset(s) == multiset(t)
    ensures multiset(Map(f, s)) == multiset(Map(f, t))
    decreases |s|
  {
    if s == [] {
      assert |t| == |multiset(t)| == 0;
    } else {
      var x := s[0];
      var i := Occurrence(t, x);
      var a, b := t[..i], t[i + 1..];
      assert t == a + ([x] + b);
      assert s == [x] + s[1..];
      RemoveMatching(s, t, i);
      MapMultiset(f, s[1..], a + b);
      MapConcat(f, [x], s[1..]);
      MapConcat(f, a, [x] + b);
      MapConcat(f, [x], b);
      MapConcat(f, a, b);
      Shuffle(Map(f, [x]), Map(f, s[1..]), Map(f, a), Map(f, b));
    }
  }

  lemma Occurrence<T>(t: seq<T>, x: T) returns (i: nat)
    requires x in multiset(t)
    ensures i < |t| && t[i] == x
  {
    i :| i < |t| && t[i] == x;
  }

  lemma Shuffle<U>(x: seq<U>, s: seq<U>, a: seq<U>, b: seq<U>)
    requires multiset(s) == multiset(a + b)
    ensures multiset(x + s) == multiset(a + (x + b))
  {
  }

  /** Removing the head of `s` and a copy of it from `t` keeps the two permutations of each other. */
  lemma RemoveMatching<T>(s: seq<T>, t: seq<T>, i: nat)
    requires multiset(s) == multiset(t) && s != [] && i < |t| && t[i] == s[0]
    ensures multiset(s[1..]) == multiset(t[..i] + t[i + 1..])
  {
    var x, a, b := s[0], t[..i], t[i + 1..];
    assert t == a + [x] + b;
    assert s == [x] + s[1..];
    calc {
      multiset(s[1..]);
      multiset(s) - multiset{x};
      multiset(t) - multiset{x};
      multiset(a) + multiset(b);
    }
  }

  lemma MapConcat<T, U>(f: T -> U, s: seq<T>, t: seq<T>)
    ensures Map(f, s + t) == Map(f, s) + Map(f, t)
  {
  }

  lemma {:induction false} DistinctCount<T>(s: seq<T>, x: T)
    requires Distinct(s)
    ensures multiset(s)[x] <= 1
    decreases |s|
  {
    if s != [] {
      assert s == [s[0]] + s[1..];
      DistinctCount(s[1..], x);
      if s[0] == x {
        assert x !in s[1..];
      }
    }
  }

  /** A permutation of a sequence without repetitions has none either. */
  lemma DistinctPermutation<T>(s: seq<T>, t: seq<T>)
    requires multiset(s) == multiset(t) && Distinct(s)
    ensures Distinct(t)
  {
    forall i, j | 0 <= i < j < |t|
      ensures t[i] != t[j]
    {
      if t[i] == t[j] {
        var x := t[i];
        assert t == t[..i] + [x] + t[i + 1..j] + [x] + t[j + 1..];
        assert multiset(t)[x] >= 2;
        DistinctCount(s, x);
      }
    }
  }

  /** Sequences with the same multiset have the same members. */
  lemma PermutationMembers<T>(s: seq<T>, t: seq<T>, x: T)
    requires multiset(s) == multiset(t)
    ensures x in s <==> x in t
  {
    assert x in s <==> x in multiset(s);
    assert x in t <==> x in multiset(t);
  }

  /** Filtering sequences with the same multiset keeps as many elements from each. */
  lemma FilterPermutationLength<T(!new)>(s: seq<T>, t: seq<T>, f: T -> bool)
    requires multiset(s) == multiset(t)
    ensures |Filter(s, f)| == |Filter(t, f)|
  {
    forall x
      ensures multiset(Filter(s, f))[x] == multiset(Filter(t, f))[x]
    {
      FilterMultiset(s, f, x);
      FilterMultiset(t, f, x);
    }
    assert multiset(Filter(s, f)) == multiset(Filter(t, f));
    assert |multiset(Filter(s, f))| == |Filter(s, f)|;
  }

  /** A property every element of `s` has, every element of a permutation of `s` has. */
  lemma PermutationPreserves<T>(s: seq<T>, t: seq<T>, P: T -> bool)
    requires multiset(s) == multiset(t)
    requires forall i :: 0 <= i < |s| ==> P(s[i])
    ensures forall j :: 0 <= j < |t| ==> P(t[j])
  {
    forall j | 0 <= j < |t|
      ensures P(t[j])
    {
      assert t[j] in multiset(t);
      var i := Occurrence(s, t[j]);
    }
  }

  /** The index of the first occurrence of `x` in `s`. */
  function FirstIndex<T(==)>(s: seq<T>, x: T): (k: nat)
    requires x in s
    ensures k < |s| && s[k] == x && x !in s[..k]
  {
    if s[0] == x then 0
    else
      var k := FirstIndex(s[1..], x);
      assert s[..k + 1] == [s[0]] + s[1..][..k];
      k + 1
  }

  /** `[...new Set(s)]`: each value once, in order of first occurrence. */
  function Dedup<T(==,!new)>(s: seq<T>): (r: seq<T>)
    ensures Distinct(r)
    ensures forall x :: x in r <==> x in s
    ensures forall i, j :: 0 <= i < j < |r| ==> FirstIndex(s, r[i]) < FirstIndex(s, r[j])
  {
    if s == [] then []
    else
      var p := s[..|s| - 1];
      var last := s[|s| - 1];
      var r := Dedup(p);
      assert s == p + [last];
      forall x | x in p
        ensures FirstIndex(p, x) == FirstIndex(s, x)
      {
        FirstIndexPrefix(p, s, x);
      }
      if last in r then r
      else
        assert FirstIndex(s, last) == |s| - 1 by {
          FirstIndexPrefix(s, s, last);
        }
        r + [last]
  }

  lemma FirstIndexPrefix<T>(p: seq<T>, s: seq<T>, x: T)
    requires x in p && p <= s
    ensures FirstIndex(p, x) == FirstIndex(s, x)
  {
    var a, b := FirstIndex(p, x), FirstIndex(s, x);
    assert s[a] == x;
  }
}
