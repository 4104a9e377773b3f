/**
 The two set containers the conversion passes through. A `HashSet` is
 consumed by `into_iter`, which yields every element exactly once in an order
 the program does not control; a `BTreeSet` is built by `collect`, and its
 iteration order, equality and `Ord` are fixed by its elements' order alone.
 */
module Sets {
  import opened Cmp

  /** The elements of `xs` are pairwise distinct. */
  ghost predicate Distinct<T>(xs: seq<T>) {
    forall i, j :: 0 <= i < j < |xs| ==> xs[i] != xs[j]
  }

  /** `xs` is one possible order in which `into_iter` on a hash set holding
      exactly `s` yields its elements: each element of `s` once, nothing else. */
  ghost predicate IsEnumeration<T(!new)>(xs: seq<T>, s: set<T>) {
    Distinct(xs) && forall x :: x in xs <==> x in s
  }

  /** Every finite set has at least one enumeration, so a hash set can
      always be iterated. */
  ghost function SomeEnumeration<T(!new)>(s: set<T>): (xs: seq<T>)
    ensures IsEnumeration(xs, s)
    decreases s
  {
    if s == {} then []
    else
      var x :| x in s;
      SomeEnumeration(s - {x}) + [x]
  }

  /** `FromIterator for BTreeSet`: the set of the items collected. */
  function Collect<T(==,!new)>(xs: seq<T>): (s: set<T>)
    ensures forall x :: x in s <==> x in xs
    ensures |s| <= |xs|
  {
    if xs == [] then {}
    else Collect(xs[..|xs| - 1]) + {xs[|xs| - 1]}
  }

  /** Collecting distinct items loses none of them. */
  lemma {:induction false} CollectDistinct<T(!new)>(xs: seq<T>)
    requires Distinct(xs)
    ensures |Collect(xs)| == |xs|
  {
    if xs != [] {
      var init, last := xs[..|xs| - 1], xs[|xs| - 1];
      CollectDistinct(init);
      assert last !in init;
    }
  }

  /** Collecting any enumeration of a set gives back that set, of the same size. */
  lemma CollectEnumeration<T(!new)>(xs: seq<T>, s: set<T>)
    requires IsEnumeration(xs, s)
    ensures Collect(xs) == s
    ensures |s| == |xs|
  {
    CollectDistinct(xs);
  }

  /** The collected set does not depend on the order of the items. */
  lemma CollectPermutation<T(!new)>(xs: seq<T>, ys: seq<T>)
    requires multiset(xs) == multiset(ys)
    ensures Collect(xs) == Collect(ys)
  {
    forall x ensures x in Collect(xs) <==> x in Collect(ys) {
      assert x in xs <==> x in multiset(xs);
      assert x in ys <==> x in multiset(ys);
    }
  }

  /** Counting how often each item occurs: a sequence is distinct exactly when
      nothing occurs twice. */
  lemma {:induction false} DistinctByMultiplicity<T(!new)>(xs: seq<T>)
    ensures Distinct(xs) <==> forall x :: multiset(xs)[x] <= 1
  {
    if xs != [] {
      var init, last := xs[..|xs| - 1], xs[|xs| - 1];
      assert xs == init + [last];
      assert multiset(xs) == multiset(init) + multiset{last};
      DistinctByMultiplicity(init);
      if Distinct(xs) {
        assert Distinct(init);
        assert last !in init;
        assert last !in multiset(init);
      } else {
        var i, j :| 0 <= i < j < |xs| && xs[i] == xs[j];
        if j == |xs| - 1 {
          assert init[i] == last;
          assert multiset(xs)[last] >= 2;
        } else {
          assert init[i] == init[j];
          assert !Distinct(init);
          var x :| multiset(init)[x] > 1;
          assert multiset(xs)[x] > 1;
        }
      }
    }
  }

  /** Rearranging an enumeration of a set gives another enumeration of it. */
  lemma PermutedEnumeration<T(!new)>(xs: seq<T>, ys: seq<T>, s: set<T>)
    requires IsEnumeration(xs, s)
    requires multiset(xs) == multiset(ys)
    ensures IsEnumeration(ys, s)
  {
    DistinctByMultiplicity(xs);
    DistinctByMultiplicity(ys);
    forall x ensures x in ys <==> x in s {
      assert x in xs <==> x in multiset(xs);
      assert x in ys <==> x in multiset(ys);
    }
  }

  /** `xs` is in strictly ascending order under `cmp`. */
  ghost predicate Ascending<T>(cmp: (T, T) -> Ordering, xs: seq<T>) {
    forall i, j :: 0 <= i < j < |xs| ==> cmp(xs[i], xs[j]) == Less
  }

  /** The least element of a non-empty set: `BTreeSet::first`. */
  ghost function Least<T(!new)>(cmp: (T, T) -> Ordering, s: set<T>): (m: T)
    requires TotalOrder(cmp)
    requires s != {}
    ensures m in s
    ensures forall y :: y in s && y != m ==> cmp(m, y) == Less
    decreases s
  {
    var x :| x in s;
    if s == {x} then x
    else
      var m' := Least(cmp, s - {x});
      if cmp(x, m') == Less then x else m'
  }

  /** The order in which a `BTreeSet` holding exactly `s` iterates. */
  ghost function Sorted<T(!new)>(cmp: (T, T) -> Ordering, s: set<T>): (xs: seq<T>)
    requires TotalOrder(cmp)
    ensures forall x :: x in xs <==> x in s
    ensures |xs| == |s|
    ensures Ascending(cmp, xs)
    decreases s
  {
    if s == {} then []
    else
      var m := Least(cmp, s);
      [m] + Sorted(cmp, s - {m})
  }

  /** A set has exactly one ascending enumeration: whatever order the
      elements arrived in, a `BTreeSet` iterates them in the same order. */
  lemma {:induction false} AscendingIsUnique<T(!new)>(cmp: (T, T) -> Ordering, xs: seq<T>, ys: seq<T>)
    requires TotalOrder(cmp)
    requires Ascending(cmp, xs) && Ascending(cmp, ys)
    requires forall x :: x in xs <==> x in ys
    ensures xs == ys
  {
    if xs != [] { assert xs[0] in ys; }
    if ys != [] { assert ys[0] in xs; }
    if xs != [] && ys != [] {
      assert xs[0] == ys[0];
      forall x ensures x in xs[1..] <==> x in ys[1..] {
        if x in xs[1..] {
          var k :| 1 <= k < |xs| && xs[k] == x;
          assert cmp(xs[0], xs[k]) == Less;
          assert x in ys;
          var l :| 0 <= l < |ys| && ys[l] == x;
          assert l != 0;
        }
        if x in ys[1..] {
          var k :| 1 <= k < |ys| && ys[k] == x;
          assert cmp(ys[0], ys[k]) == Less;
          assert x in xs;
          var l :| 0 <= l < |xs| && xs[l] == x;
          assert l != 0;
        }
      }
      AscendingIsUnique(cmp, xs[1..], ys[1..]);
      assert xs == [xs[0]] + xs[1..];
      assert ys == [ys[0]] + ys[1..];
    }
  }

  /** Any ascending enumeration of `s` is the one a `BTreeSet` iterates in. */
  lemma SortedIsCanonical<T(!new)>(cmp: (T, T) -> Ordering, s: set<T>, xs: seq<T>)
    requires TotalOrder(cmp)
    requires Ascending(cmp, xs)
    requires forall x :: x in xs <==> x in s
    ensures Sorted(cmp, s) == xs
  {
    AscendingIsUnique(cmp, Sorted(cmp, s), xs);
  }

  /** `PartialEq for BTreeSet`: the same length, and equal element by element
      when both are iterated in order. */
  ghost predicate SetEq<T(!new)>(cmp: (T, T) -> Ordering, s: set<T>, t: set<T>)
    requires TotalOrder(cmp)
  {
    var a, b := Sorted(cmp, s), Sorted(cmp, t);
    |a| == |b| && forall i :: 0 <= i < |a| ==> a[i] == b[i]
  }

  /** The element-by-element equality is exactly set equality. */
  lemma SetEqIsEquality<T(!new)>(cmp: (T, T) -> Ordering, s: set<T>, t: set<T>)
    requires TotalOrder(cmp)
    ensures SetEq(cmp, s, t) <==> s == t
  {
    if SetEq(cmp, s, t) {
      assert Sorted(cmp, s) == Sorted(cmp, t);
    }
  }

  /** `Ord for BTreeSet`: the lexicographic comparison of the two iterations. */
  ghost function CmpSet<T(!new)>(cmp: (T, T) -> Ordering, s: set<T>, t: set<T>): (r: Ordering)
    requires TotalOrder(cmp)
  {
    CmpSeq(cmp, Sorted(cmp, s), Sorted(cmp, t))
  }

  /** The order on sets of totally ordered elements is total, and it calls two
      sets `Equal` exactly when they are the same set. */
  lemma SetOrderIsTotal<T(!new)>(cmp: (T, T) -> Ordering)
    requires TotalOrder(cmp)
    ensures forall s, t :: CmpSet(cmp, s, t) == Equal <==> s == t
    ensures forall s, t :: CmpSet(cmp, s, t) == Less <==> CmpSet(cmp, t, s) == Greater
    ensures forall s, t, u :: CmpSet(cmp, s, t) == Less && CmpSet(cmp, t, u) == Less ==> CmpSet(cmp, s, u) == Less
  {
    SeqOrderIsTotal(cmp);
    var c := SeqOrder(cmp);
    forall s: set<T>, t: set<T> ensures CmpSet(cmp, s, t) == Equal <==> s == t {
      assert CmpSet(cmp, s, t) == c(Sorted(cmp, s), Sorted(cmp, t));
      if Sorted(cmp, s) == Sorted(cmp, t) {
        assert forall x :: x in s <==> x in t;
      }
    }
    forall s: set<T>, t: set<T> ensures CmpSet(cmp, s, t) == Less <==> CmpSet(cmp, t, s) == Greater {
      assert CmpSet(cmp, s, t) == c(Sorted(cmp, s), Sorted(cmp, t));
      assert CmpSet(cmp, t, s) == c(Sorted(cmp, t), Sorted(cmp, s));
    }
    forall s: set<T>, t: set<T>, u: set<T> | CmpSet(cmp, s, t) == Less && CmpSet(cmp, t, u) == Less
      ensures CmpSet(cmp, s, u) == Less
    {
      assert CmpSet(cmp, s, t) == c(Sorted(cmp, s), Sorted(cmp, t));
      assert CmpSet(cmp, t, u) == c(Sorted(cmp, t), Sorted(cmp, u));
      assert CmpSet(cmp, s, u) == c(Sorted(cmp, s), Sorted(cmp, u));
    }
  }
}
