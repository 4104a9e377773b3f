/**
 Three-way comparison in the style of Rust's `std::cmp::Ord`, together with the
 two derived orders the model needs: the lexicographic order on pairs (what
 `#[derive(Ord)]` gives a two-field struct or tuple) and the lexicographic
 order on sequences (what `Iterator::cmp` gives two iterators).
 */
module Cmp {

  /** The result of comparing two values, as `std::cmp::Ordering`. */
  datatype Ordering = Less | Equal | Greater

  /** A comparison function as an `Ord` implementation: a strict total order
      whose `Equal` answer coincides with equality (the contract `Ord` asks of
      `Eq`), whose answers are mirror images when the arguments are swapped, and
      whose `Less` is transitive. */
  ghost predicate TotalOrder<T(!new)>(cmp: (T, T) -> Ordering) {
    && (forall x, y :: cmp(x, y) == Equal <==> x == y)
    && (forall x, y :: cmp(x, y) == Less <==> cmp(y, x) == Greater)
    && (forall x, y, z :: cmp(x, y) == Less && cmp(y, z) == Less ==> cmp(x, z) == Less)
  }

  /** The natural order on integers, as `Ord` for `u64`. */
  function CmpInt(a: int, b: int): (r: Ordering)
    ensures r == Less <==> a < b
    ensures r == Equal <==> a == b
    ensures r == Greater <==> a > b
  {
    if a < b then Less else if a == b then Equal else Greater
  }

  /** `#[derive(Ord)]` on a pair: compare the first components, and only when
      they are equal compare the second. */
  function CmpPair<X, Y>(cx: (X, X) -> Ordering, cy: (Y, Y) -> Ordering, p: (X, Y), q: (X, Y)): (r: Ordering)
  {
    match cx(p.0, q.0)
    case Equal => cy(p.1, q.1)
    case o => o
  }

  function PairOrder<X, Y>(cx: (X, X) -> Ordering, cy: (Y, Y) -> Ordering): (c: ((X, Y), (X, Y)) -> Ordering)
  {
    (p: (X, Y), q: (X, Y)) => CmpPair(cx, cy, p, q)
  }

  /** `Iterator::cmp`: walk both sequences in step, the first unequal pair of
      elements decides, and a proper prefix is smaller than the sequence it
      is a prefix of. */
  function CmpSeq<T>(cmp: (T, T) -> Ordering, a: seq<T>, b: seq<T>): (r: Ordering)
  {
    if |a| == 0 then (if |b| == 0 then Equal else Less)
    else if |b| == 0 then Greater
    else match cmp(a[0], b[0])
      case Equal => CmpSeq(cmp, a[1..], b[1..])
      case o => o
  }

  function SeqOrder<T>(cmp: (T, T) -> Ordering): (c: (seq<T>, seq<T>) -> Ordering)
  {
    (a: seq<T>, b: seq<T>) => CmpSeq(cmp, a, b)
  }

  /** The lexicographic order on pairs of totally ordered components is total. */
  lemma PairOrderIsTotal<X(!new), Y(!new)>(cx: (X, X) -> Ordering, cy: (Y, Y) -> Ordering)
    requires TotalOrder(cx) && TotalOrder(cy)
    ensures TotalOrder(PairOrder(cx, cy))
  {
    var c := PairOrder(cx, cy);
    forall p: (X, Y), q: (X, Y), r: (X, Y) | c(p, q) == Less && c(q, r) == Less
      ensures c(p, r) == Less
    {
      if cx(p.0, q.0) == Equal {
        assert p.0 == q.0;
      } else if cx(q.0, r.0) == Equal {
        assert q.0 == r.0;
      }
    }
  }

  lemma {:induction false} CmpSeqEqual<T(!new)>(cmp: (T, T) -> Ordering, a: seq<T>, b: seq<T>)
    requires TotalOrder(cmp)
    ensures CmpSeq(cmp, a, b) == Equal <==> a == b
    decreases |a|
  {
    if |a| > 0 && |b| > 0 {
      CmpSeqEqual(cmp, a[1..], b[1..]);
      if a[0] == b[0] && a[1..] == b[1..] {
        assert a == [a[0]] + a[1..];
        assert b == [b[0]] + b[1..];
      }
    }
  }

  lemma {:induction false} CmpSeqMirror<T(!new)>(cmp: (T, T) -> Ordering, a: seq<T>, b: seq<T>)
    requires TotalOrder(cmp)
    ensures CmpSeq(cmp, a, b) == Less <==> CmpSeq(cmp, b, a) == Greater
    decreases |a|
  {
    if |a| > 0 && |b| > 0 {
      CmpSeqMirror(cmp, a[1..], b[1..]);
    }
  }

  lemma {:induction false} CmpSeqTransitive<T(!new)>(cmp: (T, T) -> Ordering, a: seq<T>, b: seq<T>, c: seq<T>)
    requires TotalOrder(cmp)
    requires CmpSeq(cmp, a, b) == Less && CmpSeq(cmp, b, c) == Less
    ensures CmpSeq(cmp, a, c) == Less
    decreases |a|
  {
    if |a| > 0 {
      if cmp(a[0], b[0]) == Equal && cmp(b[0], c[0]) == Equal {
        CmpSeqTransitive(cmp, a[1..], b[1..], c[1..]);
      } else if cmp(a[0], b[0]) == Equal {
        assert a[0] == b[0];
      } else if cmp(b[0], c[0]) == Equal {
        assert b[0] == c[0];
      }
    }
  }

  /** The lexicographic order on sequences of totally ordered elements is total. */
  lemma SeqOrderIsTotal<T(!new)>(cmp: (T, T) -> Ordering)
    requires TotalOrder(cmp)
    ensures TotalOrder(SeqOrder(cmp))
  {
    forall a: seq<T>, b: seq<T> ensures CmpSeq(cmp, a, b) == Equal <==> a == b {
      CmpSeqEqual(cmp, a, b);
    }
    forall a: seq<T>, b: seq<T> ensures CmpSeq(cmp, a, b) == Less <==> CmpSeq(cmp, b, a) == Greater {
      CmpSeqMirror(cmp, a, b);
    }
    forall a: seq<T>, b: seq<T>, c: seq<T> | CmpSeq(cmp, a, b) == Less && CmpSeq(cmp, b, c) == Less
      ensures CmpSeq(cmp, a, c) == Less
    {
      CmpSeqTransitive(cmp, a, b, c);
    }
  }
}
