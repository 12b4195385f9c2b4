/** Stable insertion sort: what Array.sort computes for a comparator that is a strict weak order. */
module Sorting {
  import Basics

  /** `less(a, b)`: the comparator puts a strictly before b. */
  type Less<!T> = (T, T) -> bool

  ghost predicate WeakOrder<T(!new)>(less: Less<T>) {
    (forall a, b :: less(a, b) ==> !less(b, a)) &&
    (forall a, b, c :: !less(b, a) && !less(c, b) ==> !less(c, a))
  }

  function Insert<T>(x: T, sorted: seq<T>, less: Less<T>): seq<T> {
    if sorted == [] || less(x, sorted[0]) then [x] + sorted else [sorted[0]] + Insert(x, sorted[1..], less)
  }

  function Sort<T>(s: seq<T>, less: Less<T>): seq<T> {
    if s == [] then [] else Insert(s[|s| - 1], Sort(s[..|s| - 1], less), less)
  }

  ghost predicate Sorted<T>(s: seq<T>, less: Less<T>) {
    forall i, j :: 0 <= i < j < |s| ==> !less(s[j], s[i])
  }

  lemma SortedCons<T>(x: T, s: seq<T>, less: Less<T>)
    requires Sorted(s, less) && forall y <- s :: !less(y, x)
    ensures Sorted([x] + s, less)
  {
    forall i, j | 0 <= i < j < |s| + 1 ensures !less(([x] + s)[j], ([x] + s)[i]) {
      assert ([x] + s)[j] == s[j - 1] && s[j - 1] in s;
      if i > 0 { assert ([x] + s)[i] == s[i - 1]; }
    }
  }

  lemma SortedTail<T>(s: seq<T>, less: Less<T>)
    requires Sorted(s, less) && s != []
    ensures Sorted(s[1..], less) && forall y <- s[1..] :: !less(y, s[0])
  {
    assert forall i :: 0 <= i < |s| - 1 ==> s[1..][i] == s[i + 1];
  }

  lemma {:induction false} InsertMultiset<T>(x: T, sorted: seq<T>, less: Less<T>)
    ensures multiset(Insert(x, sorted, less)) == multiset(sorted) + multiset{x}
    ensures forall y :: y in Insert(x, sorted, less) <==> y == x || y in sorted
  {
    if sorted != [] && !less(x, sorted[0]) {
      InsertMultiset(x, sorted[1..], less);
      assert sorted == [sorted[0]] + sorted[1..];
    }
  }

  lemma {:induction false} InsertSorted<T(!new)>(x: T, sorted: seq<T>, less: Less<T>)
    requires WeakOrder(less) && Sorted(sorted, less)
    ensures Sorted(Insert(x, sorted, less), less)
  {
    if sorted != [] {
      SortedTail(sorted, less);
      if less(x, sorted[0]) {
        forall y | y in sorted ensures !less(y, x) {
          if y != sorted[0] { assert sorted == [sorted[0]] + sorted[1..]; }
        }
        SortedCons(x, sorted, less);
      } else {
        InsertSorted(x, sorted[1..], less);
        InsertMultiset(x, sorted[1..], less);
        SortedCons(sorted[0], Insert(x, sorted[1..], less), less);
      }
    } else {
      SortedCons(x, [], less);
    }
  }

  /** The result is sorted and a rearrangement. */
  lemma {:induction false} SortMeaning<T(!new)>(s: seq<T>, less: Less<T>)
    requires WeakOrder(less)
    ensures Sorted(Sort(s, less), less) && multiset(Sort(s, less)) == multiset(s)
    ensures forall y :: y in Sort(s, less) <==> y in s
    ensures |Sort(s, less)| == |s|
  {
    if s != [] {
      hide WeakOrder, Sorted, Insert;
      var init, x := s[..|s| - 1], s[|s| - 1];
      SortMeaning(init, less);
      InsertMultiset(x, Sort(init, less), less);
      InsertSorted(x, Sort(init, less), less);
      assert s == init + [x];
      assert |multiset(Sort(s, less))| == |multiset(s)|;
    }
  }

  // ----- equal elements keep their sequence

  predicate Tied<T>(less: Less<T>, a: T, b: T) {
    !less(a, b) && !less(b, a)
  }

  /** The elements tied with `a`, in sequence. */
  function TiedWith<T>(s: seq<T>, less: Less<T>, a: T): seq<T> {
    if s == [] then [] else (if Tied(less, s[0], a) then [s[0]] else []) + TiedWith(s[1..], less, a)
  }

  lemma TiedStep<T>(x: T, rest: seq<T>, less: Less<T>, a: T)
    ensures TiedWith([x] + rest, less, a) == (if Tied(less, x, a) then [x] else []) + TiedWith(rest, less, a)
  {
    hide Tied;
    assert ([x] + rest)[1..] == rest;
  }

  lemma NothingTied<T>(less: Less<T>, a: T)
    ensures TiedWith([], less, a) == []
  {
  }

  lemma {:induction false} TiedConcat<T>(s: seq<T>, t: seq<T>, less: Less<T>, a: T)
    ensures TiedWith(s + t, less, a) == TiedWith(s, less, a) + TiedWith(t, less, a)
  {
    hide TiedWith, Tied;
    if s == [] {
      assert s + t == t && [] + TiedWith(t, less, a) == TiedWith(t, less, a);
      NothingTied(less, a);
    } else {
      TiedConcat(s[1..], t, less, a);
      assert s + t == [s[0]] + (s[1..] + t);
      TiedStep(s[0], s[1..] + t, less, a);
      TiedStep(s[0], s[1..], less, a);
      assert s == [s[0]] + s[1..];
      Basics.ConcatAssoc(if Tied(less, s[0], a) then [s[0]] else [], TiedWith(s[1..], less, a), TiedWith(t, less, a));
    }
  }

  lemma {:induction false} NoneTied<T>(s: seq<T>, less: Less<T>, a: T)
    requires forall y <- s :: !Tied(less, y, a)
    ensures TiedWith(s, less, a) == []
  {
    if s != [] {
      assert forall y <- s[1..] :: y in s;
      NoneTied(s[1..], less, a);
    }
  }

  /** What must go in front of a sorted sequence is tied with nothing in it, nor is anything tied with it. */
  lemma NothingTiedBehind<T(!new)>(x: T, sorted: seq<T>, less: Less<T>, a: T)
    requires WeakOrder(less) && Sorted(sorted, less) && sorted != [] && less(x, sorted[0]) && Tied(less, x, a)
    ensures TiedWith(sorted, less, a) == []
  {
    SortedTail(sorted, less);
    forall y | y in sorted ensures !Tied(less, y, a) {
      if y != sorted[0] { assert sorted == [sorted[0]] + sorted[1..]; }
    }
    NoneTied(sorted, less, a);
  }

  lemma {:induction false} InsertStable<T(!new)>(x: T, sorted: seq<T>, less: Less<T>, a: T)
    requires WeakOrder(less) && Sorted(sorted, less)
    ensures TiedWith(Insert(x, sorted, less), less, a) == TiedWith(sorted, less, a) + TiedWith([x], less, a)
  {
    hide WeakOrder, Sorted;
    if sorted != [] {
      if less(x, sorted[0]) {
        TiedConcat([x], sorted, less, a);
        if Tied(less, x, a) { NothingTiedBehind(x, sorted, less, a); }
      } else {
        SortedTail(sorted, less);
        InsertStable(x, sorted[1..], less, a);
        TiedConcat([sorted[0]], Insert(x, sorted[1..], less), less, a);
        TiedConcat([sorted[0]], sorted[1..], less, a);
        assert sorted == [sorted[0]] + sorted[1..];
      }
    }
  }

  lemma {:induction false} SortStable<T(!new)>(s: seq<T>, less: Less<T>, a: T)
    requires WeakOrder(less)
    ensures TiedWith(Sort(s, less), less, a) == TiedWith(s, less, a)
  {
    if s != [] {
      hide WeakOrder, Sorted, Insert, TiedWith;
      var init, x := s[..|s| - 1], s[|s| - 1];
      SortStable(init, less, a);
      SortMeaning(init, less);
      InsertStable(x, Sort(init, less), less, a);
      TiedConcat(init, [x], less, a);
      assert s == init + [x];
    }
  }

  // ----- relations between the elements

  /** Every two elements at different places are related, in sequence. */
  ghost predicate Pairwise<T(!new)>(s: seq<T>, related: (T, T) -> bool) {
    forall i, j :: 0 <= i < j < |s| ==> related(s[i], s[j])
  }

  ghost predicate Symmetric<T(!new)>(related: (T, T) -> bool) {
    forall a, b :: related(a, b) ==> related(b, a)
  }

  lemma PairwiseTail<T(!new)>(s: seq<T>, related: (T, T) -> bool)
    requires Pairwise(s, related) && s != []
    ensures Pairwise(s[1..], related) && forall y <- s[1..] :: related(s[0], y)
  {
    assert forall i :: 0 <= i < |s| - 1 ==> s[1..][i] == s[i + 1];
  }

  lemma PairwiseCons<T(!new)>(x: T, s: seq<T>, related: (T, T) -> bool)
    requires Pairwise(s, related) && forall y <- s :: related(x, y)
    ensures Pairwise([x] + s, related)
  {
    forall i, j | 0 <= i < j < |s| + 1 ensures related(([x] + s)[i], ([x] + s)[j]) {
      assert ([x] + s)[j] == s[j - 1] && s[j - 1] in s;
      if i > 0 { assert ([x] + s)[i] == s[i - 1]; }
    }
  }

  lemma {:induction false} InsertPairwise<T(!new)>(x: T, s: seq<T>, less: Less<T>, related: (T, T) -> bool)
    requires Symmetric(related) && Pairwise(s, related) && forall y <- s :: related(x, y)
    ensures Pairwise(Insert(x, s, less), related)
  {
    hide Pairwise;
    if s == [] || less(x, s[0]) {
      PairwiseCons(x, s, related);
    } else {
      PairwiseTail(s, related);
      assert s == [s[0]] + s[1..];
      InsertPairwise(x, s[1..], less, related);
      InsertMultiset(x, s[1..], less);
      PairwiseCons(s[0], Insert(x, s[1..], less), related);
    }
  }

  /** Sorting keeps every symmetric relation between the elements. */
  lemma {:induction false} SortPairwise<T(!new)>(s: seq<T>, less: Less<T>, related: (T, T) -> bool)
    requires Symmetric(related) && Pairwise(s, related)
    ensures Pairwise(Sort(s, less), related)
  {
    if s != [] {
      var init, x := s[..|s| - 1], s[|s| - 1];
      SortPairwise(init, less, related);
      SortMembers(init, less);
      InsertPairwise(x, Sort(init, less), less, related);
    }
  }

  lemma {:induction false} SortMembers<T>(s: seq<T>, less: Less<T>)
    ensures forall y :: y in Sort(s, less) <==> y in s
  {
    if s != [] {
      var init, x := s[..|s| - 1], s[|s| - 1];
      SortMembers(init, less);
      InsertMultiset(x, Sort(init, less), less);
      assert s == init + [x];
    }
  }

  lemma FirstIsFirst<T(!new)>(a: seq<T>, b: seq<T>, less: Less<T>)
    requires WeakOrder(less) && Pairwise(a, less) && Pairwise(b, less)
    requires a != [] && b != [] && a[0] in b && b[0] in a
    ensures a[0] == b[0]
  {
    var i :| 0 <= i < |b| && b[i] == a[0];
    var j :| 0 <= j < |a| && a[j] == b[0];
    assert i > 0 ==> less(b[0], b[i]);
    assert j > 0 ==> less(a[0], a[j]);
  }

  lemma StrictTail<T(!new)>(s: seq<T>, less: Less<T>)
    requires WeakOrder(less) && Pairwise(s, less) && s != []
    ensures Pairwise(s[1..], less) && forall y :: y in s[1..] <==> y in s && y != s[0]
  {
    PairwiseTail(s, less);
    assert s == [s[0]] + s[1..];
    assert !less(s[0], s[0]);
  }

  /** Without ties there is one way to arrange a set. */
  lemma {:induction false} StrictUnique<T(!new)>(a: seq<T>, b: seq<T>, less: Less<T>)
    requires WeakOrder(less) && Pairwise(a, less) && Pairwise(b, less) && forall y :: y in a <==> y in b
    ensures a == b
  {
    assert (a != [] ==> a[0] in b) && (b != [] ==> b[0] in a);
    if a != [] && b != [] {
      hide Pairwise, WeakOrder;
      FirstIsFirst(a, b, less);
      StrictTail(a, less);
      StrictTail(b, less);
      StrictUnique(a[1..], b[1..], less);
      assert a == [a[0]] + a[1..] && b == [b[0]] + b[1..];
    }
  }
}
