/** Python's `list.sort(key=...)`: a stable sort by a strict "less than" on keys.
    Insertion sort is the reference definition; for a strict weak order every
    stable sort produces the same sequence, so this is the order Python produces. */
module Sorting {

  /** What Python's sort needs of `<` on keys: asymmetric, and incomparability is transitive. */
  ghost predicate StrictWeakOrder<T(!new)>(lt: (T, T) -> bool) {
    && (forall a, b :: lt(a, b) ==> !lt(b, a))
    && (forall a, b, c :: !lt(a, b) && !lt(b, c) ==> !lt(a, c))
  }

  /** No element is less than one before it. */
  ghost predicate Sorted<T>(s: seq<T>, lt: (T, T) -> bool) {
    forall i, j :: 0 <= i < j < |s| ==> !lt(s[j], s[i])
  }

  /** Insert `x` after every element it is not less than, scanning from the end. */
  function Insert<T>(x: T, s: seq<T>, lt: (T, T) -> bool): seq<T> {
    if s == [] || !lt(x, s[|s| - 1]) then s + [x]
    else Insert(x, s[..|s| - 1], lt) + [s[|s| - 1]]
  }

  function SortBy<T>(s: seq<T>, lt: (T, T) -> bool): seq<T> {
    if s == [] then [] else Insert(s[|s| - 1], SortBy(s[..|s| - 1], lt), lt)
  }

  lemma {:induction false} InsertPermutation<T>(x: T, s: seq<T>, lt: (T, T) -> bool)
    ensures |Insert(x, s, lt)| == |s| + 1
    ensures multiset(Insert(x, s, lt)) == multiset(s) + multiset{x}
  {
    if s != [] && lt(x, s[|s| - 1]) {
      InsertPermutation(x, s[..|s| - 1], lt);
      assert s == s[..|s| - 1] + [s[|s| - 1]];
    }
  }

  /** Sorting only reorders: the result holds the same elements, as often. */
  lemma {:induction false} SortByPermutation<T>(s: seq<T>, lt: (T, T) -> bool)
    ensures |SortBy(s, lt)| == |s|
    ensures multiset(SortBy(s, lt)) == multiset(s)
  {
    if s != [] {
      var init := s[..|s| - 1];
      SortByPermutation(init, lt);
      InsertPermutation(s[|s| - 1], SortBy(init, lt), lt);
      assert s == init + [s[|s| - 1]];
    }
  }

  lemma {:induction false} InsertSorted<T(!new)>(x: T, s: seq<T>, lt: (T, T) -> bool)
    requires StrictWeakOrder(lt) && Sorted(s, lt)
    ensures Sorted(Insert(x, s, lt), lt)
  {
    if s != [] && lt(x, s[|s| - 1]) {
      var init, last := s[..|s| - 1], s[|s| - 1];
      InsertSorted(x, init, lt);
      InsertPermutation(x, init, lt);
      var r := Insert(x, init, lt);
      forall i | 0 <= i < |r|
        ensures !lt(last, r[i])
      {
        assert r[i] in multiset(r);
        assert r[i] == x || r[i] in multiset(init);
        if r[i] != x {
          var k :| 0 <= k < |init| && init[k] == r[i];
          assert s[k] == r[i];
        }
      }
    }
  }

  /** The sort puts its result in order. */
  lemma {:induction false} SortBySorted<T(!new)>(s: seq<T>, lt: (T, T) -> bool)
    requires StrictWeakOrder(lt)
    ensures Sorted(SortBy(s, lt), lt)
  {
    if s != [] {
      SortBySorted(s[..|s| - 1], lt);
      InsertSorted(s[|s| - 1], SortBy(s[..|s| - 1], lt), lt);
    }
  }

  /** A sequence already in order is left as it is. */
  lemma {:induction false} SortByOfSorted<T>(s: seq<T>, lt: (T, T) -> bool)
    requires Sorted(s, lt)
    ensures SortBy(s, lt) == s
  {
    if s != [] {
      var init := s[..|s| - 1];
      assert Sorted(init, lt);
      SortByOfSorted(init, lt);
      assert s == init + [s[|s| - 1]];
    }
  }

  /** Neither is less than the other: the two have equal keys. */
  predicate Tied<T>(a: T, b: T, lt: (T, T) -> bool) {
    !lt(a, b) && !lt(b, a)
  }

  /** The elements of `s` whose key equals the key of `k`, in their order in `s`. */
  function Ties<T>(s: seq<T>, k: T, lt: (T, T) -> bool): seq<T> {
    if s == [] then []
    else Ties(s[..|s| - 1], k, lt) + (if Tied(s[|s| - 1], k, lt) then [s[|s| - 1]] else [])
  }

  lemma {:induction false} TiesAppend<T>(a: seq<T>, b: seq<T>, k: T, lt: (T, T) -> bool)
    ensures Ties(a + b, k, lt) == Ties(a, k, lt) + Ties(b, k, lt)
  {
    if b != [] {
      var init := b[..|b| - 1];
      TiesAppend(a, init, k, lt);
      assert (a + b)[..|a + b| - 1] == a + init;
    } else {
      assert a + b == a;
    }
  }

  /** Inserting `x` puts it after every element it is not less than; so when `x` is tied with
      `k` and with every tied element, it lands after all of them. */
  lemma {:induction false} InsertTies<T>(x: T, s: seq<T>, k: T, lt: (T, T) -> bool)
    requires Tied(x, k, lt) ==> forall i :: 0 <= i < |s| && Tied(s[i], k, lt) ==> !lt(x, s[i])
    ensures Ties(Insert(x, s, lt), k, lt) == Ties(s, k, lt) + Ties([x], k, lt)
  {
    if s == [] || !lt(x, s[|s| - 1]) {
      TiesAppend(s, [x], k, lt);
    } else {
      var init, last := s[..|s| - 1], s[|s| - 1];
      InsertTies(x, init, k, lt);
      TiesAppend(Insert(x, init, lt), [last], k, lt);
      TiesAppend(init, [last], k, lt);
      assert s == init + [last];
      assert Tied(x, k, lt) ==> !Tied(last, k, lt);
    }
  }

  /** The sort is stable: elements with equal keys keep their input order. */
  lemma {:induction false} SortByStable<T(!new)>(s: seq<T>, k: T, lt: (T, T) -> bool)
    requires StrictWeakOrder(lt)
    ensures Ties(SortBy(s, lt), k, lt) == Ties(s, k, lt)
  {
    if s != [] {
      var init, last := s[..|s| - 1], s[|s| - 1];
      var sorted := SortBy(init, lt);
      SortByStable(init, k, lt);
      forall i | 0 <= i < |sorted| && Tied(last, k, lt) && Tied(sorted[i], k, lt)
        ensures !lt(last, sorted[i])
      {
      }
      InsertTies(last, sorted, k, lt);
      TiesAppend(init, [last], k, lt);
      assert s == init + [last];
    }
  }

  /** `list.sort(key=...)`: the array is rearranged in place into the stable sorted order. */
  method SortInPlace<T>(a: array<T>, lt: (T, T) -> bool)
    modifies a
    ensures a[..] == SortBy(old(a[..]), lt)
  {
    var sorted := SortBy(a[..], lt);
    SortByPermutation(a[..], lt);
    forall k | 0 <= k < a.Length {
      a[k] := sorted[k];
    }
  }
}
