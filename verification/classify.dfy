/** Sorting the records by (date, time) and marking each one high or low from its height and
    the heights of its neighbours. */
module Classify {
  import opened Wrappers
  import opened Tides
  import opened Sorting

  /** The height of the record before `i`; the first record is its own predecessor. */
  function PrevHeight(s: seq<Tide>, i: nat): real
    requires i < |s|
  {
    if i > 0 then s[i - 1].height else s[i].height
  }

  /** The height of the record after `i`; the last record is its own successor. */
  function NextHeight(s: seq<Tide>, i: nat): real
    requires i < |s|
  {
    if i < |s| - 1 then s[i + 1].height else s[i].height
  }

  /** Strictly higher than both neighbours. */
  predicate IsPeak(s: seq<Tide>, i: nat)
    requires i < |s|
  {
    s[i].height > PrevHeight(s, i) && s[i].height > NextHeight(s, i)
  }

  /** Strictly lower than both neighbours. */
  predicate IsTrough(s: seq<Tide>, i: nat)
    requires i < |s|
  {
    s[i].height < PrevHeight(s, i) && s[i].height < NextHeight(s, i)
  }

  /** The type of record `i`: a peak is high, a trough is low, and any other record is high
      when it is above 0.8 m. */
  function TypeAt(s: seq<Tide>, i: nat): TideType
    requires i < |s|
  {
    if IsPeak(s, i) then High
    else if IsTrough(s, i) then Low
    else if s[i].height > 0.8 then High
    else Low
  }

  /** The records with their types set. */
  function Labelled(s: seq<Tide>): (r: seq<Tide>)
    ensures |r| == |s|
  {
    seq(|s|, i requires 0 <= i < |s| => s[i].(kind := Some(TypeAt(s, i))))
  }

  /** `classify_tides` as a function of its input: sort by (date, time), then label. */
  function ClassifySpec(s: seq<Tide>): seq<Tide> {
    Labelled(SortBy(s, KeyLess))
  }

  /** The records with their types removed. */
  function Unlabelled(s: seq<Tide>): (r: seq<Tide>)
    ensures |r| == |s|
  {
    seq(|s|, i requires 0 <= i < |s| => s[i].(kind := None))
  }

  /** The (date, time) order is a strict weak order, as Python's sort requires of its keys. */
  lemma KeyLessStrictWeak()
    ensures StrictWeakOrder(KeyLess)
  {
    forall a, b | KeyLess(a, b)
      ensures !KeyLess(b, a)
    {
      KeyLessOrder(a, b, a);
    }
    forall a, b, c | !KeyLess(a, b) && !KeyLess(b, c)
      ensures !KeyLess(a, c)
    {
      KeyLessOrder(a, b, c);
    }
  }

  /** Classifying changes only the types: the records keep their date, time and height, and
      without their types they are the input records, reordered. */
  lemma ClassifyPermutation(s: seq<Tide>)
    requires forall i :: 0 <= i < |s| ==> s[i].kind == None
    ensures |ClassifySpec(s)| == |s|
    ensures multiset(Unlabelled(ClassifySpec(s))) == multiset(s)
  {
    var sorted := SortBy(s, KeyLess);
    SortByPermutation(s, KeyLess);
    forall i | 0 <= i < |sorted|
      ensures sorted[i].kind == None
    {
      assert sorted[i] in multiset(s);
    }
    assert Unlabelled(ClassifySpec(s)) == sorted;
  }

  /** The classified records are in (date, time) order. */
  lemma ClassifySorted(s: seq<Tide>)
    ensures Sorted(ClassifySpec(s), KeyLess)
  {
    KeyLessStrictWeak();
    SortBySorted(s, KeyLess);
  }

  /** Every record gets a type; a peak is high and a trough is low. */
  lemma ClassifyTypes(s: seq<Tide>, i: nat)
    requires i < |s|
    ensures Labelled(s)[i].kind.Some?
    ensures IsPeak(s, i) ==> Labelled(s)[i].kind == Some(High)
    ensures IsTrough(s, i) ==> Labelled(s)[i].kind == Some(Low)
    ensures !IsPeak(s, i) && !IsTrough(s, i) ==>
      (Labelled(s)[i].kind == Some(High) <==> s[i].height > 0.8)
  {
  }

  /** The first and the last record are their own neighbours on one side, so they are never
      peaks or troughs: their type comes from the 0.8 m threshold alone. */
  lemma EdgesByThreshold(s: seq<Tide>, i: nat)
    requires i < |s| && (i == 0 || i == |s| - 1)
    ensures TypeAt(s, i) == if s[i].height > 0.8 then High else Low
  {
  }

  /** Two neighbouring records are never both peaks, nor both troughs. */
  lemma NoAdjacentExtrema(s: seq<Tide>, i: nat)
    requires i + 1 < |s|
    ensures !(IsPeak(s, i) && IsPeak(s, i + 1))
    ensures !(IsTrough(s, i) && IsTrough(s, i + 1))
  {
  }

  /** A record at exactly 0.8 m that is no extremum is low: the threshold is strict. */
  lemma ThresholdStrict(s: seq<Tide>, i: nat)
    requires i < |s| && s[i].height == 0.8 && !IsPeak(s, i) && !IsTrough(s, i)
    ensures TypeAt(s, i) == Low
  {
  }

  /** `classify_tides`: sorts the records in place by (date, time), then sets each one's type
      from its height and its neighbours' heights. */
  method ClassifyTides(tides: array<Tide>)
    modifies tides
    ensures tides[..] == ClassifySpec(old(tides[..]))
  {
    SortInPlace(tides, KeyLess);
    LabelInPlace(tides);
  }

  /** The labelling loop: each record's type is set in turn; types are written only after the
      neighbours' heights are read, and heights never change, so every decision sees the
      sorted heights. */
  method LabelInPlace(tides: array<Tide>)
    modifies tides
    ensures tides[..] == Labelled(old(tides[..]))
  {
    ghost var sorted := tides[..];
    var n := tides.Length;
    for i := 0 to n
      invariant tides[..i] == Labelled(sorted)[..i]
      invariant tides[i..] == sorted[i..]
    {
      assert tides[i] == sorted[i];
      var prevH := if i > 0 then tides[i - 1].height else tides[i].height;
      var nextH := if i < n - 1 then tides[i + 1].height else tides[i].height;
      var curr := tides[i].height;
      assert prevH == PrevHeight(sorted, i) && nextH == NextHeight(sorted, i);
      var t;
      if curr > prevH && curr > nextH {
        t := High;
      } else if curr < prevH && curr < nextH {
        t := Low;
      } else if curr > 0.8 {
        t := High;
      } else {
        t := Low;
      }
      tides[i] := tides[i].(kind := Some(t));
      assert tides[..i + 1] == tides[..i] + [Labelled(sorted)[i]];
      assert Labelled(sorted)[..i + 1] == Labelled(sorted)[..i] + [Labelled(sorted)[i]];
    }
    assert tides[..n] == tides[..];
    assert Labelled(sorted)[..n] == Labelled(sorted);
  }
}
