/** The processing of one location: extract every record of the tide-chart document,
    de-duplicate them by date and time, sort and type them, and validate the result. */
module Pipeline {
  import opened Wrappers
  import opened Text
  import opened Calendar
  import opened Tokens
  import opened Tides
  import opened Sorting
  import opened ColumnParser
  import opened Extract
  import opened Dedup
  import opened Classify
  import opened Validate

  /** The records written for a location whose document has the pages `pages`. */
  function LocationTides(pages: seq<seq<Word>>): seq<Tide> {
    ClassifySpec(DedupSpec(AllEntries(pages)))
  }

  /** A written record: a date of the year, an "HH:MM" time, a height in [0.0, 2.5], a type. */
  predicate OutputTide(e: Tide) {
    && e.date in YearDates()
    && IsClockText(e.time)
    && 0.0 <= e.height <= 2.5
    && e.kind.Some?
  }

  /** Typing a record keeps its key. */
  lemma LabelledKeys(s: seq<Tide>)
    ensures Keys(Labelled(s)) == Keys(s)
    ensures Keys(Unlabelled(s)) == Keys(s)
  {
    forall k | k in Keys(s)
      ensures k in Keys(Labelled(s)) && k in Keys(Unlabelled(s))
    {
      var e :| e in s && Key(e) == k;
      var i :| 0 <= i < |s| && s[i] == e;
      assert Labelled(s)[i] in Labelled(s) && Unlabelled(s)[i] in Unlabelled(s);
    }
    forall k | k in Keys(Labelled(s))
      ensures k in Keys(s)
    {
      var e :| e in Labelled(s) && Key(e) == k;
      var i :| 0 <= i < |s| && Labelled(s)[i] == e;
      assert s[i] in s;
    }
    forall k | k in Keys(Unlabelled(s))
      ensures k in Keys(s)
    {
      var e :| e in Unlabelled(s) && Key(e) == k;
      var i :| 0 <= i < |s| && Unlabelled(s)[i] == e;
      assert s[i] in s;
    }
  }

  /** Reordering keeps the keys. */
  lemma PermutationKeys(a: seq<Tide>, b: seq<Tide>)
    requires multiset(a) == multiset(b)
    ensures Keys(a) == Keys(b)
  {
    forall e | e in a
      ensures e in b
    {
      assert e in multiset(a);
    }
    forall e | e in b
      ensures e in a
    {
      assert e in multiset(b);
    }
  }

  /** The de-duplicated records are records the extractor produced. */
  lemma DedupFromInput(s: seq<Tide>)
    ensures forall e :: e in DedupSpec(s) ==> e in s
  {
    DedupProperties(s);
    var r := DedupSpec(s);
    forall e | e in r
      ensures e in s
    {
      var i :| 0 <= i < |r| && r[i] == e;
    }
  }

  /** Classifying untyped records keeps the keys and, when the keys are distinct, keeps
      them distinct. */
  lemma ClassifyKeys(s: seq<Tide>)
    requires forall i :: 0 <= i < |s| ==> s[i].kind == None
    ensures Keys(ClassifySpec(s)) == Keys(s)
    ensures DistinctKeys(s) ==> DistinctKeys(ClassifySpec(s))
  {
    var r := ClassifySpec(s);
    ClassifyPermutation(s);
    PermutationKeys(Unlabelled(r), s);
    LabelledKeys(r);
    KeysCard(s);
    KeysCard(r);
  }

  /** Every written record is dated in the year, timed "HH:MM", within the height range and
      typed. */
  lemma LocationTidesValid(pages: seq<seq<Word>>)
    ensures forall e :: e in LocationTides(pages) ==> OutputTide(e)
  {
    var raw := AllEntries(pages);
    var clean := DedupSpec(raw);
    AllEntriesRaw(pages);
    DedupFromInput(raw);
    assert forall i :: 0 <= i < |clean| ==> clean[i].kind == None by {
      forall i | 0 <= i < |clean|
        ensures clean[i].kind == None
      {
        assert clean[i] in clean;
      }
    }
    ClassifyPermutation(clean);
    var r := LocationTides(pages);
    forall e | e in r
      ensures OutputTide(e)
    {
      var i :| 0 <= i < |r| && r[i] == e;
      ClassifyTypes(SortBy(clean, KeyLess), i);
      assert Unlabelled(r)[i] in multiset(clean);
      assert Unlabelled(r)[i] in clean;
    }
  }

  /** The written records have the keys of the extracted records, one record per key, in
      strictly increasing (date, time) order. */
  lemma LocationTidesOrdered(pages: seq<seq<Word>>)
    ensures Keys(LocationTides(pages)) == Keys(AllEntries(pages))
    ensures forall i, j :: 0 <= i < j < |LocationTides(pages)| ==>
      KeyLess(LocationTides(pages)[i], LocationTides(pages)[j])
  {
    var raw := AllEntries(pages);
    var clean := DedupSpec(raw);
    var r := LocationTides(pages);
    AllEntriesRaw(pages);
    DedupFromInput(raw);
    DedupProperties(raw);
    forall i | 0 <= i < |clean|
      ensures clean[i].kind == None
    {
      assert clean[i] in clean;
    }
    ClassifyKeys(clean);
    ClassifySorted(clean);
    LocationTidesValid(pages);
    forall i, j | 0 <= i < j < |r|
      ensures KeyLess(r[i], r[j])
    {
      assert r[i] in r && r[j] in r;
      YearDatesLength(r[i].date);
      YearDatesLength(r[j].date);
      KeyIdentifies(r[i], r[j]);
      KeyLessTotal(r[i], r[j]);
    }
  }

  /** Validation passes for a location exactly when every day of the year has between one
      and four written records. */
  lemma LocationValidation(pages: seq<seq<Word>>)
    ensures ValidateSpec(LocationTides(pages)) == [] <==>
      forall d :: d in YearDates() ==> 1 <= CountOn(LocationTides(pages), d) <= 4
  {
    var r := LocationTides(pages);
    LocationTidesValid(pages);
    assert DatesOf(r) <= YearDates();
    PassesExactly(r);
  }

  /** The body of the per-location loop: extract, de-duplicate through an insertion-ordered
      dictionary, classify in place, then validate. */
  method ProcessLocation(pages: seq<seq<Word>>) returns (tides: seq<Tide>, issues: seq<Issue>)
    ensures tides == LocationTides(pages)
    ensures issues == ValidateSpec(tides)
  {
    var raw := ExtractAll(pages);
    var clean := Deduplicate(raw);
    var records := new Tide[|clean|](i requires 0 <= i < |clean| => clean[i]);
    assert records[..] == clean;
    ClassifyTides(records);
    tides := records[..];
    issues := ValidateData(tides);
  }
}
