/** One tide record as the extractor builds it and the classifier annotates it. */
module Tides {
  import opened Wrappers
  import opened Text

  datatype TideType = High | Low

  /** `{'date': "YYYY-MM-DD", 'time': "HH:MM", 'height': metres, 'type': ...}`; the type is
      absent (None) until the classifier sets it. */
  datatype Tide = Tide(date: string, time: string, height: real, kind: Option<TideType>)

  /** The sort key `(date, time)` under Python's tuple and string comparison. */
  predicate KeyLess(a: Tide, b: Tide) {
    LexLess(a.date, b.date) || (a.date == b.date && LexLess(a.time, b.time))
  }

  lemma KeyLessIrreflexive(a: Tide)
    ensures !KeyLess(a, a)
  {
    LexLessIrreflexive(a.date);
    LexLessIrreflexive(a.time);
  }

  lemma KeyLessTransitive(a: Tide, b: Tide, c: Tide)
    requires KeyLess(a, b) && KeyLess(b, c)
    ensures KeyLess(a, c)
  {
    if LexLess(a.date, b.date) && LexLess(b.date, c.date) {
      LexLessTransitive(a.date, b.date, c.date);
    } else if a.date == b.date == c.date {
      LexLessTransitive(a.time, b.time, c.time);
    }
  }

  /** Records with different keys are ordered one way or the other. */
  lemma KeyLessTotal(a: Tide, b: Tide)
    requires a.date != b.date || a.time != b.time
    ensures KeyLess(a, b) || KeyLess(b, a)
  {
    if a.date != b.date {
      LexLessTotal(a.date, b.date);
    } else {
      LexLessTotal(a.time, b.time);
    }
  }

  /** The key order is a strict weak order: records are incomparable exactly when their keys agree. */
  lemma KeyLessOrder(a: Tide, b: Tide, c: Tide)
    ensures KeyLess(a, b) ==> !KeyLess(b, a)
    ensures !KeyLess(a, b) && !KeyLess(b, c) ==> !KeyLess(a, c)
    ensures !KeyLess(a, b) && !KeyLess(b, a) <==> a.date == b.date && a.time == b.time
  {
    KeyLessIrreflexive(a);
    KeyLessIrreflexive(b);
    if KeyLess(a, b) && KeyLess(b, a) {
      KeyLessTransitive(a, b, a);
    }
    if a.date != b.date || a.time != b.time {
      KeyLessTotal(a, b);
    }
    if !KeyLess(a, b) && !KeyLess(b, c) && KeyLess(a, c) {
      if a.date != b.date || a.time != b.time {
        KeyLessTotal(a, b);
        KeyLessTransitive(b, a, c);
      }
    }
  }
}
