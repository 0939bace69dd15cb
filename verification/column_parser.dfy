/** The per-column parser: reading order, the token stream, and the one-token-lookahead
    state machine that turns tokens into dated tide records. */
module ColumnParser {
  import opened Wrappers
  import opened Text
  import opened Calendar
  import opened Tokens
  import opened Tides
  import opened Sorting

  /** A positioned word from the page: its text, its vertical position (already rounded to a
      whole unit) and its left offset. */
  datatype Word = Word(text: string, top: int, x0: real)

  /** Reading order: by row, then left to right (the key `(round(top), x0)`). */
  predicate WordLess(a: Word, b: Word) {
    a.top < b.top || (a.top == b.top && a.x0 < b.x0)
  }

  lemma WordLessOrder()
    ensures StrictWeakOrder(WordLess)
  {
  }

  /** The tokens of the words in order, fused weekday+time words split in two. */
  function TokenStream(ws: seq<Word>): (toks: seq<string>)
    ensures |ws| <= |toks| <= 2 * |ws|
  {
    if ws == [] then [] else TokenStream(ws[..|ws| - 1]) + ParseMergedText(ws[|ws| - 1].text)
  }

  /** The stream continues with a time whose next token is an accepted height. */
  predicate PairAt(toks: seq<string>, i: nat) {
    i + 1 < |toks| && IsTimeToken(toks[i]) && IsHeight(toks[i + 1])
  }

  function HeightAt(toks: seq<string>, i: nat): (h: real)
    requires PairAt(toks, i)
    ensures 0.0 <= h <= 2.5
  {
    ParseHeight(toks[i + 1]).value
  }

  /** How many tokens the parser consumes at position `i`. */
  function Width(toks: seq<string>, i: nat): (w: nat)
    requires i < |toks|
    ensures w == 1 || w == 2
    ensures i + w <= |toks|
  {
    if PairAt(toks, i) then 2 else 1
  }

  /** The current day after the parser reads position `i`. */
  function NextDay(toks: seq<string>, i: nat, day: Option<nat>): Option<nat>
    requires i < |toks|
  {
    if IsDayToken(toks[i]) then Some(DayValue(toks[i])) else day
  }

  /** A record of a column for zero-based month `monthIdx`: its date lies in that month of the
      year, its height in [0.0, 2.5], its time is "HH:MM", and it has no type yet. */
  predicate ValidEntry(e: Tide, monthIdx: int) {
    && 0 <= monthIdx < 12
    && e.date in MonthDates(monthIdx + 1, MonthLength(monthIdx + 1))
    && 0.0 <= e.height <= 2.5
    && IsClockText(e.time)
    && e.kind == None
  }

  /** The record a time/height pair yields: one when a day has been read and it is a valid
      date of the month, none otherwise. */
  function EntryFor(time: string, height: real, day: Option<nat>, monthIdx: int): (r: seq<Tide>)
    requires IsTimeToken(time) && 0.0 <= height <= 2.5
    ensures |r| <= 1
    ensures |r| == 1 <==> day.Some? && ValidDate(monthIdx + 1, day.value)
    ensures |r| == 1 ==> ValidEntry(r[0], monthIdx)
  {
    if day.Some? && ValidDate(monthIdx + 1, day.value) then
      MonthDatesMember(monthIdx + 1, MonthLength(monthIdx + 1), monthIdx + 1, day.value);
      [Tide(IsoDate(monthIdx + 1, day.value), FormatTime(time), height, None)]
    else []
  }

  /** What the parser emits when it reads position `i`: a time followed by an accepted
      height yields the record `EntryFor` gives; a day token or any other token yields
      nothing. */
  function Emit(toks: seq<string>, i: nat, day: Option<nat>, monthIdx: int): (r: seq<Tide>)
    requires i < |toks|
    ensures |r| <= 1
    ensures |r| == 1 ==> ValidEntry(r[0], monthIdx)
  {
    if PairAt(toks, i) then EntryFor(toks[i], HeightAt(toks, i), day, monthIdx) else []
  }

  /** The records the parser emits from position `i` on, with `day` the current day: at each
      position it emits what `Emit` gives, moves on by `Width` tokens and holds the day
      `NextDay` gives. */
  function Run(toks: seq<string>, i: nat, day: Option<nat>, monthIdx: int): (r: seq<Tide>)
    requires i <= |toks|
    decreases |toks| - i
  {
    if i == |toks| then [] else
      Emit(toks, i, day, monthIdx) + Run(toks, i + Width(toks, i), NextDay(toks, i, day), monthIdx)
  }

  /** The records of one column whose words, in reading order, are `ws`. */
  function ColumnEntries(ws: seq<Word>, monthIdx: int): seq<Tide> {
    Run(TokenStream(ws), 0, None, monthIdx)
  }

  // The positions the parser reads, and the day it holds at each of them.

  /** The parser, started at `i`, reads position `p`. */
  predicate Visits(toks: seq<string>, i: nat, p: nat)
    requires i <= |toks|
    decreases |toks| - i
  {
    if p == i then true
    else if p < i || i == |toks| then false
    else Visits(toks, i + Width(toks, i), p)
  }

  /** The current day when the parser, started at `i` with `day`, reaches position `p`. */
  function DayAt(toks: seq<string>, i: nat, day: Option<nat>, p: nat): Option<nat>
    requires i <= |toks|
    decreases |toks| - i
  {
    if p <= i || i == |toks| then day
    else DayAt(toks, i + Width(toks, i), NextDay(toks, i, day), p)
  }

  /** The positions of the times that produced the records of `Run`, in order. */
  ghost function Sources(toks: seq<string>, i: nat, day: Option<nat>, monthIdx: int): seq<nat>
    requires i <= |toks|
    decreases |toks| - i
  {
    if i == |toks| then [] else
      (if |Emit(toks, i, day, monthIdx)| == 1 then [i] else [])
      + Sources(toks, i + Width(toks, i), NextDay(toks, i, day), monthIdx)
  }

  /** Record `e` is the one the time at position `p` yields, for a parser started at `i`
      with `day`: the parser reads `p`, an accepted height follows it, and the day current
      there makes a valid date of the month. */
  ghost predicate Produced(toks: seq<string>, i: nat, day: Option<nat>, monthIdx: int, p: nat, e: Tide)
    requires i <= |toks|
  {
    && i <= p
    && Visits(toks, i, p)
    && PairAt(toks, p)
    && EntryFor(toks[p], HeightAt(toks, p), DayAt(toks, i, day, p), monthIdx) == [e]
  }

  /** What a produced record holds: the time token as "HH:MM", the height after it, and the
      date of the day the parser held. */
  lemma ProducedRecord(toks: seq<string>, i: nat, day: Option<nat>, monthIdx: int, p: nat, e: Tide)
    requires i <= |toks| && Produced(toks, i, day, monthIdx, p, e)
    ensures DayAt(toks, i, day, p).Some? && ValidDate(monthIdx + 1, DayAt(toks, i, day, p).value)
    ensures e.date == IsoDate(monthIdx + 1, DayAt(toks, i, day, p).value)
    ensures e.time == FormatTime(toks[p]) && e.height == HeightAt(toks, p) && e.kind == None
  {
  }

  lemma ProducedStep(toks: seq<string>, i: nat, day: Option<nat>, monthIdx: int, p: nat, e: Tide)
    requires i < |toks| && i < p
    requires Produced(toks, i + Width(toks, i), NextDay(toks, i, day), monthIdx, p, e)
    ensures Produced(toks, i, day, monthIdx, p, e)
  {
  }

  /** Records appear in stream order, each from a time token of its own: the times that
      produced two consecutive records are at least two tokens apart. */
  lemma {:induction false} SourcesOrdered(toks: seq<string>, i: nat, day: Option<nat>, monthIdx: int)
    requires i <= |toks|
    decreases |toks| - i
    ensures var src := Sources(toks, i, day, monthIdx);
      && |src| == |Run(toks, i, day, monthIdx)|
      && (forall k :: 0 <= k < |src| ==> i <= src[k])
      && (forall k :: 0 < k < |src| ==> src[k - 1] + 2 <= src[k])
  {
    if i < |toks| {
      SourcesOrdered(toks, i + Width(toks, i), NextDay(toks, i, day), monthIdx);
    }
  }

  /** Record `k` of a run comes from a time token the parser read, paired with the height
      after it, and is dated with the day the parser held at that point. */
  lemma {:induction false} RunSourceAt(toks: seq<string>, i: nat, day: Option<nat>, monthIdx: int, k: nat)
    requires i <= |toks| && k < |Run(toks, i, day, monthIdx)|
    decreases |toks| - i
    ensures k < |Sources(toks, i, day, monthIdx)|
    ensures Produced(toks, i, day, monthIdx, Sources(toks, i, day, monthIdx)[k], Run(toks, i, day, monthIdx)[k])
  {
    var here, j, d := Emit(toks, i, day, monthIdx), i + Width(toks, i), NextDay(toks, i, day);
    var rest, r := Sources(toks, j, d, monthIdx), Run(toks, j, d, monthIdx);
    assert Run(toks, i, day, monthIdx) == here + r;
    if |here| == 1 {
      assert Sources(toks, i, day, monthIdx) == [i] + rest;
    } else {
      assert Sources(toks, i, day, monthIdx) == rest;
    }
    if k >= |here| {
      RunSourceAt(toks, j, d, monthIdx, k - |here|);
      ProducedStep(toks, i, day, monthIdx, rest[k - |here|], r[k - |here|]);
    }
  }

  /** Every record of a run is produced, in order, by a time token the parser read. */
  lemma RunSources(toks: seq<string>, i: nat, day: Option<nat>, monthIdx: int)
    requires i <= |toks|
    ensures var src, r := Sources(toks, i, day, monthIdx), Run(toks, i, day, monthIdx);
      && |src| == |r|
      && forall k :: 0 <= k < |src| ==> Produced(toks, i, day, monthIdx, src[k], r[k])
  {
    SourcesOrdered(toks, i, day, monthIdx);
    forall k | 0 <= k < |Run(toks, i, day, monthIdx)|
      ensures Produced(toks, i, day, monthIdx, Sources(toks, i, day, monthIdx)[k], Run(toks, i, day, monthIdx)[k])
    {
      RunSourceAt(toks, i, day, monthIdx, k);
    }
  }

  /** Without a day read so far and no day token ahead, the parser emits nothing. */
  lemma {:induction false} NoDayNoEntries(toks: seq<string>, i: nat, monthIdx: int)
    requires i <= |toks|
    requires forall k :: i <= k < |toks| ==> !IsDayToken(toks[k])
    decreases |toks| - i
    ensures Run(toks, i, None, monthIdx) == []
  {
    if i < |toks| {
      NoDayNoEntries(toks, i + Width(toks, i), monthIdx);
    }
  }

  /** The token after an accepted time is consumed as its height and never read on its own,
      even when it looks like a day number ("2" reads as 2.0). */
  lemma {:induction false} HeightNeverRead(toks: seq<string>, i: nat, p: nat)
    requires i <= |toks| && Visits(toks, i, p) && PairAt(toks, p)
    decreases |toks| - i
    ensures !Visits(toks, i, p + 1)
  {
    var w := Width(toks, i);
    if p == i {
      assert w == 2 && !Visits(toks, i + w, p + 1);
    } else {
      HeightNeverRead(toks, i + w, p);
    }
    assert Visits(toks, i, p + 1) == Visits(toks, i + w, p + 1);
  }

  /** The day held at a position is the one set by the most recent token the parser read as
      a day, or the starting day when it read none. */
  lemma {:induction false} DayAtMostRecent(toks: seq<string>, i: nat, day: Option<nat>, p: nat)
    requires i <= p <= |toks| && Visits(toks, i, p)
    decreases |toks| - i
    ensures (forall q :: i <= q < p && Visits(toks, i, q) ==> !IsDayToken(toks[q]))
      ==> DayAt(toks, i, day, p) == day
    ensures forall q ::
      (i <= q < p && Visits(toks, i, q) && IsDayToken(toks[q])
        && (forall r :: q < r < p && Visits(toks, i, r) ==> !IsDayToken(toks[r])))
      ==> DayAt(toks, i, day, p) == Some(DayValue(toks[q]))
  {
    if p != i {
      var w, d := Width(toks, i), NextDay(toks, i, day);
      DayAtMostRecent(toks, i + w, d, p);
      assert DayAt(toks, i, day, p) == DayAt(toks, i + w, d, p);
      forall q | i < q
        ensures Visits(toks, i, q) == Visits(toks, i + w, q)
      {
      }
    }
  }

  /** Every record a run emits is a valid record of the month. */
  lemma {:induction false} RunValid(toks: seq<string>, i: nat, day: Option<nat>, monthIdx: int)
    requires i <= |toks|
    decreases |toks| - i
    ensures forall k :: 0 <= k < |Run(toks, i, day, monthIdx)| ==> ValidEntry(Run(toks, i, day, monthIdx)[k], monthIdx)
  {
    if i < |toks| {
      var here, rest := Emit(toks, i, day, monthIdx), Run(toks, i + Width(toks, i), NextDay(toks, i, day), monthIdx);
      RunValid(toks, i + Width(toks, i), NextDay(toks, i, day), monthIdx);
      assert Run(toks, i, day, monthIdx) == here + rest;
    }
  }

  /** Every record uses up two tokens, so a run from `i` yields at most half of the tokens
      left. */
  lemma {:induction false} RunCount(toks: seq<string>, i: nat, day: Option<nat>, monthIdx: int)
    requires i <= |toks|
    decreases |toks| - i
    ensures 2 * |Run(toks, i, day, monthIdx)| <= |toks| - i
  {
    if i < |toks| {
      RunCount(toks, i + Width(toks, i), NextDay(toks, i, day), monthIdx);
    }
  }

  /** A column yields at most one record per two tokens, hence at most one per word. */
  lemma ColumnEntriesCount(ws: seq<Word>, monthIdx: int)
    ensures 2 * |ColumnEntries(ws, monthIdx)| <= |TokenStream(ws)|
    ensures |ColumnEntries(ws, monthIdx)| <= |ws|
  {
    RunCount(TokenStream(ws), 0, None, monthIdx);
  }

  lemma DayStep(toks: seq<string>, i: nat, day: Option<nat>, monthIdx: int)
    requires i < |toks| && IsDayToken(toks[i])
    ensures Run(toks, i, day, monthIdx) == Run(toks, i + 1, Some(DayValue(toks[i])), monthIdx)
  {
    DayAndTimeExclusive(toks[i]);
    assert Run(toks, i, day, monthIdx) == [] + Run(toks, i + 1, Some(DayValue(toks[i])), monthIdx);
  }

  lemma PairStep(toks: seq<string>, i: nat, day: Option<nat>, monthIdx: int)
    requires PairAt(toks, i)
    ensures !IsDayToken(toks[i])
    ensures Run(toks, i, day, monthIdx) == EntryFor(toks[i], HeightAt(toks, i), day, monthIdx) + Run(toks, i + 2, day, monthIdx)
  {
    DayAndTimeExclusive(toks[i]);
  }

  lemma SkipStep(toks: seq<string>, i: nat, day: Option<nat>, monthIdx: int)
    requires i < |toks| && !IsDayToken(toks[i]) && !PairAt(toks, i)
    ensures Run(toks, i, day, monthIdx) == Run(toks, i + 1, day, monthIdx)
  {
    assert Run(toks, i, day, monthIdx) == [] + Run(toks, i + 1, day, monthIdx);
  }

  lemma AppendAssoc(a: seq<Tide>, b: seq<Tide>, c: seq<Tide>)
    ensures a + b + c == a + (b + c)
  {
  }

  /** The token stream of words already in reading order: each word's text, with a fused
      weekday+time word split in two. */
  method Tokenize(words: array<Word>) returns (toks: seq<string>)
    ensures toks == TokenStream(words[..])
  {
    toks := [];
    for k := 0 to words.Length
      invariant toks == TokenStream(words[..k])
    {
      assert words[..k + 1][..k] == words[..k];
      toks := toks + ParseMergedText(words[k].text);
    }
    assert words[..words.Length] == words[..];
  }

  /** The day/time/height state machine over a token stream: a day token sets the current
      day; a time followed by a height in [0.0, 2.5] consumes both and yields a record when
      the current day makes a valid date of the month; any other token is skipped. */
  method ParseTokens(toks: seq<string>, monthIdx: int) returns (entries: seq<Tide>)
    ensures entries == Run(toks, 0, None, monthIdx)
  {
    ghost var total := Run(toks, 0, None, monthIdx);
    var i := 0;
    var currentDay: Option<nat> := None;
    entries := [];
    while i < |toks|
      invariant 0 <= i <= |toks|
      invariant entries + Run(toks, i, currentDay, monthIdx) == total
      decreases |toks| - i
    {
      var token := toks[i];
      if IsDayToken(token) {
        DayStep(toks, i, currentDay, monthIdx);
        currentDay := Some(DayValue(token));
        i := i + 1;
        continue;
      }
      if IsTimeToken(token) && i + 1 < |toks| {
        var height := ParseHeight(toks[i + 1]);
        if height.Some? && 0.0 <= height.value <= 2.5 {
          PairStep(toks, i, currentDay, monthIdx);
          ghost var here, before := EntryFor(token, height.value, currentDay, monthIdx), entries;
          if currentDay.Some? && ValidDate(monthIdx + 1, currentDay.value) {
            entries := entries + [Tide(IsoDate(monthIdx + 1, currentDay.value), FormatTime(token), height.value, None)];
          }
          assert entries == before + here;
          AppendAssoc(before, here, Run(toks, i + 2, currentDay, monthIdx));
          i := i + 2;
          continue;
        }
        assert !IsHeight(toks[i + 1]);
      }
      SkipStep(toks, i, currentDay, monthIdx);
      i := i + 1;
    }
  }

  /** `extract_from_column`: sorts the column's words in place into reading order, splits
      them into tokens and runs the day/time/height parser; every record is a valid record
      of the month. */
  method ExtractFromColumn(words: array<Word>, monthIdx: int) returns (entries: seq<Tide>)
    modifies words
    ensures words[..] == SortBy(old(words[..]), WordLess)
    ensures entries == ColumnEntries(words[..], monthIdx)
    ensures forall k :: 0 <= k < |entries| ==> ValidEntry(entries[k], monthIdx)
  {
    SortInPlace(words, WordLess);
    var toks := Tokenize(words);
    entries := ParseTokens(toks, monthIdx);
    RunValid(toks, 0, None, monthIdx);
  }
}
