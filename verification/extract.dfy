/** The whole-document pass: the chart pages are visited in order, each page's words are
    binned into the eight column bands, and each column is parsed for the month it holds. */
module Extract {
  import opened Wrappers
  import opened Calendar
  import opened Tokens
  import opened Tides
  import opened Sorting
  import opened Layout
  import opened ColumnParser

  /** What every extracted record satisfies: a date of the year, an "HH:MM" time, a height in
      [0.0, 2.5], and no type yet. */
  predicate RawTide(e: Tide) {
    && e.date in YearDates()
    && IsClockText(e.time)
    && 0.0 <= e.height <= 2.5
    && e.kind == None
  }

  /** The words of a page that fall in the band of column `col`, in page order. */
  function ColumnWords(words: seq<Word>, col: int): (r: seq<Word>)
    ensures |r| <= |words|
  {
    if words == [] then []
    else
      var last := words[|words| - 1];
      ColumnWords(words[..|words| - 1], col) + (if ColumnIndex(last.x0) == col then [last] else [])
  }

  /** The records of column `col` of a page holding `months`: none when the page lists no
      month for the column, otherwise the column's words sorted and parsed for that month. */
  function ColumnPart(words: seq<Word>, months: seq<nat>, col: nat): seq<Tide> {
    match MonthOfColumn(months, col)
    case None => []
    case Some(m) => ColumnEntries(SortBy(ColumnWords(words, col), WordLess), m)
  }

  /** The records of each column of a page, by column index. */
  function Parts(words: seq<Word>, months: seq<nat>): (r: seq<seq<Tide>>)
    ensures |r| == |COLUMN_RANGES|
    ensures forall c :: 0 <= c < |r| ==> r[c] == ColumnPart(words, months, c)
  {
    seq(|COLUMN_RANGES|, c requires 0 <= c => ColumnPart(words, months, c))
  }

  /** The records of several columns, one column after the other. */
  function Concat(parts: seq<seq<Tide>>): seq<Tide> {
    if parts == [] then [] else Concat(parts[..|parts| - 1]) + parts[|parts| - 1]
  }

  /** The records of one page, left column first. */
  function PageEntries(words: seq<Word>, months: seq<nat>): seq<Tide> {
    Concat(Parts(words, months))
  }

  /** The records of the chart pages from entry `k` of the page map on; the pass stops at the
      first chart page the document does not have. */
  function PagesFrom(pages: seq<seq<Word>>, k: nat): seq<Tide>
    requires k <= |PAGE_MAP|
    decreases |PAGE_MAP| - k
  {
    if k == |PAGE_MAP| || PAGE_MAP[k].0 >= |pages| then []
    else PageEntries(pages[PAGE_MAP[k].0], PAGE_MAP[k].1) + PagesFrom(pages, k + 1)
  }

  /** The records of a document whose pages hold the words `pages`. */
  function AllEntries(pages: seq<seq<Word>>): seq<Tide> {
    PagesFrom(pages, 0)
  }

  /** A word lands in column `col` exactly when its offset lies in that column's band. */
  lemma {:induction false} ColumnWordsMember(words: seq<Word>, col: int, w: Word)
    ensures w in ColumnWords(words, col) <==> w in words && ColumnIndex(w.x0) == col
  {
    if words != [] {
      var init := words[..|words| - 1];
      ColumnWordsMember(init, col, w);
      assert words == init + [words[|words| - 1]];
    }
  }

  /** A word lands in at most one column. */
  lemma ColumnWordsDisjoint(words: seq<Word>, c1: int, c2: int, w: Word)
    requires c1 != c2 && w in ColumnWords(words, c1)
    ensures w !in ColumnWords(words, c2)
  {
    ColumnWordsMember(words, c1, w);
    ColumnWordsMember(words, c2, w);
  }

  lemma ValidEntryRaw(e: Tide, m: int)
    requires ValidEntry(e, m)
    ensures RawTide(e)
  {
    MonthDatesShape(m + 1, MonthLength(m + 1), e.date);
    var d: nat :| 1 <= d <= MonthLength(m + 1) && e.date == IsoDate(m + 1, d);
    InYearDates(m + 1, d);
    assert ValidDate(m + 1, d);
    assert e.date in YearDates();
  }

  /** The months a page lists are months of the year. */
  predicate MonthsOfYear(months: seq<nat>) {
    forall i :: 0 <= i < |months| ==> months[i] < 12
  }

  lemma ColumnPartRaw(words: seq<Word>, months: seq<nat>, col: nat)
    requires MonthsOfYear(months)
    ensures forall e :: e in ColumnPart(words, months, col) ==> RawTide(e)
  {
    if MonthOfColumn(months, col).Some? {
      var m := MonthOfColumn(months, col).value;
      var toks := TokenStream(SortBy(ColumnWords(words, col), WordLess));
      RunValid(toks, 0, None, m);
      forall e | e in Run(toks, 0, None, m)
        ensures RawTide(e)
      {
        ValidEntryRaw(e, m);
      }
    }
  }

  lemma {:induction false} ConcatRaw(parts: seq<seq<Tide>>)
    requires forall c, e :: 0 <= c < |parts| && e in parts[c] ==> RawTide(e)
    ensures forall e :: e in Concat(parts) ==> RawTide(e)
  {
    if parts != [] {
      var init, last := parts[..|parts| - 1], parts[|parts| - 1];
      ConcatRaw(init);
      forall e | e in Concat(init) + last
        ensures RawTide(e)
      {
        assert e in Concat(init) || e in last;
      }
    }
  }

  lemma PageEntriesRaw(words: seq<Word>, months: seq<nat>)
    requires MonthsOfYear(months)
    ensures forall e :: e in PageEntries(words, months) ==> RawTide(e)
  {
    var parts := Parts(words, months);
    forall c, e | 0 <= c < |parts| && e in parts[c]
      ensures RawTide(e)
    {
      ColumnPartRaw(words, months, c);
    }
    ConcatRaw(parts);
  }

  lemma {:induction false} PagesFromRaw(pages: seq<seq<Word>>, k: nat)
    requires k <= |PAGE_MAP|
    decreases |PAGE_MAP| - k
    ensures forall e :: e in PagesFrom(pages, k) ==> RawTide(e)
  {
    if k < |PAGE_MAP| && PAGE_MAP[k].0 < |pages| {
      PagesFromRaw(pages, k + 1);
      var (pageIdx, months) := PAGE_MAP[k];
      assert MonthsOfYear(months);
      PageEntriesRaw(pages[pageIdx], months);
      var here, rest := PageEntries(pages[pageIdx], months), PagesFrom(pages, k + 1);
      assert PagesFrom(pages, k) == here + rest;
      forall e | e in here + rest
        ensures RawTide(e)
      {
        assert e in here || e in rest;
      }
    }
  }

  /** Every record of the document is dated in the year, timed "HH:MM", in the height range
      and untyped. */
  lemma AllEntriesRaw(pages: seq<seq<Word>>)
    ensures forall e :: e in AllEntries(pages) ==> RawTide(e)
  {
    PagesFromRaw(pages, 0);
  }

  /** The pages the page map names (zero-based 1, 2 and 3) that a document has. */
  function ChartPages(pages: seq<seq<Word>>): (r: seq<seq<Word>>)
    ensures |r| == if |pages| <= 1 then 0 else if |pages| < 4 then |pages| - 1 else 3
    ensures forall j :: 0 <= j < |r| ==> r[j] == pages[j + 1]
  {
    if |pages| <= 1 then [] else pages[1..if |pages| < 4 then |pages| else 4]
  }

  /** Only the chart pages are read: two documents with the same chart pages yield the same
      records, so the cover page and any page after the fourth never matter. */
  lemma {:induction false} OnlyChartPagesRead(p: seq<seq<Word>>, q: seq<seq<Word>>, k: nat)
    requires k <= |PAGE_MAP| && ChartPages(p) == ChartPages(q)
    decreases |PAGE_MAP| - k
    ensures PagesFrom(p, k) == PagesFrom(q, k)
  {
    if k < |PAGE_MAP| {
      assert PAGE_MAP[k].0 == k + 1;
      if k + 1 < |p| {
        assert p[k + 1] == ChartPages(p)[k] == q[k + 1];
      }
      OnlyChartPagesRead(p, q, k + 1);
    }
  }

  /** A document without its second page yields nothing: the pass stops at once. */
  lemma NoChartNoEntries(pages: seq<seq<Word>>)
    requires |pages| <= 1
    ensures AllEntries(pages) == []
  {
  }

  /** Bins the words of a page into the eight column bands, dropping words outside every band. */
  method BinColumns(words: seq<Word>) returns (columns: seq<seq<Word>>)
    ensures |columns| == |COLUMN_RANGES|
    ensures forall c :: 0 <= c < |COLUMN_RANGES| ==> columns[c] == ColumnWords(words, c)
  {
    columns := seq(|COLUMN_RANGES|, _ => []);
    for j := 0 to |words|
      invariant |columns| == |COLUMN_RANGES|
      invariant forall c :: 0 <= c < |COLUMN_RANGES| ==> columns[c] == ColumnWords(words[..j], c)
    {
      assert words[..j + 1][..j] == words[..j];
      var col := ColumnIndex(words[j].x0);
      if col != -1 {
        columns := columns[col := columns[col] + [words[j]]];
      }
    }
    assert words[..|words|] == words;
  }

  /** Copies a column's word list into an array and processes it as one column. */
  method ExtractColumn(words: seq<Word>, monthIdx: int) returns (entries: seq<Tide>)
    ensures entries == ColumnEntries(SortBy(words, WordLess), monthIdx)
  {
    var column := new Word[|words|](i requires 0 <= i < |words| => words[i]);
    assert column[..] == words;
    entries := ExtractFromColumn(column, monthIdx);
  }

  /** Processes the columns of one page: each column that the page assigns a month is sorted
      and parsed for that month, and its records are appended in column order. */
  method ExtractPage(words: seq<Word>, months: seq<nat>) returns (entries: seq<Tide>)
    ensures entries == PageEntries(words, months)
  {
    var columns := BinColumns(words);
    entries := [];
    ghost var parts := Parts(words, months);
    for col := 0 to |COLUMN_RANGES|
      invariant entries == Concat(parts[..col])
    {
      assert parts[..col + 1][..col] == parts[..col];
      var offset := col / 2;
      if offset >= |months| {
        assert parts[col] == [];
        assert entries + parts[col] == entries;
        continue;
      }
      var colEntries := ExtractColumn(columns[col], months[offset]);
      assert colEntries == parts[col];
      entries := entries + colEntries;
    }
    assert parts[..|COLUMN_RANGES|] == parts;
  }

  /** `extract_all`: visits the chart pages in page-map order, stopping at the first one the
      document lacks, and concatenates their records. */
  method ExtractAll(pages: seq<seq<Word>>) returns (all: seq<Tide>)
    ensures all == AllEntries(pages)
    ensures forall e :: e in all ==> RawTide(e)
  {
    all := [];
    var k := 0;
    while k < |PAGE_MAP|
      invariant 0 <= k <= |PAGE_MAP|
      invariant all + PagesFrom(pages, k) == AllEntries(pages)
    {
      var (pageIdx, months) := PAGE_MAP[k];
      if pageIdx >= |pages| {
        break;
      }
      var pageEntries := ExtractPage(pages[pageIdx], months);
      ghost var rest := PagesFrom(pages, k + 1);
      assert PagesFrom(pages, k) == pageEntries + rest;
      assert all + pageEntries + rest == all + (pageEntries + rest);
      all := all + pageEntries;
      k := k + 1;
    }
    AllEntriesRaw(pages);
  }
}
