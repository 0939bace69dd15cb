/** The geometry of a tide-table page: eight column bands, and which month each column holds. */
module Layout {
  import opened Wrappers

  /** Half-open horizontal bands [lo, hi) of the eight columns, in page coordinates. */
  const COLUMN_RANGES: seq<(int, int)> :=
    [(30, 92), (92, 155), (155, 222), (222, 293), (293, 357), (357, 428), (428, 492), (492, 600)]

  /** The chart pages, as (zero-based page index, the four zero-based months it holds), in the
      order the extractor visits them. */
  const PAGE_MAP: seq<(nat, seq<nat>)> :=
    [(1, [0, 1, 2, 3]), (2, [4, 5, 6, 7]), (3, [8, 9, 10, 11])]

  predicate InBand(x: real, i: nat)
    requires i < |COLUMN_RANGES|
  {
    COLUMN_RANGES[i].0 as real <= x < COLUMN_RANGES[i].1 as real
  }

  /** The first band, from band `i` on, that holds `x`; -1 when there is none. */
  function FindBand(x: real, i: nat): (r: int)
    requires i <= |COLUMN_RANGES|
    decreases |COLUMN_RANGES| - i
    ensures r == -1 || (i <= r < |COLUMN_RANGES| && InBand(x, r))
    ensures r == -1 <==> forall k :: i <= k < |COLUMN_RANGES| ==> !InBand(x, k)
    ensures forall k :: i <= k < |COLUMN_RANGES| && (r == -1 || k < r) ==> !InBand(x, k)
  {
    if i == |COLUMN_RANGES| then -1
    else if InBand(x, i) then i
    else FindBand(x, i + 1)
  }

  /** The column (0..7) whose band holds the horizontal offset `x`, or -1 when none does. */
  function ColumnIndex(x: real): (r: int)
    ensures -1 <= r < |COLUMN_RANGES|
    ensures r != -1 ==> InBand(x, r)
    ensures r == -1 <==> forall k :: 0 <= k < |COLUMN_RANGES| ==> !InBand(x, k)
  {
    FindBand(x, 0)
  }

  /** Each band is non-empty and starts where the previous one ends. */
  lemma BandsContiguous()
    ensures forall i :: 0 <= i < |COLUMN_RANGES| ==> COLUMN_RANGES[i].0 < COLUMN_RANGES[i].1
    ensures forall i :: 0 < i < |COLUMN_RANGES| ==> COLUMN_RANGES[i - 1].1 == COLUMN_RANGES[i].0
  {
  }

  /** No offset lies in two bands. */
  lemma BandsDisjoint(x: real, i: nat, j: nat)
    requires i < j < |COLUMN_RANGES| && InBand(x, i)
    ensures !InBand(x, j)
  {
    BandsContiguous();
  }

  /** The column index is `i` exactly when `x` lies in band `i`. */
  lemma ColumnIndexExact(x: real, i: nat)
    requires i < |COLUMN_RANGES|
    ensures ColumnIndex(x) == i <==> InBand(x, i)
  {
    var r := ColumnIndex(x);
    if InBand(x, i) && r != i {
      if r < i {
        BandsDisjoint(x, r, i);
      }
    }
  }

  /** Every offset in [30, 600) gets a column, and no other offset does. */
  lemma ColumnIndexCovers(x: real)
    ensures ColumnIndex(x) != -1 <==> 30.0 <= x < 600.0
  {
  }

  /** The month held by column `col` of a page holding `months`: columns pair up, two per
      month (first and second half); None when the page lists too few months. */
  function MonthOfColumn(months: seq<nat>, col: nat): (r: Option<nat>)
    ensures r.Some? <==> col / 2 < |months|
    ensures r.Some? ==> r.value in months
  {
    var offset := col / 2;
    if offset >= |months| then None else Some(months[offset])
  }

  /** Page entry `k` holds months 4k..4k+3, so column `col` holds month 4k + col / 2. */
  lemma ColumnMonth(k: nat, col: nat)
    requires k < |PAGE_MAP| && col < |COLUMN_RANGES|
    ensures PAGE_MAP[k].0 == k + 1
    ensures MonthOfColumn(PAGE_MAP[k].1, col) == Some(4 * k + col / 2)
  {
  }

  /** Every month of the year is held by exactly two columns, on exactly one page. */
  lemma MonthHalves(m: nat, k: nat, col: nat)
    requires m < 12 && k < |PAGE_MAP| && col < |COLUMN_RANGES|
    ensures MonthOfColumn(PAGE_MAP[k].1, col) == Some(m) <==> k == m / 4 && col / 2 == m % 4
  {
    ColumnMonth(k, col);
  }
}
