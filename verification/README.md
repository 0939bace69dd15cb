# Tide-chart extractor model

A Dafny model of `day4-swantides/extract_tides.py`. The script reads the Bureau of Meteorology
tide-prediction tables for 2026 (eight half-month columns per page, three chart pages) and turns
the positioned words of each page into dated tide records. Each record has an ISO date, an
"HH:MM" time and a height in metres. It then de-duplicates the records by date and time, sorts
them, types each as high or low water, and validates that the year is complete.

The model takes the page words as input: a `Word` is its text, its rounded vertical position and
its left offset. It follows the script stage by stage:

| stage | module | form |
|---|---|---|
| band lookup and column→month mapping | `Layout` | functions |
| splitting a fused weekday+time word | `Tokens` | function |
| the per-column day/time/height parser, in place | `ColumnParser` | array sort, then a `while` loop with a one-token lookahead, proved equal to the function `Run` |
| the page pass | `Extract` | loops proved equal to `AllEntries` |
| the insertion-ordered dictionary | `Dedup` | a loop proved equal to `DedupSpec` |
| sorting and typing | `Classify` | in place on an array, proved equal to `ClassifySpec` |
| the three checks | `Validate` | loops, including the day-by-day walk through 2026, proved equal to `ValidateSpec` |
| the processing of one location | `Pipeline` | the stages composed |

Shared pieces:
- `Calendar`: the 2026 calendar and ISO date strings.
- `Text`: digits and Python's string order.
- `Sorting`: a stable insertion sort, the reference for Python's `list.sort`.
- `Tides`: the record and its sort key.

Heights are exact decimals (`real`), read by a decimal grammar: an optional sign, then digits
on at least one side of an optional point ("2", "1.62", ".5", "1."). Dates and times are
strings. They are compared the way Python compares strings, so the (date, time) sort key is the tuple order of the script.

## Model

| member | source | states |
|---|---|---|
| Layout.ColumnIndex | day4-swantides/extract_tides.py:55-60 | the result is -1 exactly when no band contains x; otherwise x lies in the returned band |
| Layout.ColumnIndexExact | day4-swantides/extract_tides.py:37-60 | the lookup returns i exactly when COLUMN_RANGES[i].min <= x < COLUMN_RANGES[i].max |
| Layout.BandsContiguous | day4-swantides/extract_tides.py:37-46 | every band is non-empty and each band starts where the previous one ends |
| Layout.BandsDisjoint | day4-swantides/extract_tides.py:37-46 | no offset lies in two bands |
| Layout.ColumnIndexCovers | day4-swantides/extract_tides.py:37-60 | an offset gets a column exactly when it lies in [30, 600) |
| Layout.MonthOfColumn | day4-swantides/extract_tides.py:181-185 | a column has a month exactly when col // 2 indexes the page's month list, and that month comes from the list |
| Layout.ColumnMonth | day4-swantides/extract_tides.py:49-53 | chart page k is document page k+1, and its column col holds month 4k + col // 2 |
| Layout.MonthHalves | day4-swantides/extract_tides.py:49-53 | each month of the year is held by exactly two columns (first and second half) of exactly one chart page |
| Tokens.ParseMergedText | day4-swantides/extract_tides.py:66-84 | two tokens exactly when the word is 2-3 upper-case letters followed by 4 digits: the letters and the digits, whose concatenation is the word; any other word comes back whole |
| Tokens.FusionSplitUnique | day4-swantides/extract_tides.py:80-82 | any split of a word into 2-3 letters and 4 digits is the one the splitter returns |
| Tokens.DayValue | day4-swantides/extract_tides.py:115-116 | a day token (1-2 digits, value 1..31) has a day number in 1..31 |
| Tokens.DayAndTimeExclusive | day4-swantides/extract_tides.py:115-123 | no token is both a day number and a 4-digit time |
| Tokens.FormatTime | day4-swantides/extract_tides.py:138 | the time of a 4-digit token is "HH:MM" text; removing its colon gives back the token |
| Tokens.ScanDigits | day4-swantides/extract_tides.py:130 | the height reader reads a run of leading digits as part of the integer part |
| Tokens.ParseHeightWhole | day4-swantides/extract_tides.py:130 | a string of digits reads as its integer value |
| Tokens.ParseHeightDecimal | day4-swantides/extract_tides.py:130 | "w.f" reads as w plus the fraction f |
| Tokens.ScanDecimalExact | day4-swantides/extract_tides.py:130 | the unsigned reader accepts exactly digits on at least one side of an optional point, with the whole part plus the fraction as value |
| Tokens.ParseHeightExact | day4-swantides/extract_tides.py:129-131 | reading a number succeeds exactly on an optional sign followed by an unsigned decimal, and gives its value, negated after a minus |
| Tokens.ForeignCharNotNumber | day4-swantides/extract_tides.py:129-146 | a token with a character other than a digit or a point (apart from a leading sign) is no number, so it is not taken as a height |
| Tokens.TwoPointsNotNumber | day4-swantides/extract_tides.py:129-146 | a token with two points is no number, so it is not taken as a height |
| Tokens.DayTokenAsHeight | day4-swantides/extract_tides.py:115-131 | a day token is an acceptable height exactly when its value is at most 2 |
| Calendar.MonthLengthTable | day4-swantides/extract_tides.py:25 | the month lengths agree with DAYS_IN_MONTH |
| Calendar.IsoDateInjective | day4-swantides/extract_tides.py:135-137 | distinct (month, day) pairs give distinct ISO dates |
| Calendar.IsoDateOrder | day4-swantides/extract_tides.py:195 | the string order of ISO dates is the calendar order |
| Calendar.InYearDates | day4-swantides/extract_tides.py:135 | an ISO date is a day of 2026 exactly when the month and day form a valid date |
| Calendar.YearDatesCard | day4-swantides/extract_tides.py:221-233 | 2026 has 365 days |
| Calendar.YearDatesLength | day4-swantides/extract_tides.py:137 | every ISO date of the year has ten characters |
| Tides.KeyLessOrder | day4-swantides/extract_tides.py:195 | the (date, time) key order is a strict weak order whose ties are records with equal date and time |
| Tides.KeyLessTotal | day4-swantides/extract_tides.py:195 | records with different (date, time) keys are ordered one way or the other |
| Sorting.SortByPermutation | day4-swantides/extract_tides.py:93 | sorting reorders: same length, same multiset |
| Sorting.SortBySorted | day4-swantides/extract_tides.py:93 | under a strict weak order the sorted sequence is in order |
| Sorting.SortByOfSorted | day4-swantides/extract_tides.py:93 | sorting an already ordered sequence leaves it unchanged, as a stable sort does |
| Sorting.SortByStable | day4-swantides/extract_tides.py:93 | the sort is stable: elements with equal keys keep their input order |
| Sorting.SortInPlace | day4-swantides/extract_tides.py:195 | the array afterwards holds the stably sorted old contents |
| ColumnParser.WordLessOrder | day4-swantides/extract_tides.py:93 | reading order (row, then offset) is a strict weak order |
| ColumnParser.TokenStream | day4-swantides/extract_tides.py:103-107 | each word yields one or two tokens |
| ColumnParser.Width | day4-swantides/extract_tides.py:143-149 | the parser moves on by one or two tokens and never past the end, so its loop ends |
| ColumnParser.EntryFor | day4-swantides/extract_tides.py:131-142 | a time/height pair yields one record exactly when a day has been read and it is a valid date of the month; that record is valid |
| ColumnParser.RunValid | day4-swantides/extract_tides.py:123-140 | every record is dated in the column's month of 2026, timed "HH:MM", with height in [0.0, 2.5] |
| ColumnParser.RunSources | day4-swantides/extract_tides.py:109-149 | each record comes from a time token the parser read, followed by an accepted height, dated with the day it held there |
| ColumnParser.ProducedRecord | day4-swantides/extract_tides.py:132-140 | a produced record's date is the held day in the column's month, its time is its token's, its height the next token's |
| ColumnParser.SourcesOrdered | day4-swantides/extract_tides.py:109-149 | records come out in token order, each consuming two tokens (at least two apart) |
| ColumnParser.RunCount | day4-swantides/extract_tides.py:109-149 | each record consumes two tokens, so a run yields at most half of the tokens left |
| ColumnParser.ColumnEntriesCount | day4-swantides/extract_tides.py:86-151 | a column yields at most one record per two tokens, hence at most one per word |
| ColumnParser.DayAtMostRecent | day4-swantides/extract_tides.py:115-120 | the held day is the last day token the parser read, or none when it read none |
| ColumnParser.NoDayNoEntries | day4-swantides/extract_tides.py:132 | with no day token there are no records |
| ColumnParser.HeightNeverRead | day4-swantides/extract_tides.py:143-144 | a height consumed with its time is never read as a token of its own |
| ColumnParser.DayStep | day4-swantides/extract_tides.py:115-120 | a day token sets the held day and moves on one token |
| ColumnParser.PairStep | day4-swantides/extract_tides.py:123-144 | a time followed by an accepted height consumes both tokens, whether or not a record results |
| ColumnParser.SkipStep | day4-swantides/extract_tides.py:148-149 | any other token is skipped |
| ColumnParser.Tokenize | day4-swantides/extract_tides.py:103-107 | the token stream is the words' split texts in order |
| ColumnParser.ParseTokens | day4-swantides/extract_tides.py:109-151 | the loop's records are the parser function's records from the start with no day |
| ColumnParser.ExtractFromColumn | day4-swantides/extract_tides.py:86-151 | the words end up sorted in reading order; the records are those of that order, all valid |
| Extract.ColumnWordsMember | day4-swantides/extract_tides.py:170-173 | a word is in column c exactly when it is a word of the page with offset in band c |
| Extract.ColumnWordsDisjoint | day4-swantides/extract_tides.py:170-173 | no word lands in two columns |
| Extract.AllEntriesRaw | day4-swantides/extract_tides.py:153-190 | every extracted record is a 2026 date, an "HH:MM" time, a height in [0.0, 2.5], untyped |
| Extract.OnlyChartPagesRead | day4-swantides/extract_tides.py:157-164 | documents with the same pages 2-4 yield the same records |
| Extract.NoChartNoEntries | day4-swantides/extract_tides.py:158-160 | a document without a second page yields no record |
| Extract.BinColumns | day4-swantides/extract_tides.py:168-173 | the bins hold, per column, the page's words in that band in page order |
| Extract.ExtractPage | day4-swantides/extract_tides.py:176-188 | a page's records are its columns' records left to right; columns without a month add none |
| Extract.ExtractAll | day4-swantides/extract_tides.py:153-190 | the records are the chart pages' records in page order, stopping at the first missing page |
| Dedup.KeyIdentifies | day4-swantides/extract_tides.py:266 | with ten-character dates, equal keys mean equal date and time |
| Dedup.KeysCard | day4-swantides/extract_tides.py:264-269 | there are at most as many keys as records, exactly as many when the keys are distinct |
| Dedup.BuildSpec | day4-swantides/extract_tides.py:264-267 | the dictionary's keys are the records' keys in first-appearance order, each mapped to the last record with it |
| Dedup.DedupProperties | day4-swantides/extract_tides.py:264-269 | one record per key, same key set, each the last record with its key, in first-appearance order |
| Dedup.DedupDistinct | day4-swantides/extract_tides.py:264-269 | records with distinct keys come through unchanged |
| Dedup.DedupIdempotent | day4-swantides/extract_tides.py:264-269 | de-duplicating twice is de-duplicating once |
| Dedup.Deduplicate | day4-swantides/extract_tides.py:264-269 | the loop over the dictionary yields the de-duplicated records |
| Classify.ClassifyPermutation | day4-swantides/extract_tides.py:195-211 | classification keeps the count and, types aside, is a reordering of the input |
| Classify.ClassifySorted | day4-swantides/extract_tides.py:195 | the output is in (date, time) order |
| Classify.ClassifyTypes | day4-swantides/extract_tides.py:197-211 | every record gets a type; a strict local maximum is high, a strict local minimum low, otherwise high exactly when above 0.8 |
| Classify.EdgesByThreshold | day4-swantides/extract_tides.py:198-199 | the first and last records are typed by the 0.8 threshold alone |
| Classify.NoAdjacentExtrema | day4-swantides/extract_tides.py:203-206 | neighbours are never both peaks nor both troughs |
| Classify.ThresholdStrict | day4-swantides/extract_tides.py:208-211 | a non-extremum at exactly 0.8 is low |
| Classify.LabelInPlace | day4-swantides/extract_tides.py:197-211 | the array afterwards holds every record typed from the unchanged heights |
| Classify.ClassifyTides | day4-swantides/extract_tides.py:192-213 | the array afterwards holds the sorted, typed records |
| Validate.SuspiciousDays | day4-swantides/extract_tides.py:245 | a day is flagged exactly when it is listed and its count is below one or above four |
| Validate.CountOnPositive | day4-swantides/extract_tides.py:241-243 | a date's count is positive exactly when a record has it |
| Validate.FirstSeenDates | day4-swantides/extract_tides.py:241-245 | the count table's keys are the records' dates, each once |
| Validate.SuspiciousMeansCrowded | day4-swantides/extract_tides.py:245 | a day is flagged exactly when it has more than four records; the "below one" test never fires |
| Validate.DayCountExactly | day4-swantides/extract_tides.py:220-222 | a day-count issue appears exactly when the number of distinct dates is not 365, and carries that number |
| Validate.CrowdedExactly | day4-swantides/extract_tides.py:241-247 | a suspicious-count issue appears exactly when some date has more than four records, and lists exactly those dates |
| Validate.FullYear | day4-swantides/extract_tides.py:220-236 | dates of 2026 number 365 exactly when they are the whole year |
| Validate.MissingExactly | day4-swantides/extract_tides.py:220-238 | for 2026 dates, a missing-dates issue appears exactly when a day is absent, and lists exactly the absent days |
| Validate.PassesExactly | day4-swantides/extract_tides.py:215-254 | for 2026 dates, no issue exactly when every day of 2026 has one to four records |
| Validate.NextDayStep | day4-swantides/extract_tides.py:228-230 | a step within a month adds the day and moves to the next |
| Validate.NextMonthStep | day4-swantides/extract_tides.py:231-233 | after a month's last day the walk continues at the next month's first |
| Validate.YearComplete | day4-swantides/extract_tides.py:227-232 | after December 31 the walk has collected every day of 2026 |
| Validate.ExpectedDates | day4-swantides/extract_tides.py:225-233 | the walk collects exactly the days of 2026 |
| Validate.CountDays | day4-swantides/extract_tides.py:241-243 | the count table holds each date's number of records, keys in first-appearance order |
| Validate.FlagDays | day4-swantides/extract_tides.py:241-245 | the flagged days are those with a count below one or above four, in first-appearance order |
| Validate.ValidateData | day4-swantides/extract_tides.py:215-254 | the issues are those of the validation function, in check order |
| Pipeline.ClassifyKeys | day4-swantides/extract_tides.py:269-270 | classifying keeps the key set and keeps keys distinct |
| Pipeline.LocationTidesValid | day4-swantides/extract_tides.py:260-270 | every written record is a 2026 date, "HH:MM", height in [0.0, 2.5], typed |
| Pipeline.LocationTidesOrdered | day4-swantides/extract_tides.py:260-270 | the written records have the extracted keys, one per (date, time), strictly increasing |
| Pipeline.LocationValidation | day4-swantides/extract_tides.py:260-272 | a location passes exactly when each day of 2026 has one to four written records |
| Pipeline.ProcessLocation | day4-swantides/extract_tides.py:260-272 | extraction, de-duplication, classification and validation compose into the location's records and issues |

## Left out

- Reading the PDF (`pdfplumber.open`, `pdf.pages`, `page.extract_words`) and the import guard: the page words are an input.
- Console output and the wording of the issue strings. The exact wording includes the truncation of the listed days to five and three entries. Issues are a datatype carrying the full count, set or list.
- The note about one-tide days (lines 250-252): it only prints.
- The JSON output file and `datetime.now()`.
- The `try/except Exception` around each location.
- The loop over the two locations: `Pipeline.ProcessLocation` models the body for one document.
- `clean_text` (lines 62-64): the script never calls it.
- The token dictionaries carry a `top` field that the parser never reads, so tokens are plain strings.
- Tokens.ParseHeight: does not model Python `float()` in full: no exponents, underscores, surrounding whitespace, `inf` or `nan`, and no binary rounding. Heights are exact decimals. `inf` and `nan` would fall outside [0.0, 2.5] anyway.
- ColumnParser.WordLess: does not model `round(w['top'])`: a word's vertical position is taken as already rounded to an integer.
- Tokens.IsFusion: does not model the regex `$` matching before a final newline. Words on a page contain no line breaks.
- Tokens.IsDayToken: only ASCII digits count as digits, here and in Tokens.IsTimeToken, Tokens.IsFusion and Tokens.ParseHeight. Python's `str.isdigit` and `\d` also accept other digits, such as "²". For "²", `int()` then raises a ValueError that `extract_from_column` does not catch, so the whole location would be skipped. The model instead skips such a token as noise.
- Sorting is stated against a reference stable insertion sort (`Sorting.SortBy`). It is proved stable (`Sorting.SortByStable`) and in order (`Sorting.SortBySorted`). Python's `list.sort` is also stable, so for the strict weak orders used here both give the same sequence. The model does not prove that this sequence is unique.
- Sorting.SortInPlace: is a single parallel write of the sorted contents: `list.sort` is library code with no visible loop.
- Validate.ValidateData: models the missing-dates check where the code puts it: only after a day-count mismatch. So "missing dates are reported exactly when a day of 2026 is absent" is proved for record sets whose dates are all 2026 dates. That is always the case for extracted records (`Extract.AllEntriesRaw`).
- Validate.SuspiciousMeansCrowded: states the effect of the `c < 1` test as written: counts come from present records, so it never fires, although the message mentions days with 0 tides.
- ColumnParser.DayAtMostRecent: the held day is the last token the parser READ as a day. A day-like token "1" or "2" right after a time is consumed as that time's height (`float("2") == 2.0`), so it never becomes the held day (`Tokens.DayTokenAsHeight`, `ColumnParser.HeightNeverRead`).
