# csv-consolidation pipeline, modelled in Dafny

The pipeline reads several CSV exports that describe the same people under different column names. It
renames each column after the schema mapping's canonical field and normalises that column's values by the
field's type: strings are stripped, e-mail addresses are stripped and lower-cased, dates are re-printed as
`YYYY-MM-DD`, and phone numbers are re-printed as `DDD-DDD-DDDD`. It then merges all the tables into one
with a chain of full outer joins on `name`, adding `created_date` to the join keys when both sides have that column.

The model covers `src/pipeline.py`:

- `text.dfy` (module `Text`): the three string primitives the normalisers use, on ASCII text:
  `str.strip()`, `str.lower()` and `re.sub(r"\D", "", s)`.
- `normalizers.dfy` (module `Normalizers`): the value normalisers and the presence test.
  - A cell is `Missing` (pandas' `NaN`) or `Str(s)`.
  - Date parsing is a parameter: a function from text to an optional date.
  - A parser failure is an error result, because the source does not catch the parser's exception.
- `tables.dfy` (module `Tables`): a table as column labels plus rows of cells.
- `schema.dfy` (module `Schema`): the column loop of `normalize_files`.
  - Columns are resolved against the spec list with first-match-wins.
  - The matched column's cells are normalised.
  - Reference functions are stated for any typed normaliser; the pipeline's own normaliser is
    `ValueNormalizer(parse)`.
  - The loop itself is a `DataFrame` class whose methods update its `rows` and `columns` in place. It is
    proved equal to the reference functions.
- `merge.dfy` (module `Merge`): `merge_dataFrames`.
  - The key rule.
  - A simplified outer join, and the left fold of joins.
  - The `for`/`if i < len - 1` loop, proved equal to the fold.

## Model

| member | source | states |
|---|---|---|
| Text.Trim | src/pipeline.py:14 | `strip()` leaves no whitespace at either end and never lengthens the text |
| Text.TrimSplit | src/pipeline.py:21 | every text is a run of blanks, then its stripped form, then a run of blanks |
| Text.TrimOfPadded | src/pipeline.py:21 | stripping a blank-padded text with no edge whitespace gives exactly that text |
| Text.TrimIdempotent | src/pipeline.py:21 | stripping twice is stripping once |
| Text.LowerTrimCommute | src/pipeline.py:27 | `s.strip().lower() == s.lower().strip()` |
| Text.Lower | src/pipeline.py:27 | `lower()` keeps the length, leaves no upper-case letter and changes no character that is not an upper-case letter |
| Text.LowerIdempotent | src/pipeline.py:27 | lower-casing twice is lower-casing once |
| Text.Digits | src/pipeline.py:40 | the `\D`-stripped text has only digits and is no longer than the input |
| Text.DigitsMember | src/pipeline.py:40 | a character survives the digit filter exactly when it is a digit of the input |
| Text.DigitsAppend | src/pipeline.py:40 | the digit filter distributes over concatenation |
| Normalizers.IsNotNull | src/pipeline.py:12-16 | a present value is text that is not blank, and text whose stripped, lower-cased form is a null spelling is never present |
| Normalizers.IsNotNullIff | src/pipeline.py:12-16 | a value is present exactly when it is text whose stripped, lower-cased form is not `nan`, `null`, `none` or empty; the truthiness test adds nothing |
| Normalizers.MissingTextIsNull | src/pipeline.py:13-14 | the text of `NaN`, stripped and lower-cased, is a null spelling, so a missing value is never present |
| Normalizers.NullSpellingIsNull | src/pipeline.py:14 | any upper/lower-case variant of a null spelling, padded with blanks, is absent |
| Normalizers.PresentIfDigit | src/pipeline.py:12-16 | a text containing a digit is present |
| Normalizers.NormalizeStr | src/pipeline.py:19-22 | the result is text exactly when the input is present; that text has no edge whitespace and is itself present |
| Normalizers.NormalizeStrOfPadded | src/pipeline.py:19-22 | a present value between blanks normalises to the value itself |
| Normalizers.NormalizeStrIdempotent | src/pipeline.py:19-22 | normalising a normalised string changes nothing |
| Normalizers.NormalizeEmail | src/pipeline.py:25-28 | as for strings, and the result has no upper-case letter |
| Normalizers.NormalizeEmailOfPadded | src/pipeline.py:25-28 | a present address between blanks normalises to its lower-cased form |
| Normalizers.NormalizeEmailIdempotent | src/pipeline.py:25-28 | normalising a normalised address changes nothing |
| Normalizers.FormatDate | src/pipeline.py:33 | `%Y-%m-%d` output is ten characters with dashes at positions 4 and 7, and reads back as the same date |
| Normalizers.NormalizeDate | src/pipeline.py:31-34 | an absent value gives `Missing`; the result is an error, carrying the text, exactly when a present value does not parse; otherwise the output reads back as the parsed date |
| Normalizers.NormalizeDateIdempotent | src/pipeline.py:31-34 | with a parser that reads the `YYYY-MM-DD` text of each date it returns as that same date, normalising a normalised date changes nothing; dates the parser never returns, such as 31 February, are not constrained |
| Normalizers.IsoReaderReadsBack | src/pipeline.py:33 | the strict `YYYY-MM-DD` reader meets the idempotence hypothesis, so that hypothesis can hold |
| Normalizers.FormatPhone | src/pipeline.py:44 | the output is `DDD-DDD-DDDD` and its digits are the given ten digits |
| Normalizers.PhoneShapeUnique | src/pipeline.py:44 | two `DDD-DDD-DDDD` texts with the same digits are equal |
| Normalizers.NormalizePhone | src/pipeline.py:37-45 | the result is text exactly when the input has exactly ten digits; it then has phone shape and the same digits; every other case gives `Missing` |
| Normalizers.DigitsMeanPresent | src/pipeline.py:37-40 | a value with any digit passes the presence test, so only the digit count decides the phone result |
| Normalizers.NormalizePhoneIgnoresNonDigits | src/pipeline.py:40 | values with the same digits normalise alike, whatever the punctuation |
| Normalizers.NormalizePhoneIdempotent | src/pipeline.py:37-45 | normalising a normalised phone number changes nothing |
| Normalizers.NormalizeValue | src/pipeline.py:48-57 | an unknown type tag returns the value unchanged; a known tag maps an absent value to `Missing`; only the `date` tag can fail |
| Normalizers.NormalizeValueIdempotent | src/pipeline.py:48-57 | for every tag, normalising a normalised value changes nothing (for dates, given a parser that reads the canonical text of each date it returns as that date) |
| Schema.FirstMatch | src/pipeline.py:74-79 | the winning spec lists the label and no earlier spec does; there is no winner exactly when no spec lists the label |
| Schema.FirstMatchIgnoresLater | src/pipeline.py:79 | after the `break`, specs past the winner cannot change it |
| Schema.ResolvedName | src/pipeline.py:73-79 | a label no spec lists keeps its name; a label some spec lists is renamed to the name of the first spec, in list order, that lists it |
| Schema.ResolveNames | src/pipeline.py:71-80 | the new labels have the same length as the old ones, and position `j` holds the resolved name of raw label `j`; equal raw labels get equal new labels; unlisted labels keep their names |
| Schema.ResolveNamesStep | src/pipeline.py:73-77 | the label list grows by the resolved name of each raw column, in column order |
| Schema.NormalizeColumn | src/pipeline.py:78 | `apply` succeeds exactly when every cell of the column normalises; it keeps the row count and replaces only cell `j` of each row by its normal form |
| Schema.NormalizeColumnFailure | src/pipeline.py:78 | a failing column raises the error of its first failing row |
| Schema.NormalizeColumnErrorStops | src/pipeline.py:78 | once a row raises, later rows do not change the outcome |
| Schema.NormalizeFirstColumnsErrorStops | src/pipeline.py:72-79 | once a column raises, later columns do not change the outcome |
| Schema.NormalizeTableSpec | src/pipeline.py:69-80 | normalisation succeeds exactly when every matched cell normalises, and otherwise reports the first failing cell in loop order; on success the shape is kept, each label is its resolved name, and each cell is its spec's normal form or untouched |
| Schema.NormalizeTable | src/pipeline.py:69-80 | a normalised table is rectangular and has as many columns and rows as the table read |
| Schema.NormalizeTableUnmatched | src/pipeline.py:69-80 | a table none of whose labels any spec lists comes through unchanged |
| Schema.NormalizeTableTotalWithoutDates | src/pipeline.py:69-80 | a schema whose matched specs include no `date` type never makes a table fail |
| Schema.DataFrame.constructor | src/pipeline.py:68 | the frame holds the table read |
| Schema.DataFrame.ApplyColumn | src/pipeline.py:78 | the frame's rows become the normalised column, or stay unchanged when a cell raises |
| Schema.DataFrame.ScanSpecs | src/pipeline.py:74-79 | the label just appended is replaced by the resolved name; only the winning spec's normaliser is applied; with no winner the rows stay as they were |
| Schema.DataFrame.ProcessColumn | src/pipeline.py:72-79 | one pass of the column loop advances the reference by one column and the label list by one resolved name |
| Schema.DataFrame.NormalizeSchema | src/pipeline.py:69-80 | the frame ends as the reference normalised table, or the run raises that reference's error |
| Schema.NormalizeFiles | src/pipeline.py:67-85 | the run succeeds exactly when every table normalises, returning each normalised table in order; otherwise it raises the error of the first table that fails |
| Merge.JoinKeys | src/pipeline.py:92-95 | the keys start with `name`, include only `name` and `created_date`, and include `created_date` exactly when both the accumulator and the next table have it |
| Merge.OuterJoin | src/pipeline.py:93 | the join fails exactly when a key column is missing from a side; otherwise the result is rectangular |
| Merge.OuterJoinRowOrigin | src/pipeline.py:93 | every output row is a matched pair of rows, a left row with no match filled with `Missing`, or a right row with no match filled with `Missing` |
| Merge.OuterJoinKeepsEveryRow | src/pipeline.py:93 | every matched pair, every unmatched left row and every unmatched right row is in the output |
| Merge.RightOnlyKeepsKey | src/pipeline.py:93 | a right row with no match carries its key values in the joined key columns |
| Merge.LabelsKeepUnshared | src/pipeline.py:93 | a key label, or a label only one side has, keeps its name in the joined labels |
| Merge.LabelsComeFromTables | src/pipeline.py:93 | a joined label named `name` or `created_date` is a label of one of the sides |
| Merge.LabelsKeepDate | src/pipeline.py:92-95 | under the key rule, `created_date` is a joined label exactly when one of the sides has it |
| Merge.OuterJoinKeepsDateColumn | src/pipeline.py:92-95 | the outer join keeps `created_date` exactly when one of the sides has it |
| Merge.OuterJoinNeedsNames | src/pipeline.py:92-95 | under the key rule, the outer join keeps the `name` column |
| Merge.Fold | src/pipeline.py:89-95 | the fold of joins yields a rectangular table |
| Merge.FoldErrorStops | src/pipeline.py:89-95 | once a join raises, the later tables do not change the outcome |
| Merge.FoldStep | src/pipeline.py:91-95 | step `k` joins the accumulator so far with table `k` under the key rule |
| Merge.FoldDateColumn | src/pipeline.py:89-95 | the accumulator has `created_date` exactly when one of the tables folded so far has it |
| Merge.FoldStepKeys | src/pipeline.py:92-95 | step `k` joins on `name` and `created_date` exactly when table `k` and some earlier table have `created_date`, and on `name` alone otherwise |
| Merge.FoldNeedsNames | src/pipeline.py:89-95 | two or more tables merge without error exactly when every one has a `name` column |
| Merge.MergeAll | src/pipeline.py:88-95 | an empty list is the `df_list[0]` error, a single table comes back unchanged, and any merged table is rectangular |
| Merge.MergeDateColumn | src/pipeline.py:89-95 | the merged table has `created_date` exactly when some input table has it |
| Merge.MergeStepKeys | src/pipeline.py:92-95 | the key rule of the outer-join merge, step by step, in terms of the input tables |
| Merge.MergeNeedsNames | src/pipeline.py:89-95 | two or more tables merge with the outer join without error exactly when every one has a `name` column |
| Merge.MergeFrames | src/pipeline.py:88-96 | the loop computes the fold of outer joins; a single table comes back as it is |

## Left out

- `snowflake_loader.py` is not part of this model. The same goes for reading the schema mapping and the
  CSV files, `os.listdir` order (the tables arrive as a sequence in a given order), the `print` calls, and
  writing Parquet. `out_parquet` is unused in the source.
- The date parser is a parameter. The model does not say which texts `dateutil` accepts or which date it
  reads from them; `None` stands for the parser raising.
- Normalizers.FormatDate: always pads the year to four digits, while `strftime("%Y")` on some platforms
  prints years below 1000 without padding.
- Text.Trim, Text.Lower, Text.Digits: cover ASCII only. Python's `strip()`, `lower()` and `\D` also act on
  non-ASCII whitespace, letters and digits.
- Cells are text or missing. Numbers that pandas parses from a CSV column are not modelled. The source's
  normalisers would call string methods on them (and raise) or pass them to `str()`.
- `NaN` is modelled as the single value `Missing`. Float semantics (`NaN != NaN`) are not modelled. The
  join matches `Missing` keys with each other, as pandas does.
- Merge.OuterJoin: simplified `pd.merge(..., how='outer')`.
  - It does not state pandas' row order, which sorts on the keys.
  - Its only error is a missing key column. It does not raise pandas' three other errors:
    - `ValueError` ("the column label is not unique") when a key label occurs more than once on one side.
      Normalisation can produce that input: two raw columns of one file that the same spec lists are
      both renamed to that spec's name, for example `Name` and `full_name` both becoming `name`. The model
      then joins on the first column with that label.
    - `MergeError` when the `_x`/`_y` suffixes would create a duplicate label. For example, with four tables that
      all have `email`, the third join would make a second `email_x`; the model returns that duplicate label
      instead of failing.
    - `ValueError` when a text key column is joined with a key column that is entirely missing (a float column).
  - Rows, labels, the `_x`/`_y` suffixes and the missing-key error are modelled.
- Merge.MergeNeedsNames, Merge.FoldNeedsNames: "merges without error exactly when every table has `name`"
  holds for the simplified join only. The pipeline can also fail on the three pandas errors above,
  including a `name` label that occurs twice in one table.
- Merge.MergeFrames: returns the merged table. In the source, `merge_dataFrames` only prints it and
  returns nothing.
- An empty table list is the error `EmptyTableList`, standing for the `IndexError` of `df_list[0]`. A
  missing join key is `MissingKey`, standing for pandas' `KeyError`.
- Schema.DataFrame.ApplyColumn: the whole new column is computed before it is stored. A raising
  normaliser therefore leaves the frame unchanged, matching pandas' `apply` followed by assignment.
- Duplicate raw column labels are not modelled. For those, `df[fld]` would select several columns at
  once.
