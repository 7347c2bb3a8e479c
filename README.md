# KYC Expiry Dashboard — a Dafny model of its data core

The KYC Expiry Dashboard shows how many customers' KYC (know-your-customer)
documents have expired or are about to expire. Its data comes from a JSON
snapshot whose `records` list holds one object per customer: identifier,
name, risk rating, document type, expiry date, days to expiry, expiry bucket
and relationship manager. A helper script produces that snapshot by pulling
the JSON out of an exported HTML page, from the `<script id="dashboard-data">`
block.

This project models the dashboard's data path and proves properties of it:

- **Loading** (`Records`). A missing snapshot reads as empty. A malformed one
  is an error. Otherwise each record becomes one normalised row:
  - a null risk rating or relationship manager becomes `Unknown`;
  - days to expiry that are not a number become NaN;
  - an expiry date that cannot be read becomes NaT.

  The value readers live in `Coerce`.
- **Filtering** (`Filter`). Two filters combine with AND:
  - an exact relationship-manager filter, unless the choice is `All` or empty;
  - a case-insensitive substring search over the text of every field.

  The manager options offered are `All` followed by the distinct managers,
  sorted.
- **Counting** (`Aggregate`). These are the per-bucket counts behind the KPI
  cards and the bucket chart, reindexed in the fixed bucket order. They also
  cover the bucket × risk cross-tab, and its pivot to a 5 × 4 matrix, behind
  the stacked chart.
- **Extraction** (`Extract`):
  - the regular-expression search for the dashboard-data block, written out as
    an explicit scan;
  - stripping and decoding of its body;
  - the record count the script reports.
- **A worked example** (`Scenario`). A two-record snapshot is loaded, searched
  for `aarav` and counted.

Shared pieces:
- `Text`:
  - ASCII lower-casing;
  - substring search;
  - Python's `str.strip`;
  - code-point string order with `sorted(set(...))`.
- `Seqs`: boolean masks over sequences (`Select`).
- `Wrappers`: `Option` and `Result`.

JSON decoding is a function-typed parameter (`decode`), as `json.loads` is a
library call. The model's `Document`, `RawRecord` and `Json` types stand for
what it returns.

## Behaviour worth noting

- **Risk ratings.** `fillna` replaces only nulls, so a risk rating outside
  the four known values passes through unchanged (`Records.Normalize`) and
  lands in no cell of the bucket × risk cross-tab.
- **Bucket totals.** The counts reindex `value_counts` on the five known
  buckets, which drops rows with any other bucket. So the total is the number
  of rows whose bucket is one of the five (`Aggregate.BucketCountsTotal`), and
  equals the row count only when every bucket is known
  (`Aggregate.BucketCountsCoverAll`). The cross-tab totals count only rows
  whose bucket and risk are both known (`Aggregate.CrossTabTotal`).
- **Pivot column order.** The stacked chart's columns come out of
  `DataFrame.pivot`, which sorts the column labels. They are therefore High,
  Low, Medium, Unknown, not the risk order High, Medium, Low, Unknown
  (`Aggregate.PivotColumnsAreSortedRisks`).

## Model

| member | source | states |
|---|---|---|
| Text.Contains | app.py:76 | `q in text` is true exactly when `q` occurs in `text` at some position |
| Text.Strip | scripts/extract_from_html.py:16 | the result is a slice of the input, with only whitespace (Python's `isspace` set) cut from each end, and neither of its ends is whitespace |
| Text.StripPadding | scripts/extract_from_html.py:16 | stripping text padded on both sides by whitespace gives back exactly the unpadded, trimmed text |
| Text.SortedDistinct | app.py:163 | `sorted(set(xs))` is strictly ascending and has exactly the elements of `xs` |
| Text.SortedUnique | app.py:163 | two strictly ascending listings of the same elements are equal, so the sorted manager list is unique |
| Coerce.ParseInt | app.py:62 | a text reads as a number exactly when it is an optional sign followed by digits; the sign decides the sign of the value |
| Coerce.ParseShowInt | app.py:62 | reading the decimal rendering of any integer gives that integer back |
| Coerce.ParseDate | app.py:63 | an accepted date has the `YYYY-MM-DD` shape, is a real calendar date and lies in the Timestamp range 1677-09-22 to 2262-04-11 |
| Coerce.ParseFormatDate | app.py:63 | every date a Timestamp can hold survives formatting and reading back |
| Coerce.FormatParseDate | app.py:63 | an accepted date text is written exactly as the date formats back |
| Records.ToNumeric | app.py:62 | `to_numeric(errors="coerce")` keeps numbers, reads integer text as the value `Coerce.ParseInt` gives it, and gives NaN exactly for everything else |
| Records.ToDatetime | app.py:63 | `to_datetime(errors="coerce")` gives NaT exactly for null or unreadable text; a read date formats back to the input text |
| Records.Normalize | app.py:61-64 | a null risk rating and a null manager become `Unknown` and other values pass through; days are the `to_numeric` reading of the raw value, NaN exactly when not numeric; the date is the `to_datetime` reading, formatting back to the raw text when read; the other fields are copied |
| Records.NormalizeExport | app.py:61-64 | normalising is stable: a normalised row written back to JSON normalises to itself |
| Records.LoadData | app.py:53-65 | a missing file gives `{}` and no rows; a present file fails exactly when decoding fails; otherwise there is one row per record, in order, each the record normalised |
| Seqs.Select | app.py:73 | a boolean mask keeps only elements satisfying it and never lengthens the sequence |
| Seqs.SelectKeepsInOrder | app.py:77 | a mask keeps exactly the elements that satisfy it, in their original order |
| Records.DaysText | app.py:76 | a missing days value shows as `nan`; a number shows as text that reads back to that number |
| Records.DateText | app.py:76 | a missing date shows as `NaT`; a Timestamp shows as 19 characters, a date part that reads back to it and ` 00:00:00` |
| Records.FieldTexts | app.py:76 | `str(v)` of each of the eight cells, in column order: the six text fields as they are, a missing date as `NaT` and a read one as `YYYY-MM-DD 00:00:00` whose date part reads back to that date, missing days as `nan` and a number as text that reads back to it |
| Filter.AnyFieldContains | app.py:76 | the row test holds exactly when some field's lower-cased text contains the query |
| Filter.FilterRows | app.py:68-78 | with manager `All` (or empty) and an empty query the rows come back unchanged; no rows give no rows |
| Filter.FilterRowsIsOneMask | app.py:71-77 | the two successive masks equal one mask, the AND of both tests |
| Filter.FilterRowsInOrder | app.py:68-78 | the result is the subsequence, in order, of exactly the rows passing both tests |
| Filter.FilterRowsByManager | app.py:72-73 | with a manager chosen, every kept row has that manager, and every row with that manager that matches the search is kept |
| Filter.FilterRowsBySearch | app.py:74-77 | with a query given, every kept row has a field containing the lower-cased query, and every such row that passes the manager filter is kept |
| Filter.FilterRowsIdempotent | app.py:68-78 | filtering the filtered rows again with the same choices changes nothing |
| Filter.ManagerOptions | app.py:163-164 | the options start with `All`, then list in strictly ascending order exactly the managers appearing in the rows |
| Filter.ManagerOptionsUnique | app.py:163-164 | any strictly ascending listing of exactly those managers is the one offered after `All` |
| Filter.ManagerOptionSelectsRows | app.py:163-164 | choosing any offered manager, with no query, keeps at least one row |
| Aggregate.Count | app.py:82 | a `value_counts` entry is the multiplicity of the key |
| Aggregate.Tally | app.py:82 | reindexing counts on a key order gives one entry per key, in that order, each the key's multiplicity (0 when absent) |
| Aggregate.TallyTotal | app.py:82 | for distinct keys, the tally adds up to the number of elements that are among the keys |
| Aggregate.BucketCounts | app.py:96 | five entries in the fixed bucket order, each the number of rows in that bucket |
| Aggregate.BucketCountsTotal | app.py:82 | the counts add up to the number of rows whose bucket is one of the five |
| Aggregate.BucketCountsCoverAll | app.py:82 | when every row's bucket is one of the five, the counts add up to the number of rows |
| Aggregate.Product | app.py:104 | the product index has `|xs| * |ys|` entries |
| Aggregate.ProductAt | app.py:104 | entry `i * |ys| + j` of the product index is `(xs[i], ys[j])` |
| Aggregate.ProductMembers | app.py:104 | the product index holds exactly the pairs of a bucket and a risk |
| Aggregate.ProductDistinct | app.py:104 | the product of distinct keys has distinct entries |
| Aggregate.CrossTab | app.py:104-110 | 20 cells in bucket-major order, cell `i * 4 + j` being the pair `(bucket i, risk j)` and the number of rows in it |
| Aggregate.CrossTabTotal | app.py:104-110 | the cells add up to the number of rows whose bucket and risk are both known values |
| Aggregate.PivotColumnsAreSortedRisks | app.py:111 | the pivot's columns are the risk labels in sorted order |
| Aggregate.LookupTally | app.py:111 | looking a key up in the reindexed counts gives its multiplicity |
| Aggregate.GroupedCount | app.py:105-110 | the grouped size of a known (bucket, risk) pair is the number of rows with that pair |
| Aggregate.PivotRow | app.py:111 | a pivot row holds, per sorted risk column, the number of rows with that bucket and risk |
| Aggregate.Pivot | app.py:111-112 | a 5 × 4 matrix; row `i`, column `j` counts the rows in bucket `i` with risk column `j`, zero where there are none |
| Extract.FindFrom | scripts/extract_from_html.py:10 | the first position from a start where a literal matches ignoring case, or none |
| Extract.HasMarker | scripts/extract_from_html.py:10 | true exactly when the `id=` marker with its quotes lies wholly inside the span |
| Extract.TryAt | scripts/extract_from_html.py:9-13 | the match found at a start, which is a match there; none only when the pattern cannot match there |
| Extract.FindBlockFrom | scripts/extract_from_html.py:9-13 | the leftmost match at or after a start; none only when there is no match at or after it |
| Extract.FindBlockUnique | scripts/extract_from_html.py:9-13 | a match with no match before it is the one the search returns |
| Extract.CaseInsensitive | scripts/extract_from_html.py:12 | documents differing only in the case of ASCII letters give the same match |
| Extract.TagTextShape | scripts/extract_from_html.py:10 | `<script`, any text without `>`, `id=`, a quote, `dashboard-data`, a quote, any text without `>` and a `>` form an opening tag the pattern accepts, ending at that `>`, whatever follows |
| Extract.BodyShape | scripts/extract_from_html.py:10 | after such a tag, a body holding no `</script>` followed by `</script>` is the lazily matched body, and it is that body |
| Extract.LeadingBlock | scripts/extract_from_html.py:9-13 | an accepted tag at the start of the document followed by such a body is the match the search returns |
| Extract.RecordCount | scripts/extract_from_html.py:19 | the reported count is the length of an object's `records` list, 0 when it is absent, and fails for a non-object |
| Extract.ExtractData | scripts/extract_from_html.py:7-19 | not-found exactly when the pattern matches nowhere; invalid exactly when the leftmost block's stripped body does not decode; otherwise writes that decoded value and reports its record count |
| Extract.ExtractLeading | scripts/extract_from_html.py:9-17 | for a document opening with an accepted tag and body, the outcome is decided by decoding that stripped body: invalid when it does not decode, otherwise written with its record count |
| Extract.ExtractPadded | scripts/extract_from_html.py:9-17 | when that body is JSON text padded by whitespace, exactly that JSON text is decoded |
| Scenario.SearchThenCount | app.py:172-175 | loading two records, then searching `aarav` with all managers, keeps just the first; its bucket counts are one Expired and zero elsewhere; the null risk reads as Unknown |

## Left out

- The Streamlit page is not modelled: layout, CSS, colours, labels, widgets, charts and the empty-data warnings. Nothing in them changes data.
- `st.cache_data` memoisation is not modelled. It affects when `load_data` runs, not what it returns.
- The "Generated" caption, backdated 48 hours from the wall clock, is not modelled: the clock is I/O. The `input_file` caption is modelled only as the `Document.inputFile` field.
- File reading and writing, the command-line parser and `main` of the extraction script are not modelled.
- The `json.dumps(indent=2)` formatting of the written file is not modelled. `Extract.Outcome.Written` carries the value written.
- `json.loads` is a parameter. The model proves nothing about JSON syntax.
- Extract.Json: numbers are modelled as integers only. Floating point is left out.
- Coerce.ParseInt: reads only an optional sign followed by digits. `pd.to_numeric` also accepts surrounding whitespace, a decimal point, exponents and `inf`/`nan` text, and gives floats; those inputs count as NaN in the model.
- Coerce.ParseDate: reads only `YYYY-MM-DD`. `pd.to_datetime` accepts many more formats, and times of day.
- Records.FieldTexts: days to expiry are rendered as an integer (`12`). Pandas stores the column as float when one value is NaN, and then renders `12.0`. Search results then differ for queries containing `.`, and for the query `0`.
- Text.LowerChar: lower-cases ASCII letters only. Python's `str.lower` also folds non-ASCII letters. For the same reason Extract.SameUpToCase covers only ASCII case changes; the IGNORECASE equivalences U+0130/U+0131 ~ `i` and U+017F ~ `s` are modelled in `Extract.CharMatches`.
- Records.LoadData: records are assumed to carry `risk_rating`, `doc_expiry_date` and `relationship_manager` as text or null, `days_to_expiry` as number, text or null, and `customer_id`, `customer_name`, `kyc_document_type` and `expiry_bucket` as text only.
  - A null in one of those four text-only fields is not representable. In the code it would render as `None` or `nan` in the search, and a null bucket would be dropped by `value_counts`.
  - A column absent from every record raises KeyError in the code. This is not modelled.
  - Extra columns, which would take part in the search, are not modelled.
  - A non-object top level is not modelled.
- The exact pandas row order is kept. The pandas index and dtypes are not modelled.

