# RecSysProject core, modelled in Dafny

This project models the data-handling core of RecSysProject, a Yelp-dataset recommender written in Python.
It covers three groups:

- **Line-aligned chunked JSON-lines ingestion.**
  - `generate_chunks` plans byte ranges whose boundaries fall on line ends.
  - `process_chunk` decodes the lines that start inside one range.
  - `load_json_parallel` concatenates the per-range results in order.
  - `load_json` is the serial reader, with its optional line limit.
- **Yelp field normalisers.**
  - The hours dictionary becomes 14 zero-padded `HH:MM` columns.
  - The comma-separated categories become a boolean membership table.
  - Attribute strings become typed value sets.
  - Data and image paths are built from a name.
- **Time-block rules in the recommenders.**
  - `TimeBasedRecommender` expands opening hours into one-hour blocks and matches them against the hours of a user's reviews. It falls back to 0 when they do not match.
  - `recommend_businesses` keeps the unrated businesses that are open now, best estimated rating first, and cuts the list to a number of names.

Modules, one per source file, plus shared helpers:

| module | file | models |
|---|---|---|
| `Wrappers` | wrappers.dfy | `Option` and `Result` |
| `Text` | text.dfy | the parts of Python's `str.split`, `strip`, `lower`, `int()` and `%02d` formatting the core relies on |
| `FileLines` | file_lines.dfy | a file as bytes; binary-mode `readline` as `LineEnd`; the file's lines |
| `ChunkPlanner` | chunk_planner.dfy | `generate_chunks` |
| `ChunkWorker` | chunk_worker.dfy | `process_chunk`, with `json.loads` as a parameter |
| `JsonIngest` | json_ingest.dfy | `load_json_parallel`, `load_json` |
| `YelpData` | yelp_data.dfy | a row of the business table |
| `HoursFormat` | hours_format.dfy | `process_time`, `process_hours` |
| `HoursIngest` | hours_ingest.dfy | `extract_hours_minutes`, `parse_hours` |
| `Categories` | categories.dfy | `parse_categories` |
| `Attributes` | attributes.dfy | the `parse_*_attributes` family and `parse_attributes` |
| `Paths` | paths.dfy | `get_path`, `get_image_path` |
| `BlockedTime` | blocked_time.dfy | `TimeBasedRecommender`: `fit`'s hours preprocessing, `_business_hours_match`, `estimate` |
| `TimeBased` | time_based.dfy | `recommend_businesses` |

The model follows the source's own form:

- The loops that change state are methods proved against a specification function: `GenerateChunks`, `ProcessChunk`, `LoadJsonParallel`, `LoadJson`, `ProcessHours`, `ParseCategories`, the attribute parsers, `GenerateBlocks` and `PreprocessBusinessHours`.
- The recommender is a class whose `Fit` updates its fields.
- Pure pipelines are functions: `parse_hours`, `get_path`, `recommend_businesses`.

External inputs are parameters rather than calls:

- The file, as its bytes.
- The JSON decoder, as `dec`.
- `ast.literal_eval` applied to a dictionary string, as `literal`.
- `cpu_count()`.
- The model's rating estimate, as `predict`.
- The current day, hour and minute.

Where the code and its own comments disagree, the model follows the code:

- **Extra range at end of file.** `generate_chunks` emits one more range, `(file_size, file_size + size)`, whenever a range end lands exactly on the file size. An empty file yields the single range `(0, size)`.
- **Default worker count.** `num_workers` defaults to `cpu_count() - 1` with no lower bound. On a one-core machine `Pool(0)` therefore fails; this is `PoolStartFailed`.
- **Line limit.** `load_json` with `line_limit = L` reads `min(n, L + 1)` lines, because the limit test runs after the append.
- **Minutes against slots.** `recommend_businesses` compares opening times in minutes with the half-hour slot number `(hour * 60 + minute) // 30`, as written.
- **Single business.** `parse_categories` collects the category universe before it filters by `business_id`. `parse_attributes` with a `business_id` reads only the first matching row.

## Model

| member | source | states |
|---|---|---|
| Text.Split | RecSysProject/ingest/hours_ingest_.py:12-14 | `str.split(sep)` gives one more piece than separators; no piece holds the separator; joining the pieces gives back the text |
| Text.SplitOnce | RecSysProject/ingest/hours_ingest_.py:12-14 | two-name unpacking of a split succeeds iff the separator occurs exactly once, and the text is then `a + sep + b` |
| Text.SplitOnceIsSplit | RecSysProject/ingest/hours_ingest.py:18 | unpacking into two names succeeds with `(a, b)` iff `split` returns exactly `[a, b]` |
| Text.Pad2 | RecSysProject/ingest/hours_ingest_.py:15-16 | `{n:02d}` is a numeral of at least two digits whose value is `n` |
| Text.Numeral | RecSysProject/ingest/hours_ingest_.py:15-16 | the decimal text of `n` is a digit string that reads back as `n`, with a leading 0 only for 0 |
| Text.Strip | RecSysProject/ingest/categories_ingest.py:30 | `strip()` gives text that neither starts nor ends with whitespace, and leaves text without outer whitespace unchanged |
| Text.StripIsPiece | RecSysProject/ingest/categories_ingest.py:30 | `strip()` keeps the piece of its input between `StripStart` and `StripEnd`, and everything outside that piece is whitespace |
| Text.ParseInt | RecSysProject/data_analysis/attributes_summary.py:46-49 | `int()` on a digit string gives its decimal value; a negative result needs a `-` in the text |
| Text.ParseIntAccepts | RecSysProject/data_analysis/attributes_summary.py:46-49 | `int()` succeeds iff the stripped text is ASCII digits with an optional leading `+` or `-` |
| Text.ParseIntRoundTrip | RecSysProject/data_analysis/attributes_summary.py:46-49 | `int(str(n)) == n` for every integer `n` |
| Text.Lower | RecSysProject/data_analysis/attributes_summary.py:31 | `lower()` maps every character on its own and keeps the length |
| FileLines.LineEnd | RecSysProject/ingest/json_ingest_.py:15 | `readline` from `p` stops just after the first newline, or at end of file, and reads at least one byte |
| FileLines.LinesReassemble | RecSysProject/ingest/json_ingest_.py:31 | the lines read from `p` to end of file, concatenated, are the file from `p` |
| FileLines.LineShape | RecSysProject/ingest/json_ingest_.py:31 | each line is non-empty, has no newline before its last byte, and every line but the last ends in a newline |
| FileLines.LinesFromTail | RecSysProject/ingest/json_ingest_.py:29-31 | reading lines from an earlier position passes through every later line start, so its line list ends with the later one's |
| ChunkPlanner.GenerateChunks | RecSysProject/ingest/json_ingest_.py:8-19 | the loop emits exactly the planned range list |
| ChunkPlanner.PlanShape | RecSysProject/ingest/json_ingest_.py:11-19 | the first range starts at 0; ranges are contiguous; each end is at least `start + size`; all ends but the last are within the file, and the last is past it; an end inside the file follows a newline |
| ChunkPlanner.PlanFromAligned | RecSysProject/ingest/json_ingest_.py:14-16 | every range end is a line start or the end of file |
| ChunkPlanner.EndAtEofAddsRange | RecSysProject/ingest/json_ingest_.py:17-19 | a range ending exactly at the file size is followed by exactly one more range, `(size_of_file, size_of_file + size)` |
| ChunkPlanner.EmptyFilePlan | RecSysProject/ingest/json_ingest_.py:9-19 | an empty file gives exactly the range `(0, size)` |
| ChunkPlanner.PositionInOneRange | RecSysProject/ingest/json_ingest_.py:11-16 | every byte offset of the file lies in exactly one range |
| ChunkPlanner.StartsIncrease | RecSysProject/ingest/json_ingest_.py:13-16 | contiguous non-empty ranges never overlap |
| ChunkWorker.ProcessChunk | RecSysProject/ingest/json_ingest_.py:24-42 | the loop returns exactly the records of the lines starting before the range end: malformed lines are skipped, end of file stops the loop, any other exception stops it and keeps what was collected |
| ChunkWorker.ChunkRecords | RecSysProject/ingest/json_ingest_.py:29-39 | a range starting at or past its end gives no records; otherwise there are at most as many records as bytes left from its start |
| ChunkWorker.KeepParsed | RecSysProject/ingest/json_ingest_.py:32-37 | dropping undecodable lines never adds records, and leaves none when no line decodes |
| ChunkWorker.ChunkThenRest | RecSysProject/ingest/json_ingest_.py:29-37 | a range's records followed by the records of the lines from its end equal the records of all lines from its start |
| ChunkWorker.RangeAtEofIsEmpty | RecSysProject/ingest/json_ingest_.py:30-39 | a range starting at or after end of file yields no records |
| ChunkWorker.MalformedLineSkipped | RecSysProject/ingest/json_ingest_.py:35-37 | a line that fails to decode is skipped and reading goes on from the next line |
| ChunkWorker.ChunkRecordsFromRange | RecSysProject/ingest/json_ingest_.py:29-34 | every returned record is the decoding of a line that starts in the range, either at its start or just after a newline |
| JsonIngest.LoadJsonParallel | RecSysProject/ingest/json_ingest.py:26-41 | fails iff the worker count is below 1, which includes the `cpu_count() - 1` default on one core; otherwise returns the ranges' records concatenated in planner order |
| JsonIngest.ChunkOutputs | RecSysProject/ingest/json_ingest.py:34-37 | one job per planned range, in order, each giving that range's records |
| JsonIngest.PlanOutputsFrom | RecSysProject/ingest/json_ingest.py:34-40 | the concatenated outputs of the ranges planned from a line start are the records of the lines from there, in file order |
| JsonIngest.ParallelMatchesLineScan | RecSysProject/ingest/json_ingest.py:34-40 | with no exception other than decode errors, the parallel rows are the file's lines decoded in order with undecodable lines dropped |
| JsonIngest.RangeSizeIrrelevant | RecSysProject/ingest/json_ingest_.py:8 | the parallel rows do not depend on the range size |
| JsonIngest.ReadCount | RecSysProject/ingest/json_ingest.py:56-60 | with no limit every line is read; with limit `L`, `min(n, L + 1)` lines are read |
| JsonIngest.LoadJson | RecSysProject/ingest/json_ingest.py:53-61 | the enumerate loop with its counter-based break returns the serial load |
| JsonIngest.DecodeAllMeaning | RecSysProject/ingest/json_ingest.py:56-57 | decoding every line succeeds iff every line decodes, and then gives one record per line, in order |
| JsonIngest.SerialLoadReadsPrefix | RecSysProject/ingest/json_ingest.py:53-61 | `load_json` succeeds iff the first `min(n, L + 1)` lines decode, and returns their records in order |
| JsonIngest.SerialMatchesParallel | RecSysProject/ingest/json_ingest.py:66-117 | with no line limit and every line decodable, the serial and parallel loaders give the same rows |
| YelpData.RowsWithId | RecSysProject/ingest/hours_ingest.py:34 | the rows kept are exactly the input rows with that id |
| YelpData.RowsWithIdInOrder | RecSysProject/ingest/hours_ingest.py:34 | the kept rows are the rows with the id in table order, each once: their positions increase and cover every matching row |
| HoursFormat.ProcessTime | RecSysProject/ingest/hours_ingest_.py:11-17 | succeeds only on text with exactly one `-` |
| HoursFormat.ClockAccepted | RecSysProject/ingest/hours_ingest_.py:13-16 | one `H:M` half whose pieces `int()` accepts is reformatted to the zero-padded clock of their values |
| HoursFormat.ProcessTimeAccepts | RecSysProject/ingest/hours_ingest_.py:11-17 | a range `oh:om-ch:cm` of `int()`-readable pieces gives the two zero-padded clocks, for example `9:0-17:30` gives `09:00` and `17:30` |
| HoursFormat.ProcessTimeOnlyAccepts | RecSysProject/ingest/hours_ingest_.py:12-14 | every accepted text has exactly that shape: one `-` and one `:` in each half |
| HoursFormat.ProcessTimeIdempotent | RecSysProject/ingest/hours_ingest_.py:15-16 | feeding an output pair back as `open-close` returns the same pair |
| HoursFormat.ProcessHours | RecSysProject/ingest/hours_ingest_.py:22-39 | dispatching on whether the dict is null returns the row of the fixed per-day layout |
| HoursFormat.FillDays | RecSysProject/ingest/hours_ingest_.py:26-34 | the loop over the days of a present dict writes both cells of each day in turn, and stops with the error of the first day `process_time` rejects |
| HoursFormat.FillNullDays | RecSysProject/ingest/hours_ingest_.py:35-38 | the loop for a null dict writes None into both cells of every day |
| HoursFormat.HoursColumns | RecSysProject/ingest/hours_ingest_.py:22-39 | a null `hours` value never raises |
| HoursFormat.HoursColumnsCells | RecSysProject/ingest/hours_ingest_.py:26-38 | a successful row has exactly the 14 keys `monday_open` … `sunday_close`; a missing or empty day, or a null dict, gives None for both times; any other day gives `process_time`'s pair |
| HoursFormat.HoursColumnsFails | RecSysProject/ingest/hours_ingest_.py:26-30 | the row raises iff the dict is present and some non-empty day's text is rejected by `process_time` |
| HoursFormat.NullLikeEmpty | RecSysProject/ingest/hours_ingest_.py:35-38 | a null dict gives the same all-None row as an empty one |
| HoursFormat.ColumnCount | RecSysProject/ingest/hours_ingest_.py:6 | the seven day names give 14 distinct column keys |
| HoursFormat.DayColumnsSucceeds | RecSysProject/ingest/hours_ingest_.py:27-34 | the per-day loop succeeds iff every day's cells are produced |
| HoursFormat.DayColumnsFails | RecSysProject/ingest/hours_ingest_.py:27-30 | the day loop raises iff one of its days has a non-empty text that `process_time` rejects |
| HoursFormat.ColumnOwner | RecSysProject/ingest/hours_ingest_.py:33-34 | every column key is the open or close key of one of the days |
| HoursIngest.ExtractHoursMinutes | RecSysProject/ingest/hours_ingest.py:17-19 | succeeds only when the text has exactly one `:` |
| HoursIngest.ExtractHoursMinutesOf | RecSysProject/ingest/hours_ingest.py:17-19 | `H:M` gives `(int H, int M)` when both read as integers, and raises otherwise |
| HoursIngest.ClockRoundTrip | RecSysProject/ingest/hours_ingest.py:17-19 | reading back a zero-padded clock gives its hour and minute |
| HoursIngest.ProcessTimeReadsBack | RecSysProject/ingest/hours_ingest.py:17-19 | reading back the fields of `process_time`'s output gives the input's integer values |
| HoursIngest.HoursRows | RecSysProject/ingest/hours_ingest.py:42-43 | on success, one output row per input row, in order, with the id copied and the day columns of `process_hours` |
| HoursIngest.HoursRowsFails | RecSysProject/ingest/hours_ingest.py:42 | applying `process_hours` to every row raises iff some row's hours raise |
| HoursIngest.ParseHours | RecSysProject/ingest/hours_ingest.py:32-44 | an id that matches no row gives an empty frame; otherwise one row per selected input row, in order; fails iff some selected row's hours fail |
| HoursIngest.ParseHoursRows | RecSysProject/ingest/hours_ingest.py:33-43 | every output row has the 14 day columns, and with an id every row is that business's |
| Categories.AddCategories | RecSysProject/ingest/categories_ingest.py:29-30 | the set update adds exactly the stripped tokens of one categories value |
| Categories.MarkCategories | RecSysProject/ingest/categories_ingest.py:50-53 | the per-token loop sets to True exactly the cells of the row's stripped tokens and leaves the others |
| Categories.PopulateRow | RecSysProject/ingest/categories_ingest.py:42-53 | a row has one cell per category of the universe, True iff that category is one of the row's tokens |
| Categories.CollectCategories | RecSysProject/ingest/categories_ingest.py:29-30 | the set built over every row is the universe of stripped category tokens |
| Categories.SelectRows | RecSysProject/ingest/categories_ingest.py:32-34 | the kept row indexes are those with the requested id, or all of them, in order |
| Categories.PopulateRows | RecSysProject/ingest/categories_ingest.py:42-55 | one table row per kept index, each with the cells of that input row over the universe |
| Categories.ParseCategories | RecSysProject/ingest/categories_ingest.py:28-58 | the imperative build returns the category table |
| Categories.CategoryTable | RecSysProject/ingest/categories_ingest.py:28-58 | the bare empty frame is returned only when an id is given; a table's columns are the categories of the whole input |
| Categories.StrippedMeaning | RecSysProject/ingest/categories_ingest.py:30 | a token is collected iff it is the stripped form of one of the comma-separated pieces |
| Categories.UniverseMeaning | RecSysProject/ingest/categories_ingest.py:29-30 | the universe holds exactly the tokens of the non-null categories of the whole input, before any filtering |
| Categories.MatchingMeaning | RecSysProject/ingest/categories_ingest.py:32-34 | the kept row indexes are exactly the rows with the requested id, or all rows, in increasing order |
| Categories.CategoryTableShape | RecSysProject/ingest/categories_ingest.py:32-43 | the result is empty iff an id is given and no row has it; otherwise its categories are the whole input's universe, with one row per kept input row |
| Categories.CategoryRowMeaning | RecSysProject/ingest/categories_ingest.py:42-56 | each row keeps its input index and id, has a cell for every category, and a cell is True iff its category equals a stripped comma-separated token of that row |
| Categories.NullCategoriesAllFalse | RecSysProject/ingest/categories_ingest.py:44-49 | a row with null categories has every cell False |
| Categories.CategoryRowsInOrder | RecSysProject/ingest/categories_ingest.py:56 | rows keep the input order |
| Categories.AllRowsKept | RecSysProject/ingest/categories_ingest.py:39-43 | without an id every input row has its own row, at its own index |
| Attributes.RemoveQuotes | RecSysProject/data_analysis/attributes_summary.py:29 | the result has no quote characters, and text without quotes is unchanged |
| Attributes.CleanStringIdempotent | RecSysProject/data_analysis/attributes_summary.py:28-29 | cleaning a cleaned string changes nothing |
| Attributes.CleanQuoted | RecSysProject/data_analysis/attributes_summary.py:28-29 | `u'w'`, `'w'` and `"w"` all clean to `w` |
| Attributes.StringAdds | RecSysProject/data_analysis/attributes_summary.py:28-34 | the only value that can be added is the cleaned string, and it is added iff `include_false` is on or its lower-case form is not `none` |
| Attributes.ParseStringAttributes | RecSysProject/data_analysis/attributes_summary.py:27-35 | the key's set grows by exactly the string additions and no other key changes |
| Attributes.NumericAdds | RecSysProject/data_analysis/attributes_summary.py:45-54 | `n` is added iff `int()` gives `n`; None is added iff `include_false` is on and `int()` fails |
| Attributes.ParseNumericAttributes | RecSysProject/data_analysis/attributes_summary.py:45-54 | the key's set grows by exactly the numeric additions and no other key changes |
| Attributes.BooleanAdds | RecSysProject/data_analysis/attributes_summary.py:71-82 | True is added iff the text is `True`; False iff `include_false` is on and the text is `False`; None iff it is on and the text is neither; with it off only True can be added |
| Attributes.ParseBooleanAttributes | RecSysProject/data_analysis/attributes_summary.py:71-82 | the key's set grows by exactly the boolean additions and no other key changes |
| Attributes.DictText | RecSysProject/data_analysis/attributes_summary.py:97 | the rewritten dictionary text has no single quote left |
| Attributes.DictAdds | RecSysProject/data_analysis/attributes_summary.py:98-104 | the dict step raises iff the literal is not a dictionary; a None literal adds exactly None |
| Attributes.DictAddsEntries | RecSysProject/data_analysis/attributes_summary.py:105-110 | a dictionary adds exactly its `(key, value)` pairs with `include_false` on, and exactly its keys with a truthy value with it off |
| Attributes.EntryAddsStep | RecSysProject/data_analysis/attributes_summary.py:105-110 | each entry adds its key when its value is truthy (`include_false` off), or its `(key, value)` pair (on) |
| Attributes.AddEntries | RecSysProject/data_analysis/attributes_summary.py:105-110 | the loop over the entries adds exactly the entries' additions |
| Attributes.ParseBooleanDictAttributes | RecSysProject/data_analysis/attributes_summary.py:96-110 | raises iff the literal is not a dictionary; otherwise the key's set grows by exactly the dict additions (None for a null dict) |
| Attributes.ValueAdds | RecSysProject/data_analysis/attributes_summary.py:135-145 | the dispatch raises iff the key belongs to no earlier family, is a dict attribute, and its literal is not a dictionary |
| Attributes.ParseValue | RecSysProject/data_analysis/attributes_summary.py:135-145 | one value updates only its key's set, by the additions of the first family that lists the key, or by the raw value |
| Attributes.ParseEntry | RecSysProject/data_analysis/attributes_summary.py:130-145 | one entry creates its key if new, skips a None value, and otherwise dispatches; it raises iff the dispatch raises |
| Attributes.ParseRow | RecSysProject/data_analysis/attributes_summary.py:127-145 | the loop over a row's entries gives the row's update of the dictionary |
| Attributes.RowUpdate | RecSysProject/data_analysis/attributes_summary.py:127-145 | a row that does not raise leaves exactly the old keys plus the row's keys |
| Attributes.MergedStep | RecSysProject/data_analysis/attributes_summary.py:130-145 | handling one more key creates its entry if missing and adds that key's values |
| Attributes.MergedStepAt | RecSysProject/data_analysis/attributes_summary.py:130-145 | after one more key, that key holds its old values plus its value's additions, and every other key keeps its values |
| Attributes.RowUpdateKeys | RecSysProject/data_analysis/attributes_summary.py:128-145 | after a row every old key keeps its values plus the row's additions, and every key of the row has an entry, even when all its values are None |
| Attributes.RowUpdateRaises | RecSysProject/data_analysis/attributes_summary.py:142-143 | a value whose dict literal fails makes the whole row raise |
| Attributes.ParseAttributes | RecSysProject/data_analysis/attributes_summary.py:123-159 | the method returns the attributes of all rows, or of the first row with the id |
| Attributes.AttributesOf | RecSysProject/data_analysis/attributes_summary.py:147-149 | only a non-empty table can raise; after a successful parse every key of the last row's dict has an entry |
| Attributes.ParseAttributesSpec | RecSysProject/data_analysis/attributes_summary.py:150-159 | an id that no row has gives an empty dictionary |
| Attributes.AttributesKeys | RecSysProject/data_analysis/attributes_summary.py:128-134 | a key is in the result iff some row's attributes hold it |
| Attributes.AttributesValues | RecSysProject/data_analysis/attributes_summary.py:135-145 | a value is under a key iff some row's value for that key adds it; sets only grow across rows |
| Attributes.AttributesFailure | RecSysProject/data_analysis/attributes_summary.py:127-149 | the whole parse raises iff some row has a value that raises |
| Attributes.AttributesFailurePrefix | RecSysProject/data_analysis/attributes_summary.py:147-149 | the parse of the first `n` rows raises iff one of them raises |
| Attributes.AttributesFailureStep | RecSysProject/data_analysis/attributes_summary.py:127-149 | one more row makes the parse raise iff the rows before it did or that row raises |
| Attributes.IncludeFalseNarrows | RecSysProject/data_analysis/attributes_summary.py:30-34 | `include_false` does not change whether a value raises; off, a non-dict family adds a subset of what on adds; for dicts, a key is added with it off iff it has a truthy pair with it on |
| Paths.GetPath | RecSysProject/ingest/utils.py:20-23 | the path is the fixed lead `../directory/prefix`, then the name, then the extension |
| Paths.NameOfGetPath | RecSysProject/ingest/utils.py:21-23 | stripping the fixed lead and extension recovers the name |
| Paths.GetPathInjective | RecSysProject/ingest/utils.py:21-23 | for fixed flags and directory, different names give different paths |
| Paths.JsonAndParquetDiffer | RecSysProject/ingest/utils.py:22 | a `.json` path never equals a `.parquet` path |
| Paths.DefaultBusinessPath | RecSysProject/ingest/utils.py:20-23 | the defaults give `../data/yelp_academic_dataset_business.json` |
| Paths.GetImagePath | RecSysProject/ingest/utils.py:26-27 | the path is `../img/`, the name, then `.png` |
| BlockedTime.ParseClock | RecSysProject/recommender/blocked_time_cf.py:76-77 | an accepted `%H:%M` time is under 1440 minutes and has exactly one `:` |
| BlockedTime.ParseClockOfClock | RecSysProject/recommender/blocked_time_cf.py:76-77 | every zero-padded clock of a valid hour and minute parses to `h * 60 + m` |
| BlockedTime.BlocksFromCount | RecSysProject/recommender/blocked_time_cf.py:79-84 | `ceil((close - open) / 60)` blocks when close is after open, none otherwise |
| BlockedTime.BlocksFromShape | RecSysProject/recommender/blocked_time_cf.py:80-84 | block `k` starts at `open + 60k`, before close, and ends an hour later wrapped to a time of day |
| BlockedTime.GenerateBlocks | RecSysProject/recommender/blocked_time_cf.py:79-84 | the while loop produces exactly the day's blocks |
| BlockedTime.ProcessRow | RecSysProject/recommender/blocked_time_cf.py:67-84 | the loop over Monday to Sunday gives one row's blocks, or its error |
| BlockedTime.DayBlockOrigin | RecSysProject/recommender/blocked_time_cf.py:71-84 | every block of one day carries that day, comes from an open and close that are both present and parse, and starts a whole number of hours after open, before close |
| BlockedTime.RowBlocksStepFails | RecSysProject/recommender/blocked_time_cf.py:69-78 | once a day raises, the whole row raises with that error |
| BlockedTime.RowBlockOrigin | RecSysProject/recommender/blocked_time_cf.py:70-84 | every block comes from a day whose open and close are both present and parse, and starts a whole number of hours after open, before close |
| BlockedTime.DayBlocks | RecSysProject/recommender/blocked_time_cf.py:70-84 | one day raises KeyError iff its open or close column is missing, and a day with blocks has both times present |
| BlockedTime.Preprocess | RecSysProject/recommender/blocked_time_cf.py:57-85 | only a non-empty table can raise; on success the last row's business has an entry |
| BlockedTime.PreprocessKeys | RecSysProject/recommender/blocked_time_cf.py:62-64 | every business row gets an entry, and only those |
| BlockedTime.PreprocessEntry | RecSysProject/recommender/blocked_time_cf.py:62-85 | a business's entry is the block list of its last row |
| BlockedTime.PreprocessBlockShape | RecSysProject/recommender/blocked_time_cf.py:76-84 | every processed block starts before midnight and ends an hour later, wrapped to a time of day |
| BlockedTime.UserHours | RecSysProject/recommender/blocked_time_cf.py:89-96 | the hours are exactly those of the user's reviews |
| BlockedTime.AnyBlockMatchesMeaning | RecSysProject/recommender/blocked_time_cf.py:102-111 | the nested loops return True iff some block and some hour match |
| BlockedTime.AnyHourInMeaning | RecSysProject/recommender/blocked_time_cf.py:107-109 | the inner loop returns True iff some hour lies in `[start_hour, end_hour)` |
| BlockedTime.BlockMatchesItsHour | RecSysProject/recommender/blocked_time_cf.py:104-108 | a one-hour block matches exactly its own starting hour, and never when it wraps past midnight |
| BlockedTime.TimeBasedRecommender.constructor | RecSysProject/recommender/blocked_time_cf.py:15-20 | stores the tables; nothing is processed yet |
| BlockedTime.TimeBasedRecommender.PreprocessBusinessHours | RecSysProject/recommender/blocked_time_cf.py:57-85 | the loop over the rows returns the processed hours map, or the first error |
| BlockedTime.TimeBasedRecommender.Fit | RecSysProject/recommender/blocked_time_cf.py:22-40 | stores the weighted averages, then the processed hours; it raises iff preprocessing raises, and then the processed hours keep their old value |
| BlockedTime.TimeBasedRecommender.FittedBlocksShaped | RecSysProject/recommender/blocked_time_cf.py:57-85 | once the processed hours are stored, every block of every business has the shape `BusinessHoursMatchMeaning` needs |
| BlockedTime.TimeBasedRecommender.BusinessHoursMatch | RecSysProject/recommender/blocked_time_cf.py:87-111 | False when the user has no reviews or the business has no blocks |
| BlockedTime.TimeBasedRecommender.BusinessHoursMatchMeaning | RecSysProject/recommender/blocked_time_cf.py:87-111 | for blocks of that shape, True iff some review hour of the user equals the starting hour of some block that does not wrap |
| BlockedTime.TimeBasedRecommender.Estimate | RecSysProject/recommender/blocked_time_cf.py:42-55 | non-zero only when the hours match; when they match, the business's average, or 0 when it has none |
| TimeBased.Slot | RecSysProject/recommender/time_based_mf.py:72-73 | the slot is below 48, and its half hour contains the current time |
| TimeBased.Rated | RecSysProject/recommender/time_based_mf.py:67 | exactly the businesses the user has a rating row for |
| TimeBased.Unique | RecSysProject/recommender/time_based_mf.py:67 | the same ids, each once |
| TimeBased.UnratedIds | RecSysProject/recommender/time_based_mf.py:67 | exactly the hours-table ids the user has not rated |
| TimeBased.RowsOf | RecSysProject/recommender/time_based_mf.py:75 | every row joined for one id carries that id and its estimate, and each of its hours rows appears |
| TimeBased.RowsOfFrom | RecSysProject/recommender/time_based_mf.py:75 | every joined row takes its id and its open and close cells from one hours row with that id |
| TimeBased.MergeRows | RecSysProject/recommender/time_based_mf.py:68-75 | every merged row is for a candidate with its model estimate, and every hours row of a candidate appears |
| TimeBased.MergeRowsFrom | RecSysProject/recommender/time_based_mf.py:68-75 | every merged row takes its id and its day's open and close cells from one hours row |
| TimeBased.OpenMinutes | RecSysProject/recommender/time_based_mf.py:78 | null gives -1; otherwise it succeeds iff `strptime('%H:%M')` accepts the text, giving its minutes, in `[0, 1440)` |
| TimeBased.CloseMinutes | RecSysProject/recommender/time_based_mf.py:79 | null gives 1440; otherwise it succeeds iff `strptime('%H:%M')` accepts the text, giving its minutes |
| TimeBased.Convert | RecSysProject/recommender/time_based_mf.py:78-79 | raises iff some row has a time `strptime` rejects; otherwise each row keeps its id and estimate and gets both times in minutes |
| TimeBased.OpenNow | RecSysProject/recommender/time_based_mf.py:81-84 | keeps exactly the rows with `open <= slot < close`, each as many times as in the input |
| TimeBased.InsertDesc | RecSysProject/recommender/time_based_mf.py:86 | inserting adds exactly one element, and the new head is the inserted one or the old head |
| TimeBased.InsertDescSorted | RecSysProject/recommender/time_based_mf.py:86 | inserting into a descending list keeps it descending |
| TimeBased.SortDesc | RecSysProject/recommender/time_based_mf.py:86 | the result is descending by estimate and a permutation of the input |
| TimeBased.Head | RecSysProject/recommender/time_based_mf.py:88 | the first `min(n, length)` entries |
| TimeBased.Names | RecSysProject/recommender/time_based_mf.py:89 | one name per id: the business's `name`, else `Unknown Business <id>` |
| TimeBased.OpenCandidatesMeaning | RecSysProject/recommender/time_based_mf.py:67-84 | every kept candidate is an unrated business of the hours table, with its estimate, open at the slot number, and with the open and close minutes of one of its hours rows for the day |
| TimeBased.OpenCandidatesComplete | RecSysProject/recommender/time_based_mf.py:67-84 | every unrated hours row whose times convert and which is open at the slot number is kept |
| TimeBased.OpenCandidates | RecSysProject/recommender/time_based_mf.py:67-84 | raises the missing-column error iff the hours table lacks the day's columns; every kept candidate is open at the slot number |
| TimeBased.TopNames | RecSysProject/recommender/time_based_mf.py:86-89 | `min(n, count)` names of the best-first candidates; every candidate left out rates no higher than any one returned |
| TimeBased.RecommendTopN | RecSysProject/recommender/time_based_mf.py:66-91 | the recommendation is the names of the first `num_recommendations` open candidates in descending order of estimate |
| TimeBased.RecommendBusinesses | RecSysProject/recommender/time_based_mf.py:66-91 | raises iff building the open candidates raises; otherwise at most `num_recommendations` names |

## Left out

- Concurrency. The process pool, `pool.close`/`join` and logging are left out. `pool.map` is an order-preserving sequential map.
- `cpu_count()` and the wall clock (`datetime.now()`, `pd.Timestamp.now()`) are parameters.
- File system. `os.path.getsize`, `open`, `seek`, `tell` and `readline` work on the file as a byte sequence. Text-mode `tell()` in `process_chunk` is taken to be the byte offset.
- Foreign parsers.
  - `json.loads` is the parameter `dec`. A decoded record is a `Json` value whose numbers are integers.
  - In `parse_boolean_dict_attributes`, the `json.loads` attempt and its `ast.literal_eval` fallback are one parameter, `literal`. Dictionary values are literal scalars.
- Text.ParseInt: models `int()` on surrounding whitespace, an optional sign and ASCII digits. Underscores between digits and non-ASCII digits, which Python's `int()` also accepts, are not modelled.
- Text.Lower: lowers ASCII letters only. Python's `lower()` also lowers other letters, and a few of them change length (`'İ'.lower()` has two characters). The model only compares lowered text with `none` and lowers the ASCII day names.
- FileLines.LineEnd: a line ends only at byte 10, as in the binary-mode `readline` of `generate_chunks`. `process_chunk` and `load_json` read in text mode with universal newlines, so there a lone `\r` or `\r\n` would also end a line; files with carriage returns are not modelled.
- BlockedTime.ParseClock: models `strptime('%H:%M')` on one or two ASCII digits per field. Non-ASCII digits and the looser forms `strptime` accepts are not modelled.
- pandas. DataFrames are sequences of rows or maps, so the following are not modelled:
  - `apply` column inference and NaN and `fillna` semantics;
  - a category literally named `business_id` clashing with the id column;
  - index alignment beyond keeping the input index.
- Attributes.ParseAttributes: the final conversion of each set to a list is not modelled. The result is the map of sets, because list order depends on Python's set hashing.
- Attributes: Python's `True == 1` hash equality inside one set is not modelled. `ABool(true)` and `AInt(1)` are distinct.
- Attributes: attribute values are strings or None. Other JSON types reaching the raw-value branch are not modelled.
- TimeBased.SortDesc: pandas' default sort is not stable. The model is a stable descending insertion sort, so the order among equal estimates is not claimed.
- TimeBased.RecommendBusinesses: `merged_data` is a module-level table in the source, passed here as the ratings parameter.
- TimeBased.RecommendBusinesses: `num_recommendations` is a natural number. A negative `head(n)` is not modelled.
- TimeBased.RecommendBusinesses: `algo.predict` is the parameter `predict`. The day name is given by its index in Monday–Sunday order.
- BlockedTime.TimeBasedRecommender.Fit: the time-decay weighted average is floating-point pandas work, so it is passed in as a map.
- BlockedTime.TimeBasedRecommender.Fit: the Surprise `AlgoBase` machinery and the raw-id lookup in `estimate` are not modelled. `Estimate` takes the raw ids, None standing for an unknown id, which yields 0.
- The Surprise SVD/KNN models, RMSE/MAE, NDCG, the `MF` wrapper, the plotting scripts, parquet I/O and every `__main__` script are not part of this model.
