# Technology-trend pipeline: a Dafny model

The repository is a set of batch scripts for a technology-trend study. They
gather patents and scholarly works from the Lens.org search API and news
articles from the GDELT 2.0 Global Knowledge Graph. They clean the raw
downloads into tables. They tag each row with the technologies whose keyword
regular expressions match its text. They keep a log of the raw files already
processed, so that a later run only handles files that are new.

This project models the logic of those scripts as pure Dafny functions over
immutable data and proves properties about them. It has one module per
concern:

- `KeywordRegex` models `src/regex.py`. It turns keyword lists into
  alternation patterns and combines the per-technology patterns.
- `TechFilter` models `tech_filter.py`. It combines the text columns, adds
  one boolean column per technology, drops `combined_text` and keeps the
  rows that some technology matches.
- `GdeltFilter` models `gdelt_tech_filter.py`, both as written and
  corrected (see Findings).
- `GdeltMaster` models the master-list handling of `gdelt_ingestion.py`.
- `Dimensions` models the dimension tables of `gdelt_append.py`, which
  explode `;`-separated GKG fields into one row per entry.
- `Ledger` models the processed-files log that is shared by the cleaning
  and append scripts.
- `Calendar` models `get_prev_month`, the default date window of the Lens
  scripts.
- `LensCli` models the argument checks and the main flow of
  `lens_patent_ingestion.py` and `lens_api_reader.py`.
- `PatentQuery` and `JournalQuery` model the JSON search bodies sent to
  the Lens API. `PatentQuery` has a decoder, so its round trips are proved.
- `Pagination` and `LensIngest` model the paging loops. These loops save
  one JSON file per page and stop at the result cap or on an HTTP error.
- `PatentCleaning` and `JournalCleaning` model the two cleaning scripts,
  including `src/author_info.py`.
- `Delivery` models where outputs go: an upload to Google Drive, or a
  notice that Azure is unsupported.
- `Wrappers`, `Strings`, `Seqs` and `Frames` are shared helpers. `Frames`
  is a minimal data frame: a list of column names and rows of optional
  cells.

Everything the scripts take from the outside world is a parameter of the
model:

- regular-expression matching, given as a function from (pattern, text) to
  bool;
- `pd.to_datetime` and `strftime`;
- today's date;
- HTTP responses;
- directory listings and file contents;
- configuration values.

File writes and uploads are returned as lists of actions instead of being
performed.

## Model

| member | source | states |
|---|---|---|
| KeywordRegex.KeywordsToPattern | scripts/src/regex.py:18-43 | With optional spaces the pattern contains no space; an empty keyword list gives the empty pattern, or `()` when grouped; grouping wraps exactly the ungrouped pattern in parentheses; with every option off the pattern is the keywords joined by the alternation bar. |
| KeywordRegex.PatternAlternatives | scripts/src/regex.py:31-38 | For keywords without a bar, splitting the ungrouped pattern at the bar gives one alternative per keyword, in order: the keyword's words joined by `.?` when spaces are optional, wrapped in `\b` when word boundaries are on. |
| KeywordRegex.AddRegexPattern | scripts/src/regex.py:45-55 | Each technology gets the default-option pattern of its keyword list; names, keywords and order are unchanged. |
| KeywordRegex.GroupedPatternOfCompiled | scripts/src/regex.py:57-60 | The combined pattern is every technology's pattern in parentheses, joined by the bar in declaration order. |
| KeywordRegex.AddRegexPatternAsWritten | scripts/src/regex.py:45-55 | As written, each technology's pattern is built from the characters of its configured keyword string, because that string is iterated directly. |
| KeywordRegex.AsWrittenAlternativesAreCharacters | scripts/src/regex.py:31-38 | A keyword string without a bar compiles to one alternative per character, with a space becoming `.?`. |
| KeywordRegex.AsWrittenCounterexample | scripts/src/regex.py:54 | The keyword string `ai ml` compiles to the five alternatives `a`, `i`, `.?`, `m`, `l` instead of one phrase. |
| KeywordRegex.PhraseAlternative | scripts/src/regex.py:31-33 | With default options the phrase `ai ml` becomes the alternative `ai.?ml`. |
| KeywordRegex.CorrectedCounterexample | scripts/src/regex.py:54 | Read as a one-phrase list, the same keyword string compiles to the single alternative `ai.?ml`. |
| Delivery.SaveActions | scripts/tech_filter.py:60-68 | At most one delivery action: an upload of the path exactly when the target is Google Drive, an Azure notice exactly when it is Azure, and nothing for any other target. |
| Delivery.DriveOnlyActions | scripts/gdelt_tech_filter.py:43-48 | At most one action, present exactly when the target is Google Drive; never an Azure notice. |
| Frames.SetColumn | scripts/tech_filter.py:37-39 | Assigning a column overwrites an existing one in place or appends a new last column; every row holds the new values there and no other cell changes. |
| Frames.DropColumn | scripts/tech_filter.py:47 | Fails exactly when the column is absent; otherwise the column is gone, the other columns keep their order and every row keeps its other cells in place. |
| Frames.Render | scripts/tech_filter.py:39 | `astype(str)` leaves text unchanged, writes a missing value as `nan` and a flag as `True` or `False`. |
| Frames.Column | scripts/gdelt_append.py:18 | Fails exactly when the column is absent; otherwise it holds that column's cell from every row, in row order. |
| TechFilter.InputFormat | scripts/tech_filter.py:28-34 | Fails with IndexError exactly when the file name has no dot. |
| TechFilter.InputFormatOfComponents | scripts/tech_filter.py:28-34 | The format is decided by the second dot-separated piece in lower case: `csv`, `parquet`, or a ValueError for anything else. |
| TechFilter.DefaultOutputName | scripts/tech_filter.py:52-53 | The default output name is the input name up to its first dot, followed by `_filtered.csv`. |
| TechFilter.SpacedIsJoin | scripts/tech_filter.py:37-39 | A row's combined text is a leading space followed by the chosen columns' values joined by single spaces. |
| TechFilter.AppendColumns | scripts/tech_filter.py:38-39 | Fails exactly when some chosen column is missing; otherwise the header and the row count are kept. |
| TechFilter.CombineText | scripts/tech_filter.py:37-39 | Succeeds exactly when every chosen column exists, with `combined_text` itself counted once it is created; the result has `combined_text`, every original column and the same row count. |
| TechFilter.AppendColumnsFresh | scripts/tech_filter.py:38-39 | Each pass appends a space and the next column's value, so after all passes each row holds its reference combined text. |
| TechFilter.CombineTextFresh | scripts/tech_filter.py:37-39 | When `combined_text` is new, the stage appends one column holding each row's reference combined text and changes nothing else. |
| TechFilter.TagColumns | scripts/tech_filter.py:41-43 | After tagging, every technology names a column, the earlier columns are kept and the row count is unchanged. |
| TechFilter.TagColumnsFresh | scripts/tech_filter.py:41-43 | With fresh technology names, tagging appends one flag column per technology, in order, holding whether its pattern matches the row's combined text. |
| TechFilter.SelectRows | scripts/tech_filter.py:48 | Fails exactly when a named column is missing; otherwise it keeps the header, and an input row is kept exactly when some named column passes the test. |
| TechFilter.SelectAny | scripts/tech_filter.py:48 | Fails exactly when a named column is missing; otherwise a row is kept exactly when one of the technology columns holds true. |
| TechFilter.TagTable | scripts/tech_filter.py:37-43 | Fails exactly when a configured text column is absent, the combined column itself counting as present; otherwise every original column and every technology column is present, the combined text column is added and the row count is kept. |
| TechFilter.TagTableFresh | scripts/tech_filter.py:37-43 | With fresh names, combining and tagging append the combined text and then the flags to every row. |
| TechFilter.FilterTable | scripts/tech_filter.py:37-48 | Fails whenever a text column is missing; on success the output lacks `combined_text`, keeps every other input column and has no more rows than the input. |
| TechFilter.FilterTableSpec | scripts/tech_filter.py:37-48 | For present columns and fresh names, the output columns are the input columns plus one flag per technology, and the rows are the input rows that some technology's pattern matches, in input order. |
| TechFilter.RunTechFilter | scripts/tech_filter.py:2-70 | Fails with the input-format error on an undotted or unknown input name; a success needs every text column, names the output as given or after the input's first dot-piece, uploads it exactly when saving to Google Drive, and never adds rows. |
| TechFilter.TechFilterSpec | scripts/tech_filter.py:2-70 | With a valid input name, present text columns and fresh names, the run succeeds and writes exactly the rows that some technology matches, with the input columns plus the flags, under the given or default name. |
| GdeltFilter.DropAllMissing | scripts/gdelt_tech_filter.py:32 | Fails exactly when a named column is missing; otherwise it keeps the header, and a row is kept exactly when some named cell is present. |
| GdeltFilter.TaggedRowsPresent | scripts/gdelt_tech_filter.py:28-32 | Flag cells are never missing, so with at least one technology the `dropna` keeps the tagged table unchanged. |
| GdeltFilter.RunGdeltFilterAsWritten | scripts/gdelt_tech_filter.py:2-49 | Fails whenever a text column is missing and succeeds only with an output name; the output lacks `combined_text` and has no more rows; the bare output name is uploaded exactly when saving to Google Drive. |
| GdeltFilter.AsWrittenKeepsEveryRow | scripts/gdelt_tech_filter.py:22-33 | As written, with at least one technology, the output is every input row, matched or not, extended with its flags. |
| GdeltFilter.AsWrittenNoTechsDropsAll | scripts/gdelt_tech_filter.py:27-32 | As written, with no technologies, every row is dropped. |
| GdeltFilter.NoSubsetDropsAll | scripts/gdelt_tech_filter.py:32 | `dropna(how='all')` over an empty subset drops every row. |
| GdeltFilter.DropnaKeepsUnmatchedRows | scripts/gdelt_tech_filter.py:32 | When no technology matches any row, the script as written still outputs every row while the corrected one outputs none. |
| GdeltFilter.RunGdeltFilter | scripts/gdelt_tech_filter.py:2-49 | The corrected script fails whenever a text column is missing and succeeds only with an output name; the output lacks `combined_text` and has no more rows; an upload happens exactly when saving to Google Drive. |
| GdeltFilter.GdeltFilterSpec | scripts/gdelt_tech_filter.py:22-37 | For present columns and fresh names, the corrected script keeps an input row exactly when some technology matches it, with one flag column per technology, under the given name; the output rows are the matched input rows in input order, each followed by its flags. |
| GdeltFilter.CorrectedDropsUnmatched | scripts/gdelt_tech_filter.py:32 | When no technology matches any row, the corrected script outputs no rows. |
| Dimensions.DimensionPolicy | scripts/gdelt_append.py:2-14 | Four dimensions, locations, organisations, persons and names, read from distinct GKG columns; each output list ends with `text_position`, and locations has nine fields with an unnamed sixth. |
| Dimensions.EntryFields | scripts/gdelt_append.py:18 | An entry splits at `#` into at most as many fields as there are output columns, padded with missing cells; more fields is a ValueError; the text fields are exactly the pieces. |
| Dimensions.EntryRoundTrip | scripts/gdelt_append.py:18 | Joining an entry's fields back with `#` gives the entry. |
| Dimensions.EntryRows | scripts/gdelt_append.py:18 | One row per entry, each the record's id followed by that entry's `#`-fields; fails exactly when an entry has too many fields. |
| Dimensions.RecordRows | scripts/gdelt_append.py:18 | A text cell gives one row per `;`-entry and a missing cell one row of missing fields, each starting with the id; fails exactly when an entry has too many fields. |
| Dimensions.RecordRejoin | scripts/gdelt_append.py:18 | Joining each exploded row's fields with `#` and the rows with `;` gives back the cell. |
| Dimensions.DimensionRows | scripts/gdelt_append.py:18-19 | Fails exactly when some cell has an over-long entry; otherwise there are as many rows as entries in all cells, each starting with one of the ids. |
| Dimensions.DimensionRowsAppend | scripts/gdelt_append.py:18-19 | The rows of two batches of records are the rows of the first batch followed by those of the second. |
| Dimensions.CreateDimensionDf | scripts/gdelt_append.py:16-19 | Fails with KeyError exactly when the id or dimension column is missing; otherwise the header is `id` and the outputs, with one full-width row per exploded entry. |
| Dimensions.CreateDimensionDfAsWritten | scripts/gdelt_append.py:16-19 | As written the function fails on every table: KeyError for a missing dimension column, AttributeError from `.str` when a non-empty column holds no text, then KeyError for a missing `id` column, and otherwise `pd.concat` refusing a Series as its list of objects. |
| Dimensions.MissingColumnFailsEarly | scripts/gdelt_append.py:18 | A one-record table whose dimension cell is missing fails as written at `.str`, while the corrected form gives one row of missing fields behind the id. |
| Dimensions.AsWrittenNeverBuilds | scripts/gdelt_append.py:19 | The function as written always fails, while the corrected one succeeds exactly when both columns exist and no entry is too long. |
| Dimensions.DimensionCounterexample | scripts/gdelt_append.py:19 | One record whose locations cell holds two entries: as written the function fails, the corrected one builds two rows. |
| Dimensions.OneRecordTable | scripts/gdelt_append.py:18-19 | A one-record table gives one row per entry of its cell in the corrected form and fails as written. |
| GdeltMaster.PyIndex | scripts/gdelt_ingestion.py:6 | Python indexing, including negative indices; `None` exactly where Python raises IndexError. |
| GdeltMaster.ExtractFilename | scripts/gdelt_ingestion.py:2-8 | A result exists exactly when the index is within the `.`-pieces of the last path segment; the result contains no `.` or `/`. |
| GdeltMaster.GdeltUrl | scripts/gdelt_ingestion.py:2-8 | For a master-list URL `dir/STAMP.KIND.rest`, piece 0 is the stamp and piece 1 the kind; a segment without a dot has no piece 1. |
| GdeltMaster.UpdateMaster | scripts/gdelt_ingestion.py:10-26 | Fails with ValueError exactly when the stamp of some complete `gkg` line does not parse; otherwise one entry per complete `gkg` line, each entry's stamp and kind are the pieces of its URL and its datetime is the parsed stamp. |
| GdeltMaster.UpdateMasterKeeps | scripts/gdelt_ingestion.py:16-23 | When every stamp parses, a line yields an entry exactly when it is complete and of kind `gkg`. |
| GdeltMaster.SelectWindow | scripts/gdelt_ingestion.py:58-60 | Keeps exactly the entries with `after < datetime <= before`. |
| GdeltMaster.WindowsTile | scripts/gdelt_ingestion.py:58-60 | Adjacent windows `(a, b]` and `(b, c]` are disjoint and together select as many entries as `(a, c]`. |
| GdeltMaster.ChooseSource | scripts/gdelt_ingestion.py:48-53 | The local copy is used exactly when it exists and updating is switched off. |
| GdeltMaster.DefaultDownloads | scripts/gdelt_ingestion.py:41 | With the default `--update_master`, the list is always downloaded. |
| GdeltMaster.Downloads | scripts/gdelt_ingestion.py:67-71 | One download per selected entry, in order: the i-th is the URL of the i-th entry inside the window. |
| GdeltMaster.SelectWindowSplit | scripts/gdelt_ingestion.py:58-60 | On a list in chronological order, the window `(a, c]` selects the entries of `(a, b]` followed by those of `(b, c]`. |
| GdeltMaster.DownloadsSplit | scripts/gdelt_ingestion.py:58-71 | On a list in chronological order, runs over `(a, b]` and then `(b, c]` download the same files in the same order as one run over `(a, c]`. |
| Ledger.NewFiles | scripts/patent_cleaning.py:22-35 | A file is new exactly when it is listed and not in the log; there are never more new files than listed ones. |
| Ledger.AppendLog | scripts/patent_cleaning.py:37-41 | The log after an append is the old log followed by the new names, so every earlier entry is kept. |
| Ledger.NewFilesInOrder | scripts/gdelt_append.py:38-41 | The new files of a listing split in two are the new files of each part, in order, so they keep directory order (the intended reading: `main` as written never reaches these lines). |
| Ledger.EmptyLogListsAll | scripts/journal_cleaning.py:88-100 | With an empty log, every listed file is new, in directory order. |
| Ledger.NothingNewAfterAppend | scripts/patent_cleaning.py:168-169 | After the new files are logged, a second listing of the same directory finds nothing new. |
| Ledger.NewFilesIdempotent | scripts/journal_cleaning.py:88-100 | Listing the new files of the new-file list changes nothing. |
| Ledger.AppendEachIsBulk | scripts/journal_cleaning.py:32-44 | Appending file names one at a time gives the same log as appending them all at once. |
| Calendar.PrevDay | scripts/lens_patent_ingestion.py:285 | The day before a valid date is a valid, earlier date; only the first representable day has none. |
| Calendar.PrevNextDay | scripts/lens_patent_ingestion.py:285 | Stepping forward one day undoes stepping back one day. |
| Calendar.PrevMonth | scripts/lens_patent_ingestion.py:284-288 | The window runs from day 1 to the last day of one month, and the day after its end is the first of the given date's month; only January of the first year has none. |
| Calendar.PrevMonthIsPreviousMonth | scripts/lens_api_reader.py:200-204 | The window's month is the calendar month before the given date's, wrapping to December of the previous year in January. |
| Calendar.IsoFormat | scripts/lens_patent_ingestion.py:288 | `str(date)` is ten characters with dashes at positions 4 and 7. |
| Calendar.IsoFormatInjective | scripts/lens_patent_ingestion.py:288 | Different dates give different ISO strings. |
| Calendar.GetPrevMonth | scripts/lens_patent_ingestion.py:284-288 | Two ten-character ISO dates of the same year and month, the first ending in `01`; only January of the first year has none. |
| LensCli.ArgsError | scripts/lens_patent_ingestion.py:317-351 | Reports the first failing check in source order: no arguments, `--month` with a date, only one of `--before` and `--after`, an unknown save option; none is reported exactly when every check passes, and the save check needs a list of valid options. |
| LensCli.AcceptedArgs | scripts/lens_api_reader.py:232-256 | Without a save check, arguments are accepted exactly when there is at least one, `--before` and `--after` come together, and `--month` is not combined with them. |
| LensCli.SaveTarget | scripts/lens_patent_ingestion.py:345-351 | Without `--save` the configured default target is used; with it, the given option. |
| LensCli.PatentMainAsWritten | scripts/lens_patent_ingestion.py:293-386 | Rejected exactly when an argument check fails, with that check's code; a run that goes on to ingest saves to the chosen target and had no explicit date range. |
| LensCli.PatentMain | scripts/lens_patent_ingestion.py:361-374 | The corrected script rejects exactly as the original; an explicit range is queried as the ISO strings of its dates, saving to the chosen target. |
| LensCli.ReaderMainAsWritten | scripts/lens_api_reader.py:209-292 | argparse refuses `--save`, which the reader's parser does not define; otherwise rejected exactly when one of its three argument checks fails; it reaches the query only without an explicit date range, saving locally. |
| LensCli.ReaderMain | scripts/lens_api_reader.py:267-280 | argparse refuses `--save`; otherwise the corrected reader rejects exactly when a check fails and queries an explicit range as its ISO date strings, saving locally. |
| LensCli.ReaderAgreesWithPatent | scripts/lens_api_reader.py:232-275 | Without `--save`, the corrected reader and patent script reject the same arguments and query the same window. |
| LensCli.DefaultWindowIsPreviousMonth | scripts/lens_patent_ingestion.py:364-368 | Without `--before`, an accepted run queries from the first day of the previous month to the day before the first of the current month. |
| LensCli.ExplicitRangeCrashes | scripts/lens_patent_ingestion.py:364-371 | With an accepted explicit range both scripts as written crash concatenating a date with a string (the reader once argparse has accepted its options), while the corrected script queries that range as ISO strings. |
| LensCli.DefaultWindowUnchanged | scripts/lens_patent_ingestion.py:364-373 | Without a date range, the corrected flows behave exactly as written. |
| PatentQuery.TemplatesOk | scripts/lens_patent_ingestion.py:82-175 | The fixed text fragments of the request satisfy what the decoder relies on: each hole is closed by a quote and no block end can be mistaken for a separator or a clause. |
| PatentQuery.TermBuilder | scripts/lens_patent_ingestion.py:82-110 | The block starts with the `should` opening, and no values give an empty block. |
| PatentQuery.ClauseRoundTrip | scripts/lens_patent_ingestion.py:96-102 | Decoding one `terms` clause gives back its field, its value and the rest of the text. |
| PatentQuery.ClausesRoundTrip | scripts/lens_patent_ingestion.py:95-107 | Decoding the comma-joined clauses gives back one (field, value) pair per value, in order. |
| PatentQuery.TermBuilderRoundTrip | scripts/lens_patent_ingestion.py:82-110 | Decoding the built block gives back one (field, value) pair per input value, in order, for values without quotes. |
| PatentQuery.RangeRoundTrip | scripts/lens_patent_ingestion.py:116-128 | Decoding the date-range clause gives back both bounds. |
| PatentQuery.RangeKeys | scripts/lens_patent_ingestion.py:121-122 | The start date sits under `gte` and the end date under `lte`. |
| PatentQuery.BuildData | scripts/lens_patent_ingestion.py:149-163 | Fails with IndexError exactly when the jurisdiction or type list is empty; otherwise the body starts with the `must` opening. |
| PatentQuery.BuildDataRoundTrip | scripts/lens_patent_ingestion.py:149-163 | Decoding the body gives back the jurisdiction pairs, the type pairs and both dates. |
| PatentQuery.RequestBody | scripts/lens_patent_ingestion.py:166-175 | The request is the search body extended with the paging suffix. |
| PatentQuery.RequestBodyInjective | scripts/lens_patent_ingestion.py:169-175 | Different offsets or page sizes give different requests. |
| PatentQuery.ReaderSearch | scripts/lens_api_reader.py:105-119 | The reader's body decodes to jurisdictions US and AU, types GRANTED_PATENT and AMENDED_PATENT, and the given dates. |
| JournalQuery.BuildQuery | scripts/lens_journal_ingestion.py:35-87 | The body's keys come in the order `query`, `sort`, `include`, `from`, `size`; `from` and `size` carry the offset and page size, and the query is a `bool`/`must` list of the filter conditions followed by the date range. |
| JournalQuery.BuildReaderQuery | scripts/lens_journal_reader.py:37-69 | The body's keys come in the order `query`, `sort`, `from`, `size`, with no field list; the query is a `bool`/`must` list of the filter conditions alone. |
| JournalQuery.MustConditions | scripts/lens_journal_ingestion.py:40-61 | The `must` list has one condition per filter, in order, `terms` for list values and `match` otherwise, then the `date_published` range with the start under `gte` and the end under `lte`. |
| JournalQuery.QueryPaging | scripts/lens_journal_ingestion.py:72-85 | The query carries the offset as `from`, the page size, the date sort and the include list. |
| JournalQuery.ReaderConditions | scripts/lens_journal_reader.py:42-67 | The reader's `must` list has one condition per filter, in order, and no date range; the query has `from` and `size` and no include list. |
| JournalQuery.SetFilter | scripts/lens_journal_reader.py:122 | Setting a present key replaces its value in place and keeps every other filter; an absent key is appended. |
| JournalQuery.ReaderYearQuery | scripts/lens_journal_reader.py:15-21 | With the year set, the filters are the four fixed ones followed by the year as a string; the countries US and Australia use `terms` and every other filter `match`. |
| Pagination.Cap | scripts/lens_patent_ingestion.py:213-218 | The page limit is the smaller of the reported total and the maximum. |
| Pagination.Paginate | scripts/lens_patent_ingestion.py:190-220 | No more requests than responses; every request but possibly the last saves a page, and the run aborted exactly when its last request saved nothing. |
| Pagination.AdvancedGrows | scripts/lens_patent_ingestion.py:214 | A page that returns results moves every later offset past its own. |
| Pagination.Ingest | scripts/lens_patent_ingestion.py:191-198 | The run starts at offset 0; with no responses nothing is requested. |
| Pagination.WalkOffsets | scripts/lens_patent_ingestion.py:214 | Each request's offset is the start offset plus the results of the pages before it. |
| Pagination.WalkSaved | scripts/lens_patent_ingestion.py:204-209 | The k-th saved page is the body of the k-th response, which succeeded, saved under its request's offset. |
| Pagination.WalkAbort | scripts/lens_patent_ingestion.py:200-203 | An abort comes from the first failed response and reports its status; running out of responses means every response was requested. |
| Pagination.WalkContinues | scripts/lens_patent_ingestion.py:197 | A request is sent only while the offset is below the current cap, and a finished run has reached the cap. |
| Pagination.OffsetsIncrease | scripts/lens_patent_ingestion.py:214 | When every successful page returns results, request offsets strictly increase from the start offset. |
| Pagination.NoProgressRepeats | scripts/lens_patent_ingestion.py:197-214 | An empty first page below the cap leaves the offset at 0, so the same request repeats. |
| Pagination.FetchesUntilCap | scripts/lens_patent_ingestion.py:197-218 | When every response succeeds and the offsets reach the cap at the last one, every page is saved and the run finishes. |
| LensIngest.OffsetPathInjective | scripts/lens_patent_ingestion.py:208-209 | Different offsets give different file names. |
| LensIngest.RunFromResponses | scripts/lens_journal_ingestion.py:108-133 | Each request is built for its offset; each file is a successful page under its offset's path; the run aborts exactly on the first failed response and reports its status. |
| LensIngest.DistinctFiles | scripts/lens_journal_ingestion.py:118-120 | When every successful page returns results, no file is written twice in one run. |
| LensIngest.RequestsBelowLimit | scripts/lens_journal_reader.py:105-110 | Every request after the first has an offset below the maximum limit. |
| LensIngest.IngestPatents | scripts/lens_patent_ingestion.py:190-240 | Fails exactly when the jurisdiction or type list is empty; otherwise each request is the search body paged at its offset, each file is a successful page under its offset's path with the chosen delivery, and the run aborted exactly when its last request saved nothing. |
| LensIngest.PatentRunDistinct | scripts/lens_patent_ingestion.py:208-214 | When every successful page returns results, no request is sent twice and no file is written twice. |
| LensIngest.ReadPatents | scripts/lens_api_reader.py:146-178 | Each file is a page saved under `../data/raw/patents/` and its offset; requests use the reader's fixed search and page size; offsets stay below the reader's limit. |
| LensIngest.IngestJournals | scripts/lens_journal_ingestion.py:97-135 | Each request is the journal query at its offset; each file is a successful page under its offset's path; the run aborted exactly when its last request saved nothing; offsets stay below the limit. |
| LensIngest.JournalRunDistinct | scripts/lens_journal_ingestion.py:109-129 | When every successful page returns results, no request is sent twice and no file is written twice. |
| LensIngest.ReadJournals | scripts/lens_journal_reader.py:80-112 | Each request uses the year's filters at its offset; each file is a successful page named by year and offset; offsets stay below the limit. |
| LensIngest.YearFilesDisjoint | scripts/lens_journal_reader.py:97 | Runs for different years write to different files. |
| PatentCleaning.PatentRows | scripts/patent_cleaning.py:92-137 | A record without a title gives no rows, and one with an empty title or abstract list fails with IndexError; otherwise one data row with the first title and the first abstract or `na`, and one row per applicant, inventor and CPC code, with `NA` for a missing residence. |
| PatentCleaning.FileRows | scripts/patent_cleaning.py:85-137 | Fails exactly when some titled record is broken; otherwise one data row per titled record, and every row carries the ids of a record of the file. |
| PatentCleaning.FileRowsAppend | scripts/patent_cleaning.py:85-137 | The rows of two batches of records are the first batch's rows followed by the second's, and the whole succeeds exactly when both do. |
| PatentCleaning.UntitledSkipped | scripts/patent_cleaning.py:92-93 | Removing the records without a title changes nothing. |
| PatentCleaning.PathSuffix | scripts/patent_cleaning.py:75 | A non-empty suffix is a proper tail of the name that starts with its only `.`; the suffix is empty only for an empty name, a name ending in `.` or one with no `.` after its first character. |
| PatentCleaning.FileSuffix | scripts/patent_cleaning.py:75 | The suffix of a path is a tail of the path, contains no `/` and, when non-empty, starts with `.`. |
| PatentCleaning.PathStem | scripts/patent_cleaning.py:143 | The stem is a prefix of the name, and the stem followed by the suffix gives the name back. |
| PatentCleaning.BaseName | scripts/patent_cleaning.py:143 | The name a file is cleaned under contains no `/`. |
| PatentCleaning.StemOf | scripts/patent_cleaning.py:143 | For `base.ext` with a dot-free extension, the stem is `base` and the suffix `.ext`. |
| PatentCleaning.CleanedName | scripts/patent_cleaning.py:143 | Both `dir/base.e1.e2` and `dir/base.e1` are cleaned under the name `base`, and their suffix is the last extension. |
| PatentCleaning.OutputPaths | scripts/patent_cleaning.py:146-149 | Four parquet paths: the folder, the cleaned name and the data, classifications, applicants and inventors endings, in that order. |
| PatentCleaning.PatentSaveActions | scripts/patent_cleaning.py:151-161 | For Google Drive, one upload per path in order; for Azure, one notice; otherwise nothing. |
| PatentCleaning.ReadStep | scripts/patent_cleaning.py:75-90 | A `.gz` or `.json` file is read afresh and fails exactly when its rows fail; any other suffix adds no rows, failing exactly when no handle exists or the previous handle still holds records. |
| PatentCleaning.CleanFiles | scripts/patent_cleaning.py:69-166 | One output per file, in order, until the first failure; each output is named after its file and holds that file's rows; a failure at a fresh file means its rows fail. |
| PatentCleaning.CleanFilesFinishes | scripts/patent_cleaning.py:69-166 | When every file has a `.gz` or `.json` suffix, the loop completes exactly when every file's rows succeed. |
| PatentCleaning.CleanFilesUploads | scripts/patent_cleaning.py:151-156 | With Google Drive as target, every path of every cleaned file is uploaded. |
| PatentCleaning.CleanPatents | scripts/patent_cleaning.py:67-169 | After a complete loop the new files are appended to the log; after a failure the log is unchanged; only new files are cleaned. |
| PatentCleaning.CleanedFiles | scripts/patent_cleaning.py:68-149 | The i-th output belongs to the i-th new file, under that file's cleaned name and paths. |
| PatentCleaning.CleanedOnce | scripts/patent_cleaning.py:168-169 | After a complete run, a second run over the same directory finds nothing new; after a failure the same files are still new. |
| PatentCleaning.UnknownFirstFile | scripts/patent_cleaning.py:75-85 | A first file with an unknown suffix fails with NameError on `f`, since no handle exists yet. |
| JournalCleaning.ExtractAuthorInfo | scripts/src/author_info.py:5-19 | Without a non-empty author list whose last author has an affiliation, three empty strings; otherwise the last author's full name and the first affiliation's name and country code, with `NA` for a missing key. |
| JournalCleaning.OnlyLastAuthor | scripts/src/author_info.py:9 | Authors before the last one do not affect the result. |
| JournalCleaning.AuthorNameSplits | scripts/src/author_info.py:17 | The full name splits at its space into the first and the last name. |
| JournalCleaning.JoinCell | scripts/journal_cleaning.py:54-55 | A cell that is not a list of strings becomes empty. |
| JournalCleaning.JoinCellSplits | scripts/journal_cleaning.py:54-55 | For comma-free items, splitting the joined cell at commas gives back the first item and each later item behind a space. |
| JournalCleaning.CleanRecord | scripts/journal_cleaning.py:48-55 | Identifier, title and abstract pass through; a present date is reformatted and a missing one stays missing; a list cell that is not a list of strings becomes empty; the author is empty exactly when the last author has no affiliation, and then so are institution and country. |
| JournalCleaning.Records | scripts/journal_cleaning.py:32-47 | The combined records number the sum of each file's record count. |
| JournalCleaning.RecordsAppend | scripts/journal_cleaning.py:32-47 | The records of two groups of files are those of the first group followed by those of the second. |
| JournalCleaning.DateSpan | scripts/journal_cleaning.py:48-60 | Fails with TypeError exactly when dated and undated rows are mixed; without dates both ends are `nan`; otherwise both ends are published dates of some row and every date lies between them. |
| JournalCleaning.MixedDatesFail | scripts/journal_cleaning.py:59 | One dated and one undated row make the span a TypeError. |
| JournalCleaning.CleanRecords | scripts/journal_cleaning.py:47-64 | No files is a ValueError; a missing column is a KeyError; a record without a date among dated ones is a TypeError; success exactly when there are files, every column exists, every record has a date and every date parses, giving one cleaned row per record and a name from the date span. |
| JournalCleaning.NameBracketsDates | scripts/journal_cleaning.py:59-61 | When every row is dated, the span exists and every published date lies between the two dates in the output name. |
| JournalCleaning.CleanJournal | scripts/journal_cleaning.py:27-64 | The corrected function logs every given file once, in order, and cleans the records of all of them. |
| JournalCleaning.CleanJournalAsWritten | scripts/journal_cleaning.py:44 | As written the function always fails and the log is unchanged. |
| JournalCleaning.LogAppendCounterexample | scripts/journal_cleaning.py:44 | For one clean file `a.json`, the function as written fails with TypeError, while the corrected one succeeds and logs `a.json`. |
| JournalCleaning.JournalMain | scripts/journal_cleaning.py:103-111 | Corrected flow, over the corrected `clean_journal`: the new files are logged; a failed cleaning delivers nothing and a successful one delivers the output file to the chosen target. |
| JournalCleaning.JournalsCleanedOnce | scripts/journal_cleaning.py:103-105 | After a corrected run, the same directory has nothing new. |
| JournalCleaning.JournalMainAsWritten | scripts/journal_cleaning.py:103-111 | As written `main` never logs and never delivers: the cleaning always fails and the log is unchanged. |
| JournalCleaning.JournalMainDiscrepancy | scripts/journal_cleaning.py:44 | As written a run leaves every new file new for the next run, while a corrected run leaves none. |

## Left out

- File and network I/O is returned as actions instead of being performed. This covers the HTTP requests, `glob`, reading and writing JSON, gzip, CSV and parquet, and the Google Drive uploads. `src/google_drive.py` is not part of this model.
- Reading `config.ini` and `regex_terms.ini` (including `define_tech_terms`, src/regex.py:4-16) is left out. The technology list, column names, folders and save options are parameters.
- Regular-expression matching is left out. It is an uninterpreted `(pattern, text) -> bool` parameter, so no property depends on the regex engine.
- `pd.to_datetime`, `strftime` and `date.today()` are parameters. Dates are (year, month, day) triples of the proleptic Gregorian calendar.
- Progress output (`print`) and progress bars have no effect on the model.
- A missing required key in a Lens JSON record (a KeyError in the source) is not modelled. Records are typed values, with optional fields where the source checks for presence.
- `parser.save_to` (patent_cleaning.py:184, journal_cleaning.py:124, lens_journal_ingestion.py:178) raises AttributeError on the parser object. The model reads the parsed `--save` value, as evidently intended.
- `save_journal_data` in `lens_journal_ingestion.py` calls `clean_journal()` without its argument, which raises TypeError. It is not modelled beyond the delivery decision.
- `"Error: " + response.status_code` raises TypeError before the message is printed. The model records an abort, which has the same effect: the run stops and saves nothing more.
- LensIngest.IngestPatents: `q_size` and `max_limit` are read from `config.ini` as strings (lens_patent_ingestion.py:48-49), so as written the `%d` formatting of the paging suffix (lines 167-173) raises TypeError before the first request is sent, and the comparison `max_results > max_limit` (line 217) would raise as well. Every patent run fails there. The model takes the integers the configuration evidently denotes.
- `response_include` is modelled only as the fixed include list it returns.
- Files already written when a later step fails are not tracked; the model returns the failure.
- The `main` of `gdelt_append.py` is left out beyond `define_dimension_cols`, `create_dimension_df` and the new-file selection. As written it cannot get past lines 33-34: `os.path.normpath` is given two arguments and raises TypeError, so the new-file selection of lines 38-41 is modelled as the intended reading of unreachable code. Past that point, line 40 joins the absolute component `/*_filtered.csv`, so the glob searches the file-system root instead of the input folder. Line 53 builds the dimensions from the last file read instead of the combined frame, line 55 builds a dictionary with duplicate keys, and the loop at lines 60-69 returns after its first pass, before the ingested log is appended. The `pd.concat` misuse is at line 19, inside `create_dimension_df`, which is modelled.
- The concatenation of downloaded GKG files in `gdelt_ingestion.py` is left out. Only the list of URLs to download is modelled.
- Path handling (`os.path`, `pathlib`) is modelled only as joining with `/`, the last segment and the last suffix.
- `topic_modelling.py` is not part of this model.
- GdeltMaster.SelectWindow: the model compares parsed timestamps with both bounds given. On the local-copy path (gdelt_ingestion.py:53) the list is read back with `read_csv`, so `datetime` holds text such as `2023-01-01 00:15:00`; comparing it with the date text of `--after`/`--before` is a string comparison, and the window becomes `[after, before)` at day granularity. `--after` and `--before` have no default (lines 38-39), and a bound that is omitted is compared as `None`, which the model does not cover.
- Dimensions.CreateDimensionDf: column dtypes are not modelled, so in the corrected form a column without text succeeds instead of failing at `.str`. Padding every exploded row to the declared output width is the corrected reading: `str.split(expand=True)` sizes the frame by the widest entry of the whole column, not by the declared outputs.
- Frames.Render: a missing cell renders as `nan`, as it does for a CSV input. A `None` in an object column of a parquet input renders as `None` instead.
- JournalCleaning.DateSpan: `min()` and `max()` over the reformatted dates follow pandas 2.x, where an object column mixing text and missing values raises TypeError. Versions that skip missing values there would instead name the file after the present dates.
- `argparse` rejecting a malformed `--after`/`--before` date through `strptime` is not modelled. Dates arrive parsed.
- `gdelt_tech_filter.py:58` gives `--columns` a list default where the code expects a string. The model takes the parsed column list as given.
- `gdelt_tech_filter.py:47` uploads the bare output file name, not the joined output path. The model records exactly that upload and does not model whether the file is found.

## Findings

| source | as written | input that shows it | evidently intended | confidence | as-written member | corrected member |
|---|---|---|---|---|---|---|
| scripts/src/regex.py:54 | `keywords_to_pattern` receives the configured keyword string and iterates its characters | keyword string `ai ml` yields the alternatives `a`, `i`, `.?`, `m`, `l` | the string is a phrase list, giving `ai.?ml` | high, not executed | KeywordRegex.AddRegexPatternAsWritten, KeywordRegex.AsWrittenCounterexample | KeywordRegex.AddRegexPattern, KeywordRegex.CorrectedCounterexample |
| scripts/gdelt_tech_filter.py:32 | `dropna(how='all')` over flag columns that are never missing keeps every row | a row that no technology matches is kept | keep only rows that some technology matches, as `tech_filter.py:48` does | high, not executed | GdeltFilter.RunGdeltFilterAsWritten, GdeltFilter.DropnaKeepsUnmatchedRows | GdeltFilter.RunGdeltFilter, GdeltFilter.GdeltFilterSpec |
| scripts/gdelt_append.py:19 | `pd.concat` receives a Series as its list of objects and raises TypeError | one record with id `r1` and locations `1#AU;4#US` | the id paired with each exploded entry | high, not executed | Dimensions.CreateDimensionDfAsWritten, Dimensions.DimensionCounterexample | Dimensions.CreateDimensionDf, Dimensions.AsWrittenNeverBuilds |
| scripts/lens_patent_ingestion.py:364-371 | explicit `--after`/`--before` leave date objects, and `"from: " + start_d` raises TypeError | `--after 2023-01-01 --before 2023-02-01` | query the given range as ISO date strings | high, not executed | LensCli.PatentMainAsWritten, LensCli.ExplicitRangeCrashes | LensCli.PatentMain, LensCli.DefaultWindowIsPreviousMonth |
| scripts/journal_cleaning.py:44 | `append_processed_files_to_log(json_file)` passes one file name, and `pd.concat` with a string raises TypeError | one new file `a.json` | log each file name once | high, not executed | JournalCleaning.CleanJournalAsWritten, JournalCleaning.JournalMainAsWritten, JournalCleaning.LogAppendCounterexample | JournalCleaning.CleanJournal, JournalCleaning.JournalMain, JournalCleaning.JournalsCleanedOnce |
