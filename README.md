# CSV scanner model

A Dafny model of the `CSVScanner` class of `csv_scanner.py`. The scanner is
built on a root directory. It walks the directory recursively and keeps the
paths of the files whose lower-cased names end in `.csv`. It searches those
files for a keyword, one row and one cell at a time, and reports statistics
about them.

The model has five modules, one per file:

- `text.dfy` (`PyText`): the small parts of Python's `str` and `os.path`
  that the scanner uses. These are `lower` (ASCII letters only), `endswith`,
  the substring test `in`, and `os.path.join` and `os.path.dirname` as they
  behave on POSIX systems (`posixpath`).
- `row_matching.dfy` (`RowMatching`): the cell and row loops of
  `_search_file`. `MatchingColumns` and `RowMatches` are the specification.
  `CollectColumns` and `ScanRows` are the loops, and each is proved equal to
  its specification.
- `discovery.dfy` (`Discovery`): what the walk discovers. `Discovered` is the
  specification, with lemmas stating that discovery keeps walk order, finds
  every CSV file in the walk and keeps nothing else.
- `file_search.dfy` (`FileSearch`): `_search_file` with its encoding
  fallback. `FileResult` and `Retry` are the specification. `SearchFile` is
  the imperative version, with the `break`-terminated loop over the fallback
  encodings.
- `scanner.dfy` (`Scanner`): the class. `ScanDirectory` and `RefreshScan`
  replace its mutable field `csvFiles` by a new list and then append to it.
  `SearchKeyword` runs the loop over the files, and `Aggregate` states what
  that loop returns.

The model takes its inputs in these forms:

- **The file system at scan time** is a `DirectoryView` argument. It gives
  whether the root exists, whether it is a directory, and the
  `(dirpath, filenames)` entries of the walk in the order the walk yields
  them. A refresh can be given a different view.
- **A file's contents** come from a `Reader` argument. A reader maps a path
  and an encoding to a `ReadOutcome`, which takes one of three forms:
  - the parsed rows of the whole file;
  - a decode error, together with the rows parsed before it;
  - any other error.
- **Raising** is modelled as a return value. A `ValueError` becomes a
  `Failure` or `Fail` value carrying a `ScanError`. An exception that
  escapes `_search_file` becomes `Raised`.
- **The constructor** `__init__` can raise, so it is modelled by the static
  method `CsvScanner.Create`. It returns either a new scanner or the error.

A file that fails to decode under every fallback encoding is not treated as
failed: the fallback loop ends and `_search_file` returns, without raising,
the matches collected so far. Only an error other than a decode error
escapes. `RetryRaisesExactly` and `FileResultRaisesExactly` state this.

The model also keeps two quirks of the code:

- **Matches are never reset.** The list of matches is not cleared between
  encoding attempts. Rows matched before a UTF-8 decode error are kept, and
  when a fallback encoding rereads the same rows they are reported twice
  (`FallbackRepeatsEarlierMatches`).
- **Fallback reads skip dialect detection.** They use the default dialect
  instead of a sniffed one. This shows in the model only as the rows that
  the reader returns for each encoding.

## Model

| member | source | states |
|---|---|---|
| PyText.ContainsExact | csv_scanner.py:131 | `keyword in cell` holds exactly when some position of the cell starts a copy of the keyword |
| PyText.ShortNeverContains | csv_scanner.py:131 | a cell shorter than the keyword never contains it |
| PyText.Join | csv_scanner.py:55 | the joined path ends with the file name |
| PyText.LowerKeepsSuffix | csv_scanner.py:54 | lower-casing a name keeps each of its suffixes as a suffix (lower-cased) |
| PyText.Dirname | csv_scanner.py:183 | a path's directory name is a prefix of the path |
| PyText.DirnameOfJoin | csv_scanner.py:183 | the directory name of a file name (without '/') joined to a directory (not ending in '/') is that directory |
| RowMatching.MatchingColumnsExact | csv_scanner.py:127-132 | a row's column list is strictly ascending and holds exactly the indices of the cells containing the keyword, after lower-casing the cell when the search ignores case |
| RowMatching.RowMatchesSound | csv_scanner.py:126-140 | every record names the file, has a row number from 1 to the number of rows, and carries that row unmodified with its exact, non-empty column list |
| RowMatching.RowMatchesOrdered | csv_scanner.py:126-140 | row numbers strictly increase along the records, so each row is reported at most once and in file order |
| RowMatching.RowMatchesComplete | csv_scanner.py:126-140 | every row that has a matching cell is reported under its 1-based number |
| RowMatching.RowMatchesPrefix | csv_scanner.py:126-140 | matching a prefix of the rows yields a prefix of the records |
| RowMatching.CollectColumns | csv_scanner.py:127-132 | the loop over one row's cells builds exactly the row's column list |
| RowMatching.ScanRows | csv_scanner.py:126-140 | the loop over the rows appends exactly the records of those rows to the matches already held |
| Discovery.DiscoveredAppend | csv_scanner.py:52-56 | discovery follows walk order: a longer walk yields the paths of its beginning followed by those of the rest |
| Discovery.CsvPathsInAppend | csv_scanner.py:53-56 | within one directory, paths follow the order of the file names |
| Discovery.CsvPathsInSound | csv_scanner.py:53-56 | every path kept for a directory is one of its CSV file names joined to it |
| Discovery.CsvPathsInComplete | csv_scanner.py:53-56 | every CSV file name of a directory is kept, joined to the directory |
| Discovery.DiscoveredSound | csv_scanner.py:52-56 | every discovered path is a CSV file name listed under some directory of the walk, joined to that directory |
| Discovery.DiscoveredComplete | csv_scanner.py:52-56 | every CSV file name listed anywhere in the walk is discovered, joined to its directory |
| Discovery.JoinKeepsCsvName | csv_scanner.py:54-55 | joining a CSV file name to a directory gives a path whose lower-cased form still ends in `.csv` |
| Discovery.DiscoveredAreCsv | csv_scanner.py:52-56 | every discovered path, lower-cased, ends in `.csv` |
| Discovery.DiscoveredEmpty | csv_scanner.py:51-56 | the list is empty exactly when no file of the walk has a CSV name (an empty tree gives an empty list, not an error) |
| FileSearch.FileResultRaisesExactly | csv_scanner.py:111-164 | `_search_file` raises exactly when the UTF-8 read fails with an error other than a decode error, or when it fails to decode and one of `latin-1`, `cp1252`, `iso-8859-1`, tried in that order, fails that way before any of them succeeds; a decode error alone never escapes |
| FileSearch.RetryKeepsEarlierMatches | csv_scanner.py:142-164 | matches collected before a decode error are never dropped; the fallback only appends to them |
| FileSearch.RetryStopsAtFirstSuccess | csv_scanner.py:144-162 | the loop stops at the first encoding that reads the whole file; the encodings after it are never consulted |
| FileSearch.RetryRaisesExactly | csv_scanner.py:142-164 | the fallback raises exactly when some attempt fails with an error other than a decode error before any attempt succeeds; when every encoding fails to decode, it returns normally |
| FileSearch.RetryGenuine | csv_scanner.py:144-161 | every match the fallback adds names the file and lists exactly the non-empty matching columns of its row |
| FileSearch.FileResultGenuine | csv_scanner.py:97-166 | every record `_search_file` returns names the file searched, has a positive row number and lists exactly the non-empty matching columns of its row |
| FileSearch.FallbackRepeatsEarlierMatches | csv_scanner.py:109-162 | when UTF-8 fails part-way and `latin-1` rereads the same rows, the matches found before the error come first and are repeated in the `latin-1` matches |
| FileSearch.SearchFile | csv_scanner.py:97-166 | the UTF-8 read, then the fallback loop with its `break`, computes exactly `FileResult` |
| Scanner.FoldKeyword | csv_scanner.py:86 | the keyword is unchanged in a case-sensitive search; otherwise it is the keyword with its case folded: already lower-case, and lower-casing it gives the same text as lower-casing the keyword, with its length kept |
| Scanner.CollectAppend | csv_scanner.py:88-93 | results are collected in file order: the outcomes of a longer list yield the results of its beginning followed by those of the rest |
| Scanner.SearchEachAppend | csv_scanner.py:88-90 | each file of a longer list keeps its place among the per-file outcomes |
| Scanner.AggregateAppend | csv_scanner.py:88-95 | the results of a list of files are the results of its beginning followed by those of its end |
| Scanner.SingleFileAggregate | csv_scanner.py:88-93 | searching a one-file list yields that file's matches, or nothing when its search raises |
| Scanner.RaisingFileSkipped | csv_scanner.py:88-93 | a file whose search raises contributes nothing and does not stop the files after it |
| Scanner.CollectFrom | csv_scanner.py:88-93 | every collected record is a match of some file search that returned |
| Scanner.AggregateGenuine | csv_scanner.py:88-95 | every result names one of the files searched and lists exactly the non-empty matching columns of its row |
| Scanner.ParentsOfDiscovered | csv_scanner.py:181-184 | when the walk's directory paths do not end in '/' and its file names hold no '/', the distinct parent directories of the discovered paths are exactly the walk directories holding a CSV file |
| Scanner.ParentsAreCsvDirectories | csv_scanner.py:181-184 | every parent directory of a discovered path is a walk directory holding a CSV file |
| Scanner.CsvDirectoriesAreParents | csv_scanner.py:181-184 | every walk directory holding a CSV file is the parent of some discovered path |
| Scanner.ParentDirectoriesBound | csv_scanner.py:183 | there are never more distinct parent directories than paths, and there is at least one when there is a path |
| Scanner.CsvScanner.constructor | csv_scanner.py:37-38 | a new scanner holds its root and an empty file list |
| Scanner.CsvScanner.Create | csv_scanner.py:30-39 | construction fails with the matching error when the root is missing or not a directory; otherwise it yields a new scanner with that root whose list is exactly the discovered paths |
| Scanner.CsvScanner.ScanDirectory | csv_scanner.py:41-56 | a missing root or a root that is not a directory gives its error and leaves the list as it was; otherwise the list is replaced by exactly the discovered paths, and every stored path has a CSV name |
| Scanner.CsvScanner.AppendCsvPaths | csv_scanner.py:53-56 | the inner loop appends exactly the paths of one directory's CSV files, in file-name order |
| Scanner.CsvScanner.GetCsvFiles | csv_scanner.py:58-65 | the result is a new array holding the stored paths in order, so changing it cannot change the scanner |
| Scanner.CsvScanner.SearchKeyword | csv_scanner.py:67-95 | an empty keyword is rejected before any file is read; otherwise the results are the per-file results, in list order, for the case-folded keyword, skipping the files whose search raises |
| Scanner.CsvScanner.RefreshScan | csv_scanner.py:168-172 | the same checks and the same wholesale rebuild of the list as a scan |
| Scanner.CsvScanner.GetStats | csv_scanner.py:174-184 | the file count is the length of the list and the directory count is the number of distinct parent directories, which is at most the file count and at least 1 when there are files |
| Scanner.ShortCellNeverMatches | csv_scanner.py:130-131 | a cell shorter than the keyword never matches, whatever the case setting |
| Scanner.EngineeringCell | csv_scanner.py:130-131 | `engineering` matches the cell `Engineering` when case is ignored and does not match it when case matters |
| Scanner.ExampleRowsMatch | csv_scanner.py:126-140 | in the rows `name,dept / Alice,Engineering / Bob,Sales`, `engineering` is reported in row 2, column 1, only when case is ignored, and nowhere when case matters |
| Scanner.EngineeringExample | csv_scanner.py:67-95 | searching that one file case-insensitively for `Engineering` reports row 2 alone, with column 1; searching it case-sensitively for `engineering` reports nothing |

## Left out

- `os.path.abspath`: the root is taken as given. No path is made absolute, so the discovered paths are relative when the root and the walk's directory paths are.
- `os.walk`, `os.path.exists` and `os.path.isdir`: these are file-system I/O. A `DirectoryView` argument replaces them.
- Windows path semantics (`ntpath`) for `os.path.join` and `os.path.dirname`: only the POSIX behaviour is modelled.
- The default `case_sensitive=False` of `search_keyword`: Dafny methods have no default arguments, so `SearchKeyword` always takes the flag explicitly.
- Opening, reading and seeking files, `csv.Sniffer` dialect detection and `csv.reader` tokenising: these are I/O or library code. A `Reader` argument supplies the parsed rows for each encoding, so the only visible effect of sniffing is which rows come out.
- Real character decoding: whether an encoding decodes a file is an input. In particular, the model does not know that `latin-1` decodes every byte sequence.
- `str.lower` on non-ASCII characters: only the ASCII letters `A`-`Z` are lower-cased.
- `str(cell)`: cells are already strings when they reach the loop.
- Printing the warning for a skipped file to standard error: this is an output side effect only.
- `format_search_results`, `main` and `example_usage.py`: these are display and command-line code, with no scanner logic.
- Scanner.CsvScanner.GetCsvFiles: the Python result is a list and the model's is an array. The copy's independence from the scanner is stated only as freshness.
- PyText.Lower: its contract states only that the length is kept. The character-by-character meaning lives in its definition.
