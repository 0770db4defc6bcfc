/** The `CSVScanner` class (csv_scanner.py:27-184): a fixed root directory, the
    list of CSV files found beneath it, keyword search over those files and
    statistics about them. */
module Scanner {
  import opened PyText
  import opened RowMatching
  import opened Discovery
  import opened FileSearch

  datatype Result<T, E> = Success(value: T) | Failure(error: E)

  datatype Outcome<E> = Pass | Fail(error: E)

  /** The `ValueError`s the scanner raises, told apart by their messages. */
  datatype ScanError =
    | DirectoryDoesNotExist(path: string)
    | NotADirectory(path: string)
    | EmptyKeyword

  /** The dictionary `get_stats` returns. */
  datatype Stats = Stats(totalCsvFiles: nat, totalDirectoriesScanned: nat)

  /** The keyword as handed to `_search_file`: lower-cased once unless the
      search is case-sensitive (csv_scanner.py:86). */
  function FoldKeyword(keyword: string, caseSensitive: bool): (folded: string)
    ensures |folded| == |keyword|
    ensures caseSensitive ==> folded == keyword
    ensures !caseSensitive ==> folded == Lower(folded) && Lower(folded) == Lower(keyword)
  {
    if caseSensitive then keyword else Lower(keyword)
  }

  /** What one file adds to the results: its matches, or nothing when its search raised. */
  function Contribution(outcome: FileOutcome): seq<MatchRecord>
  {
    match outcome
    case Found(matches) => matches
    case Raised(_) => []
  }

  /** The records a sequence of per-file outcomes adds up to, in order. */
  function Collect(outcomes: seq<FileOutcome>): seq<MatchRecord>
  {
    if outcomes == [] then []
    else
      var last := |outcomes| - 1;
      Collect(outcomes[..last]) + Contribution(outcomes[last])
  }

  /** The outcome of `search` for each file of the list, in list order. */
  function SearchEach(files: seq<string>, search: string -> FileOutcome): (outcomes: seq<FileOutcome>)
    ensures |outcomes| == |files|
    ensures forall i :: 0 <= i < |files| ==> outcomes[i] == search(files[i])
  {
    seq(|files|, i requires 0 <= i < |files| => search(files[i]))
  }

  /** The outcome of `_search_file` for each file of the list, in list order. */
  function FileOutcomes(files: seq<string>, keyword: string, caseSensitive: bool, read: Reader): (outcomes: seq<FileOutcome>)
    ensures |outcomes| == |files|
    ensures forall i :: 0 <= i < |files| ==> outcomes[i] == FileResult(files[i], keyword, caseSensitive, read)
  {
    SearchEach(files, path => FileResult(path, keyword, caseSensitive, read))
  }

  /** The results of the loop over the files (csv_scanner.py:88-93). */
  function Aggregate(files: seq<string>, keyword: string, caseSensitive: bool, read: Reader): seq<MatchRecord>
  {
    Collect(FileOutcomes(files, keyword, caseSensitive, read))
  }

  /** Collecting follows the order of the outcomes: a longer sequence extends
      the records of its beginning by those of the rest. */
  lemma {:induction false} CollectAppend(front: seq<FileOutcome>, back: seq<FileOutcome>)
    ensures Collect(front + back) == Collect(front) + Collect(back)
    decreases |back|
  {
    if back == [] {
      assert front + back == front;
    } else {
      var last := |back| - 1;
      var whole := front + back;
      var init := back[..last];
      var tail := Contribution(back[last]);
      assert whole[..|whole| - 1] == front + init;
      assert whole[|whole| - 1] == back[last];
      CollectAppend(front, init);
      calc {
        Collect(whole);
        Collect(front + init) + tail;
        (Collect(front) + Collect(init)) + tail;
        Collect(front) + (Collect(init) + tail);
        Collect(front) + Collect(back);
      }
    }
  }

  /** The outcomes of a longer list extend those of its beginning by those of the rest. */
  lemma SearchEachAppend(front: seq<string>, back: seq<string>, search: string -> FileOutcome)
    ensures SearchEach(front + back, search) == SearchEach(front, search) + SearchEach(back, search)
  {
    var files := front + back;
    var outcomes := SearchEach(files, search);
    var joined := SearchEach(front, search) + SearchEach(back, search);
    forall k | 0 <= k < |outcomes|
      ensures outcomes[k] == joined[k]
    {
      if k < |front| {
        assert files[k] == front[k];
      } else {
        assert files[k] == back[k - |front|];
      }
    }
  }

  /** Results follow the file list: those of a longer list extend those of its
      beginning by those of the rest. */
  lemma AggregateAppend(front: seq<string>, back: seq<string>, keyword: string, caseSensitive: bool, read: Reader)
    ensures Aggregate(front + back, keyword, caseSensitive, read)
      == Aggregate(front, keyword, caseSensitive, read) + Aggregate(back, keyword, caseSensitive, read)
  {
    var first := FileOutcomes(front, keyword, caseSensitive, read);
    var rest := FileOutcomes(back, keyword, caseSensitive, read);
    SearchEachAppend(front, back, path => FileResult(path, keyword, caseSensitive, read));
    CollectAppend(first, rest);
  }

  /** Searching a list of one file yields that file's matches, or nothing when
      its search raises. */
  lemma SingleFileAggregate(path: string, keyword: string, caseSensitive: bool, read: Reader)
    ensures Aggregate([path], keyword, caseSensitive, read)
      == Contribution(FileResult(path, keyword, caseSensitive, read))
  {
    var outcomes := FileOutcomes([path], keyword, caseSensitive, read);
    assert outcomes == [FileResult(path, keyword, caseSensitive, read)];
    assert outcomes[..0] == [];
    assert Collect(outcomes) == Collect(outcomes[..0]) + Contribution(outcomes[0]);
  }

  /** A file whose search raises contributes nothing and does not stop the
      files after it from being searched. */
  lemma RaisingFileSkipped(front: seq<string>, bad: string, back: seq<string>, keyword: string, caseSensitive: bool, read: Reader)
    requires FileResult(bad, keyword, caseSensitive, read).Raised?
    ensures Aggregate(front + [bad] + back, keyword, caseSensitive, read)
      == Aggregate(front, keyword, caseSensitive, read) + Aggregate(back, keyword, caseSensitive, read)
  {
    var withBad := front + [bad];
    SingleFileAggregate(bad, keyword, caseSensitive, read);
    AggregateAppend(front, [bad], keyword, caseSensitive, read);
    AggregateAppend(withBad, back, keyword, caseSensitive, read);
  }

  /** Every collected record is a match of some outcome that returned. */
  lemma {:induction false} CollectFrom(outcomes: seq<FileOutcome>)
    ensures forall r :: r in Collect(outcomes) ==>
      exists i :: 0 <= i < |outcomes| && outcomes[i].Found? && r in outcomes[i].matches
  {
    if outcomes != [] {
      var last := |outcomes| - 1;
      CollectFrom(outcomes[..last]);
      forall r | r in Collect(outcomes)
        ensures exists i :: 0 <= i < |outcomes| && outcomes[i].Found? && r in outcomes[i].matches
      {
        if r in Collect(outcomes[..last]) {
          var i :| 0 <= i < last && outcomes[..last][i].Found? && r in outcomes[..last][i].matches;
          assert outcomes[i] == outcomes[..last][i];
        } else {
          assert outcomes[last].Found? && r in outcomes[last].matches;
        }
      }
    }
  }

  /** Every result comes from one of the files searched, and lists exactly the
      (non-empty) matching columns of its row. */
  lemma AggregateGenuine(files: seq<string>, keyword: string, caseSensitive: bool, read: Reader)
    ensures forall r :: r in Aggregate(files, keyword, caseSensitive, read) ==>
      r.filePath in files && Genuine(r.filePath, keyword, caseSensitive, r)
  {
    var outcomes := FileOutcomes(files, keyword, caseSensitive, read);
    CollectFrom(outcomes);
    forall r | r in Collect(outcomes)
      ensures r.filePath in files && Genuine(r.filePath, keyword, caseSensitive, r)
    {
      var i :| 0 <= i < |outcomes| && outcomes[i].Found? && r in outcomes[i].matches;
      FileResultGenuine(files[i], keyword, caseSensitive, read);
    }
  }

  /** The distinct parent directories of a list of paths. */
  function ParentDirectories(files: seq<string>): set<string>
  {
    set i | 0 <= i < |files| :: Dirname(files[i])
  }

  /** There are never more distinct parent directories than paths, and at
      least one as soon as there is a path. */
  lemma {:induction false} ParentDirectoriesBound(files: seq<string>)
    ensures |ParentDirectories(files)| <= |files|
    ensures files != [] ==> |ParentDirectories(files)| >= 1
  {
    if files != [] {
      var last := |files| - 1;
      var front := files[..last];
      ParentDirectoriesBound(front);
      var before := ParentDirectories(front);
      var dir := Dirname(files[last]);
      ParentDirectoriesSnoc(files);
      assert dir in ParentDirectories(files);
      if dir in before {
        assert ParentDirectories(files) == before;
      } else {
        assert |before + {dir}| == |before| + 1;
      }
    }
  }

  lemma ParentDirectoriesSnoc(files: seq<string>)
    requires files != []
    ensures ParentDirectories(files) == ParentDirectories(files[..|files| - 1]) + {Dirname(files[|files| - 1])}
  {
    var last := |files| - 1;
    var front := files[..last];
    forall d | d in ParentDirectories(files)
      ensures d in ParentDirectories(front) + {Dirname(files[last])}
    {
      var i :| 0 <= i < |files| && d == Dirname(files[i]);
      if i < last {
        assert files[i] == front[i];
      }
    }
    forall d | d in ParentDirectories(front)
      ensures d in ParentDirectories(files)
    {
      var i :| 0 <= i < |front| && d == Dirname(front[i]);
      assert front[i] == files[i];
    }
  }

  /** The directories of a walk that hold a CSV file. */
  function CsvDirectories(walk: seq<WalkEntry>): set<string>
  {
    set i | 0 <= i < |walk| && HasCsvFile(walk[i]) :: walk[i].dirPath
  }

  /** In a plain walk, the parent of a listed path is the directory it was listed under. */
  lemma ParentOfListed(walk: seq<WalkEntry>, i: nat, j: nat)
    requires PlainWalk(walk)
    requires i < |walk| && j < |walk[i].fileNames|
    ensures Dirname(Join(walk[i].dirPath, walk[i].fileNames[j])) == walk[i].dirPath
  {
    DirnameOfJoin(walk[i].dirPath, walk[i].fileNames[j]);
  }

  /** Every parent directory of a discovered path is a walk directory holding a CSV file. */
  lemma ParentsAreCsvDirectories(walk: seq<WalkEntry>)
    requires PlainWalk(walk)
    ensures ParentDirectories(Discovered(walk)) <= CsvDirectories(walk)
  {
    var files := Discovered(walk);
    DiscoveredSound(walk);
    forall d | d in ParentDirectories(files)
      ensures d in CsvDirectories(walk)
    {
      var k :| 0 <= k < |files| && d == Dirname(files[k]);
      assert files[k] in files;
      var i :| 0 <= i < |walk| && ListedIn(walk[i].dirPath, walk[i].fileNames, files[k]);
      var j :| 0 <= j < |walk[i].fileNames| && IsCsvName(walk[i].fileNames[j])
        && files[k] == Join(walk[i].dirPath, walk[i].fileNames[j]);
      ParentOfListed(walk, i, j);
      assert HasCsvFile(walk[i]);
    }
  }

  /** Every walk directory holding a CSV file is the parent of a discovered path. */
  lemma CsvDirectoriesAreParents(walk: seq<WalkEntry>)
    requires PlainWalk(walk)
    ensures CsvDirectories(walk) <= ParentDirectories(Discovered(walk))
  {
    var files := Discovered(walk);
    DiscoveredComplete(walk);
    forall d | d in CsvDirectories(walk)
      ensures d in ParentDirectories(files)
    {
      var i :| 0 <= i < |walk| && HasCsvFile(walk[i]) && d == walk[i].dirPath;
      var j :| 0 <= j < |walk[i].fileNames| && IsCsvName(walk[i].fileNames[j]);
      var path := Join(walk[i].dirPath, walk[i].fileNames[j]);
      assert path in files;
      var k :| 0 <= k < |files| && files[k] == path;
      ParentOfListed(walk, i, j);
    }
  }

  /** For a plain walk, the parent directories of the discovered paths are
      exactly the walk directories holding a CSV file, so the directory count
      of `get_stats` counts those directories. */
  lemma ParentsOfDiscovered(walk: seq<WalkEntry>)
    requires PlainWalk(walk)
    ensures ParentDirectories(Discovered(walk)) == CsvDirectories(walk)
  {
    ParentsAreCsvDirectories(walk);
    CsvDirectoriesAreParents(walk);
  }

  class CsvScanner {
    /** The root given at construction; never reassigned. */
    const rootDirectory: string
    /** The discovered CSV paths, in walk order. */
    var csvFiles: seq<string>

    /** Every stored path, lower-cased, ends in ".csv". */
    ghost predicate Valid()
      reads this
    {
      forall i :: 0 <= i < |csvFiles| ==> IsCsvName(csvFiles[i])
    }

    /** The fields `__init__` sets before its first scan (csv_scanner.py:37-38). */
    constructor (rootDirectory: string)
      ensures this.rootDirectory == rootDirectory && csvFiles == [] && Valid()
    {
      this.rootDirectory := rootDirectory;
      csvFiles := [];
    }

    /** `CSVScanner(root)` (csv_scanner.py:30-39): build the object and scan; a
        scan that raises makes construction fail. */
    static method Create(rootDirectory: string, view: DirectoryView) returns (r: Result<CsvScanner, ScanError>)
      ensures !view.rootExists ==> r == Failure(DirectoryDoesNotExist(rootDirectory))
      ensures view.rootExists && !view.rootIsDir ==> r == Failure(NotADirectory(rootDirectory))
      ensures view.rootExists && view.rootIsDir ==>
        && r.Success? && fresh(r.value) && r.value.Valid()
        && r.value.rootDirectory == rootDirectory
        && r.value.csvFiles == Discovered(view.walk)
    {
      var scanner := new CsvScanner(rootDirectory);
      var outcome := scanner.ScanDirectory(view);
      match outcome {
        case Pass => r := Success(scanner);
        case Fail(e) => r := Failure(e);
      }
    }

    /** `_scan_directory` (csv_scanner.py:41-56): check the root, then rebuild
        the list from the walk. A failed check raises before the list is
        touched. */
    method ScanDirectory(view: DirectoryView) returns (outcome: Outcome<ScanError>)
      requires Valid()
      modifies this`csvFiles
      ensures Valid()
      ensures !view.rootExists ==>
        outcome == Fail(DirectoryDoesNotExist(rootDirectory)) && csvFiles == old(csvFiles)
      ensures view.rootExists && !view.rootIsDir ==>
        outcome == Fail(NotADirectory(rootDirectory)) && csvFiles == old(csvFiles)
      ensures view.rootExists && view.rootIsDir ==>
        outcome == Pass && csvFiles == Discovered(view.walk)
    {
      if !view.rootExists {
        return Fail(DirectoryDoesNotExist(rootDirectory));
      }
      if !view.rootIsDir {
        return Fail(NotADirectory(rootDirectory));
      }
      csvFiles := [];
      var i := 0;
      while i < |view.walk|
        invariant 0 <= i <= |view.walk|
        invariant csvFiles == Discovered(view.walk[..i])
      {
        AppendCsvPaths(view.walk[i]);
        DiscoveredStep(view.walk, i);
        i := i + 1;
      }
      assert view.walk[..i] == view.walk;
      DiscoveredAreCsv(view.walk);
      outcome := Pass;
    }

    /** The inner loop of `_scan_directory` (csv_scanner.py:52-55): append the
        path of each CSV file of one directory, in file-name order. */
    method AppendCsvPaths(entry: WalkEntry)
      modifies this`csvFiles
      ensures csvFiles == old(csvFiles) + CsvPathsIn(entry.dirPath, entry.fileNames)
    {
      var j := 0;
      while j < |entry.fileNames|
        invariant 0 <= j <= |entry.fileNames|
        invariant csvFiles == old(csvFiles) + CsvPathsIn(entry.dirPath, entry.fileNames[..j])
      {
        var file := entry.fileNames[j];
        ghost var found := CsvPathsIn(entry.dirPath, entry.fileNames[..j]);
        CsvPathsInStep(entry.dirPath, entry.fileNames, j);
        if IsCsvName(file) {
          var path := Join(entry.dirPath, file);
          assert (old(csvFiles) + found) + [path] == old(csvFiles) + (found + [path]);
          csvFiles := csvFiles + [path];
        } else {
          assert found + [] == found;
        }
        j := j + 1;
      }
      assert entry.fileNames[..j] == entry.fileNames;
    }

    /** `get_csv_files` (csv_scanner.py:58-65): a new list with the same paths,
        so that changing it cannot change the scanner. */
    method GetCsvFiles() returns (copy: array<string>)
      ensures fresh(copy) && copy[..] == csvFiles
    {
      var files := csvFiles;
      copy := new string[|files|](i requires 0 <= i < |files| => files[i]);
    }

    /** `search_keyword` (csv_scanner.py:67-95): reject an empty keyword, fold
        its case once, then search every file in list order, skipping the files
        whose search raises. */
    method SearchKeyword(keyword: string, caseSensitive: bool, read: Reader) returns (r: Result<seq<MatchRecord>, ScanError>)
      ensures keyword == [] ==> r == Failure(EmptyKeyword)
      ensures keyword != [] ==>
        r == Success(Aggregate(csvFiles, FoldKeyword(keyword, caseSensitive), caseSensitive, read))
    {
      if keyword == [] {
        return Failure(EmptyKeyword);
      }
      var results: seq<MatchRecord> := [];
      var searchKeyword := FoldKeyword(keyword, caseSensitive);
      ghost var outcomes := FileOutcomes(csvFiles, searchKeyword, caseSensitive, read);
      var i := 0;
      while i < |csvFiles|
        invariant 0 <= i <= |csvFiles|
        invariant results == Collect(outcomes[..i])
      {
        var outcome := SearchFile(csvFiles[i], searchKeyword, caseSensitive, read);
        match outcome {
          case Found(matches) =>
            results := results + matches;
          case Raised(_) =>
            // the warning goes to standard error and the loop continues
        }
        assert outcomes[..i + 1][..i] == outcomes[..i];
        i := i + 1;
      }
      assert outcomes[..i] == outcomes;
      r := Success(results);
    }

    /** `refresh_scan` (csv_scanner.py:168-172): scan the same root again
        against the file system as it is now. */
    method RefreshScan(view: DirectoryView) returns (outcome: Outcome<ScanError>)
      requires Valid()
      modifies this`csvFiles
      ensures Valid()
      ensures !view.rootExists ==>
        outcome == Fail(DirectoryDoesNotExist(rootDirectory)) && csvFiles == old(csvFiles)
      ensures view.rootExists && !view.rootIsDir ==>
        outcome == Fail(NotADirectory(rootDirectory)) && csvFiles == old(csvFiles)
      ensures view.rootExists && view.rootIsDir ==>
        outcome == Pass && csvFiles == Discovered(view.walk)
    {
      outcome := ScanDirectory(view);
    }

    /** `get_stats` (csv_scanner.py:174-184). */
    function GetStats(): (stats: Stats)
      reads this
      ensures stats.totalCsvFiles == |csvFiles|
      ensures stats.totalDirectoriesScanned == |ParentDirectories(csvFiles)|
      ensures stats.totalDirectoriesScanned <= stats.totalCsvFiles
      ensures stats.totalCsvFiles > 0 ==> stats.totalDirectoriesScanned > 0
    {
      ParentDirectoriesBound(csvFiles);
      Stats(|csvFiles|, |ParentDirectories(csvFiles)|)
    }
  }

  /** A keyword longer than a cell never matches it. */
  lemma ShortCellNeverMatches(cell: string, keyword: string, caseSensitive: bool)
    requires |cell| < |keyword|
    ensures !CellMatches(cell, keyword, caseSensitive)
  {
    ShortNeverContains(if caseSensitive then cell else Lower(cell), keyword);
  }

  /** A row of two cells both shorter than the keyword has no matching column. */
  lemma ShortPairNoColumns(a: string, b: string, keyword: string, caseSensitive: bool)
    requires |a| < |keyword| && |b| < |keyword|
    ensures MatchingColumns([a, b], keyword, caseSensitive) == []
  {
    ShortCellNeverMatches(a, keyword, caseSensitive);
    ShortCellNeverMatches(b, keyword, caseSensitive);
    assert [a][..0] == [];
    assert MatchingColumns([a], keyword, caseSensitive) == [];
    assert [a, b][..1] == [a];
  }

  /** The rows of the file "name,dept / Alice,Engineering / Bob,Sales". */
  const ExampleRows: seq<Row> := [["name", "dept"], ["Alice", "Engineering"], ["Bob", "Sales"]]

  lemma LowerEngineering()
    ensures Lower("Engineering") == "engineering"
  {
  }

  /** "engineering" matches the cell "Engineering" only when case is ignored:
      case-sensitively the first letters differ. */
  lemma EngineeringCell()
    ensures CellMatches("Engineering", "engineering", false)
    ensures !CellMatches("Engineering", "engineering", true)
  {
    LowerEngineering();
    assert "Engineering"[0] != "engineering"[0];
    ShortNeverContains("Engineering"[1..], "engineering");
  }

  /** In the row "Alice,Engineering", "engineering" is found in column 1 when
      case is ignored, and in no column otherwise. */
  lemma AliceRowColumns(caseSensitive: bool)
    ensures MatchingColumns(["Alice", "Engineering"], "engineering", caseSensitive)
      == if caseSensitive then [] else [1]
  {
    EngineeringCell();
    ShortCellNeverMatches("Alice", "engineering", caseSensitive);
    assert ["Alice", "Engineering"][..1] == ["Alice"];
    assert ["Alice"][..0] == [];
  }

  /** The header row of the example matches nothing, so the first two rows
      yield at most the record of row 2. */
  lemma ExampleFirstRows(path: string, caseSensitive: bool)
    ensures RowMatches(path, ExampleRows[..2], "engineering", caseSensitive)
      == RowRecord(path, 2, ExampleRows[1], "engineering", caseSensitive)
  {
    var rows := ExampleRows[..2];
    ShortPairNoColumns("name", "dept", "engineering", caseSensitive);
    assert rows[..1][..0] == [];
    assert RowMatches(path, rows[..1], "engineering", caseSensitive) == [];
  }

  /** "engineering" is found in row 2, column 1, only when case is ignored,
      and nowhere when case matters. */
  lemma ExampleRowsMatch(path: string, caseSensitive: bool)
    ensures RowMatches(path, ExampleRows, "engineering", caseSensitive)
      == if caseSensitive then [] else [MatchRecord(path, 2, ["Alice", "Engineering"], [1])]
  {
    var rows := ExampleRows;
    ExampleFirstRows(path, caseSensitive);
    ShortPairNoColumns("Bob", "Sales", "engineering", caseSensitive);
    AliceRowColumns(caseSensitive);
    assert rows[..|rows| - 1] == rows[..2];
  }

  /** The worked example end to end: searching a list holding only this file,
      case-insensitively for "Engineering", reports row 2 alone, with column 1;
      case-sensitively for "engineering", nothing. */
  lemma EngineeringExample(path: string, read: Reader)
    requires read(path, Utf8) == Complete(ExampleRows)
    ensures Aggregate([path], FoldKeyword("Engineering", false), false, read)
      == [MatchRecord(path, 2, ["Alice", "Engineering"], [1])]
    ensures Aggregate([path], FoldKeyword("engineering", true), true, read) == []
  {
    LowerEngineering();
    ExampleRowsMatch(path, false);
    ExampleRowsMatch(path, true);
    SingleFileAggregate(path, "engineering", false, read);
    SingleFileAggregate(path, "engineering", true, read);
  }
}
