/** Discovery of CSV files beneath the scan root (csv_scanner.py:41-56).

    The recursive directory walk is an input: the sequence of
    `(dirpath, filenames)` entries that `os.walk` yields from the root, in the
    order it yields them, together with the two checks made on the root. */
module Discovery {
  import opened PyText

  /** One step of the walk: a directory and the names of the files directly in it. */
  datatype WalkEntry = WalkEntry(dirPath: string, fileNames: seq<string>)

  /** What the file system shows of the root at the moment of a scan. */
  datatype DirectoryView = DirectoryView(rootExists: bool, rootIsDir: bool, walk: seq<WalkEntry>)

  /** A name (or path) is a CSV file name when, lower-cased, it ends in ".csv". */
  predicate IsCsvName(name: string)
  {
    EndsWith(Lower(name), ".csv")
  }

  /** The paths the inner loop appends for one directory, in file-name order. */
  function CsvPathsIn(dirPath: string, fileNames: seq<string>): seq<string>
  {
    if fileNames == [] then []
    else
      var last := |fileNames| - 1;
      CsvPathsIn(dirPath, fileNames[..last])
        + (if IsCsvName(fileNames[last]) then [Join(dirPath, fileNames[last])] else [])
  }

  /** The paths the whole walk produces, directory after directory. */
  function Discovered(walk: seq<WalkEntry>): seq<string>
  {
    if walk == [] then []
    else
      var last := |walk| - 1;
      Discovered(walk[..last]) + CsvPathsIn(walk[last].dirPath, walk[last].fileNames)
  }

  /** One more file name extends the paths of a directory by at most that file's path. */
  lemma CsvPathsInStep(dirPath: string, fileNames: seq<string>, j: nat)
    requires j < |fileNames|
    ensures CsvPathsIn(dirPath, fileNames[..j + 1]) == CsvPathsIn(dirPath, fileNames[..j])
      + (if IsCsvName(fileNames[j]) then [Join(dirPath, fileNames[j])] else [])
  {
    assert fileNames[..j + 1][..j] == fileNames[..j];
  }

  /** One more directory of the walk extends the discovered paths by its own. */
  lemma DiscoveredStep(walk: seq<WalkEntry>, i: nat)
    requires i < |walk|
    ensures Discovered(walk[..i + 1]) == Discovered(walk[..i]) + CsvPathsIn(walk[i].dirPath, walk[i].fileNames)
  {
    assert walk[..i + 1][..i] == walk[..i];
  }

  /** Discovery follows walk order: the paths of a longer walk extend those of
      its beginning by the paths of the rest. */
  lemma {:induction false} DiscoveredAppend(front: seq<WalkEntry>, back: seq<WalkEntry>)
    ensures Discovered(front + back) == Discovered(front) + Discovered(back)
    decreases |back|
  {
    if back == [] {
      assert front + back == front;
    } else {
      var last := |back| - 1;
      var whole := front + back;
      assert whole[..|whole| - 1] == front + back[..last];
      assert whole[|whole| - 1] == back[last];
      calc {
        Discovered(whole);
        Discovered(front + back[..last]) + CsvPathsIn(back[last].dirPath, back[last].fileNames);
        { DiscoveredAppend(front, back[..last]); }
        Discovered(front) + Discovered(back[..last]) + CsvPathsIn(back[last].dirPath, back[last].fileNames);
        Discovered(front) + Discovered(back);
      }
    }
  }

  /** Within one directory, file names keep their order too. */
  lemma {:induction false} CsvPathsInAppend(dirPath: string, front: seq<string>, back: seq<string>)
    ensures CsvPathsIn(dirPath, front + back) == CsvPathsIn(dirPath, front) + CsvPathsIn(dirPath, back)
    decreases |back|
  {
    if back == [] {
      assert front + back == front;
    } else {
      var last := |back| - 1;
      CsvPathsInAppend(dirPath, front, back[..last]);
      assert (front + back)[..|front + back| - 1] == front + back[..last];
    }
  }

  /** `p` is a CSV file name of `fileNames` joined to `dirPath`. */
  ghost predicate ListedIn(dirPath: string, fileNames: seq<string>, p: string)
  {
    exists j :: 0 <= j < |fileNames| && IsCsvName(fileNames[j]) && p == Join(dirPath, fileNames[j])
  }

  /** `p` is a CSV file name of some directory of the walk joined to that directory. */
  ghost predicate ListedInWalk(walk: seq<WalkEntry>, p: string)
  {
    exists i :: 0 <= i < |walk| && ListedIn(walk[i].dirPath, walk[i].fileNames, p)
  }

  /** Every path found in one directory is one of its CSV file names joined to it. */
  lemma {:induction false} CsvPathsInSound(dirPath: string, fileNames: seq<string>)
    ensures forall p :: p in CsvPathsIn(dirPath, fileNames) ==> ListedIn(dirPath, fileNames, p)
  {
    if fileNames != [] {
      var last := |fileNames| - 1;
      var front := fileNames[..last];
      CsvPathsInSound(dirPath, front);
      forall p | p in CsvPathsIn(dirPath, fileNames)
        ensures ListedIn(dirPath, fileNames, p)
      {
        if p in CsvPathsIn(dirPath, front) {
          var j :| 0 <= j < |front| && IsCsvName(front[j]) && p == Join(dirPath, front[j]);
          assert fileNames[j] == front[j];
        }
      }
    }
  }

  /** Every CSV file name of a directory is found, joined to the directory. */
  lemma {:induction false} CsvPathsInComplete(dirPath: string, fileNames: seq<string>)
    ensures forall j :: 0 <= j < |fileNames| && IsCsvName(fileNames[j]) ==>
      Join(dirPath, fileNames[j]) in CsvPathsIn(dirPath, fileNames)
  {
    if fileNames != [] {
      var last := |fileNames| - 1;
      var front := fileNames[..last];
      CsvPathsInComplete(dirPath, front);
      forall j | 0 <= j < |fileNames| && IsCsvName(fileNames[j])
        ensures Join(dirPath, fileNames[j]) in CsvPathsIn(dirPath, fileNames)
      {
        if j < last {
          assert fileNames[j] == front[j];
        }
      }
    }
  }

  /** Every discovered path is a CSV file name listed under some directory of
      the walk, joined to that directory. */
  lemma {:induction false} DiscoveredSound(walk: seq<WalkEntry>)
    ensures forall p :: p in Discovered(walk) ==> ListedInWalk(walk, p)
  {
    if walk != [] {
      var last := |walk| - 1;
      var front := walk[..last];
      DiscoveredSound(front);
      CsvPathsInSound(walk[last].dirPath, walk[last].fileNames);
      forall p | p in Discovered(walk)
        ensures ListedInWalk(walk, p)
      {
        if p in Discovered(front) {
          var i :| 0 <= i < |front| && ListedIn(front[i].dirPath, front[i].fileNames, p);
          assert walk[i] == front[i];
        } else {
          assert ListedIn(walk[last].dirPath, walk[last].fileNames, p);
        }
      }
    }
  }

  /** Every CSV file name listed under any directory of the walk, whatever its
      depth, is discovered, joined to that directory. */
  lemma {:induction false} DiscoveredComplete(walk: seq<WalkEntry>)
    ensures forall i, j :: 0 <= i < |walk| && 0 <= j < |walk[i].fileNames| && IsCsvName(walk[i].fileNames[j]) ==>
      Join(walk[i].dirPath, walk[i].fileNames[j]) in Discovered(walk)
  {
    if walk != [] {
      var last := |walk| - 1;
      var front := walk[..last];
      DiscoveredComplete(front);
      CsvPathsInComplete(walk[last].dirPath, walk[last].fileNames);
      forall i, j | 0 <= i < |walk| && 0 <= j < |walk[i].fileNames| && IsCsvName(walk[i].fileNames[j])
        ensures Join(walk[i].dirPath, walk[i].fileNames[j]) in Discovered(walk)
      {
        if i < last {
          assert walk[i] == front[i];
        }
      }
    }
  }

  /** A joined path keeps the CSV suffix of its file name. */
  lemma JoinKeepsCsvName(dirPath: string, name: string)
    requires IsCsvName(name)
    ensures IsCsvName(Join(dirPath, name))
  {
    var path := Join(dirPath, name);
    LowerKeepsSuffix(path, name);
    EndsWithTransitive(Lower(path), Lower(name), ".csv");
  }

  /** Every discovered path, lower-cased, ends in ".csv". */
  lemma {:induction false} DiscoveredAreCsv(walk: seq<WalkEntry>)
    ensures forall k :: 0 <= k < |Discovered(walk)| ==> IsCsvName(Discovered(walk)[k])
  {
    DiscoveredSound(walk);
    forall k | 0 <= k < |Discovered(walk)|
      ensures IsCsvName(Discovered(walk)[k])
    {
      var p := Discovered(walk)[k];
      assert p in Discovered(walk);
      var i :| 0 <= i < |walk| && ListedIn(walk[i].dirPath, walk[i].fileNames, p);
      var j :| 0 <= j < |walk[i].fileNames| && IsCsvName(walk[i].fileNames[j]) && p == Join(walk[i].dirPath, walk[i].fileNames[j]);
      JoinKeepsCsvName(walk[i].dirPath, walk[i].fileNames[j]);
    }
  }


  /** A tree without CSV files (an empty directory among them) gives an empty
      list, and only such a tree does. */
  lemma DiscoveredEmpty(walk: seq<WalkEntry>)
    ensures Discovered(walk) == [] <==>
      forall i, j :: 0 <= i < |walk| && 0 <= j < |walk[i].fileNames| ==> !IsCsvName(walk[i].fileNames[j])
  {
    if Discovered(walk) != [] {
      DiscoveredSound(walk);
      var p := Discovered(walk)[0];
      assert p in Discovered(walk);
      var i :| 0 <= i < |walk| && ListedIn(walk[i].dirPath, walk[i].fileNames, p);
      var j :| 0 <= j < |walk[i].fileNames| && IsCsvName(walk[i].fileNames[j]) && p == Join(walk[i].dirPath, walk[i].fileNames[j]);
    } else {
      DiscoveredComplete(walk);
      assert forall i, j :: 0 <= i < |walk| && 0 <= j < |walk[i].fileNames| ==> !IsCsvName(walk[i].fileNames[j]);
    }
  }

  /** The directory holds at least one file with a CSV name. */
  predicate HasCsvFile(entry: WalkEntry)
  {
    exists j :: 0 <= j < |entry.fileNames| && IsCsvName(entry.fileNames[j])
  }

  /** What `os.walk` yields below an absolute root other than "/": directory
      paths that do not end in '/', and file names without '/'. */
  predicate PlainWalk(walk: seq<WalkEntry>)
  {
    forall i :: 0 <= i < |walk| ==>
      && (walk[i].dirPath == [] || walk[i].dirPath[|walk[i].dirPath| - 1] != '/')
      && forall j :: 0 <= j < |walk[i].fileNames| ==> NoSlash(walk[i].fileNames[j])
  }
}
