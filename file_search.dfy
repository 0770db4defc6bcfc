/** Searching one file, with the encoding fallback (csv_scanner.py:97-166).

    Opening, sniffing, tokenising and decoding are inputs: for each encoding a
    `ReadOutcome` says what reading the file under it produced. */
module FileSearch {
  import opened RowMatching

  /** The encodings the scanner opens a file with. */
  datatype Encoding = Utf8 | Latin1 | Cp1252 | Iso8859_1

  /** Tried in this order after UTF-8 fails to decode (csv_scanner.py:144). */
  const FallbackEncodings: seq<Encoding> := [Latin1, Cp1252, Iso8859_1]

  /** What reading a file under one encoding produced:
      - `Complete`: the reader yielded these rows and reached the end;
      - `DecodeFailed`: a `UnicodeDecodeError` was raised after the reader had
        yielded `rowsBefore` (empty when the error came while sniffing the sample);
      - `Failed`: any other exception (missing file, permission, a CSV error). */
  datatype ReadOutcome =
    | Complete(rows: seq<Row>)
    | DecodeFailed(rowsBefore: seq<Row>)
    | Failed(reason: string)

  /** The file system's answer for a path and an encoding. Under UTF-8 the rows
      are those of the sniffed dialect (or the default one when sniffing fails);
      under the fallback encodings they are those of the default dialect. */
  type Reader = (string, Encoding) -> ReadOutcome

  /** The result of `_search_file`: it returns its matches or raises. */
  datatype FileOutcome = Found(matches: seq<MatchRecord>) | Raised(reason: string)

  /** The outcomes of the fallback reads of `path`, in the order they are tried. */
  function FallbackReads(path: string, read: Reader): (attempts: seq<ReadOutcome>)
    ensures |attempts| == |FallbackEncodings|
    ensures forall k :: 0 <= k < |attempts| ==> attempts[k] == read(path, FallbackEncodings[k])
  {
    [read(path, Latin1), read(path, Cp1252), read(path, Iso8859_1)]
  }

  /** The fallback loop (csv_scanner.py:144-164) given what each remaining
      attempt produces and the matches collected so far, which are never reset:
      the first complete read ends the loop, a decode error moves on to the next
      encoding, any other error escapes, and running out of encodings returns
      normally. */
  function Retry(path: string, keyword: string, caseSensitive: bool, matches: seq<MatchRecord>, attempts: seq<ReadOutcome>): FileOutcome
    decreases |attempts|
  {
    if attempts == [] then Found(matches)
    else
      match attempts[0]
      case Complete(rows) => Found(matches + RowMatches(path, rows, keyword, caseSensitive))
      case DecodeFailed(rowsBefore) =>
        Retry(path, keyword, caseSensitive, matches + RowMatches(path, rowsBefore, keyword, caseSensitive), attempts[1..])
      case Failed(reason) => Raised(reason)
  }

  /** `_search_file(path, keyword, caseSensitive)`: read as UTF-8; only a decode
      error leads to the fallback encodings. */
  function FileResult(path: string, keyword: string, caseSensitive: bool, read: Reader): FileOutcome
  {
    match read(path, Utf8)
    case Complete(rows) => Found(RowMatches(path, rows, keyword, caseSensitive))
    case DecodeFailed(rowsBefore) =>
      Retry(path, keyword, caseSensitive, RowMatches(path, rowsBefore, keyword, caseSensitive), FallbackReads(path, read))
    case Failed(reason) => Raised(reason)
  }

  /** Matches collected before a decode error are kept: whatever the fallback
      encodings find is appended to them. */
  lemma {:induction false} RetryKeepsEarlierMatches(path: string, keyword: string, caseSensitive: bool, matches: seq<MatchRecord>, attempts: seq<ReadOutcome>)
    ensures var outcome := Retry(path, keyword, caseSensitive, matches, attempts);
      outcome.Found? ==> matches <= outcome.matches
    decreases |attempts|
  {
    if attempts != [] && attempts[0].DecodeFailed? {
      var more := matches + RowMatches(path, attempts[0].rowsBefore, keyword, caseSensitive);
      RetryKeepsEarlierMatches(path, keyword, caseSensitive, more, attempts[1..]);
    }
  }

  /** The loop stops at the first encoding that reads the whole file: the
      encodings after it are never consulted. */
  lemma {:induction false} RetryStopsAtFirstSuccess(path: string, keyword: string, caseSensitive: bool, matches: seq<MatchRecord>, attempts: seq<ReadOutcome>, k: nat)
    requires k < |attempts| && attempts[k].Complete?
    requires forall i :: 0 <= i < k ==> attempts[i].DecodeFailed?
    ensures Retry(path, keyword, caseSensitive, matches, attempts) == Retry(path, keyword, caseSensitive, matches, attempts[..k + 1])
    decreases k
  {
    if k > 0 {
      var more := matches + RowMatches(path, attempts[0].rowsBefore, keyword, caseSensitive);
      RetryStopsAtFirstSuccess(path, keyword, caseSensitive, more, attempts[1..], k - 1);
      assert attempts[..k + 1][1..] == attempts[1..][..k];
    }
  }

  /** The loop raises exactly when some attempt fails with an error other than a
      decode error before any attempt succeeds; in particular, when every
      encoding fails to decode, it returns normally. */
  lemma {:induction false} RetryRaisesExactly(path: string, keyword: string, caseSensitive: bool, matches: seq<MatchRecord>, attempts: seq<ReadOutcome>)
    ensures Retry(path, keyword, caseSensitive, matches, attempts).Raised? <==>
      exists k :: 0 <= k < |attempts| && attempts[k].Failed? && forall i :: 0 <= i < k ==> attempts[i].DecodeFailed?
    decreases |attempts|
  {
    if attempts != [] {
      if attempts[0].DecodeFailed? {
        var more := matches + RowMatches(path, attempts[0].rowsBefore, keyword, caseSensitive);
        RetryRaisesExactly(path, keyword, caseSensitive, more, attempts[1..]);
        if Retry(path, keyword, caseSensitive, matches, attempts).Raised? {
          var k :| 0 <= k < |attempts[1..]| && attempts[1..][k].Failed?
            && forall i :: 0 <= i < k ==> attempts[1..][i].DecodeFailed?;
          assert attempts[k + 1].Failed?;
          assert forall i :: 0 <= i < k + 1 ==> attempts[i].DecodeFailed? by {
            forall i | 0 <= i < k + 1
              ensures attempts[i].DecodeFailed?
            {
              if i > 0 {
                assert attempts[1..][i - 1] == attempts[i];
              }
            }
          }
        } else {
          forall k | 0 <= k < |attempts| && attempts[k].Failed?
            ensures exists i :: 0 <= i < k && !attempts[i].DecodeFailed?
          {
            assert attempts[1..][k - 1] == attempts[k];
            var i :| 0 <= i < k - 1 && !attempts[1..][i].DecodeFailed?;
            assert attempts[i + 1] == attempts[1..][i];
          }
        }
      }
    }
  }

  /** `_search_file` raises exactly when the UTF-8 read fails with an error
      other than a decode error, or when it fails to decode and some fallback
      encoding then fails that way before any fallback succeeds. A decode
      error alone never escapes, even under every encoding. */
  lemma FileResultRaisesExactly(path: string, keyword: string, caseSensitive: bool, read: Reader)
    ensures FileResult(path, keyword, caseSensitive, read).Raised? <==>
      || read(path, Utf8).Failed?
      || (&& read(path, Utf8).DecodeFailed?
          && exists k :: 0 <= k < |FallbackEncodings| && read(path, FallbackEncodings[k]).Failed?
               && forall i :: 0 <= i < k ==> read(path, FallbackEncodings[i]).DecodeFailed?)
  {
    if read(path, Utf8).DecodeFailed? {
      var early := RowMatches(path, read(path, Utf8).rowsBefore, keyword, caseSensitive);
      RetryRaisesExactly(path, keyword, caseSensitive, early, FallbackReads(path, read));
    }
  }

  /** Every match the fallback loop adds is a genuine match of some row. */
  lemma {:induction false} RetryGenuine(path: string, keyword: string, caseSensitive: bool, matches: seq<MatchRecord>, attempts: seq<ReadOutcome>)
    requires forall r :: r in matches ==> Genuine(path, keyword, caseSensitive, r)
    ensures var outcome := Retry(path, keyword, caseSensitive, matches, attempts);
      outcome.Found? ==> forall r :: r in outcome.matches ==> Genuine(path, keyword, caseSensitive, r)
    decreases |attempts|
  {
    if attempts != [] {
      match attempts[0]
      case Complete(rows) =>
        RowMatchesSound(path, rows, keyword, caseSensitive);
      case DecodeFailed(rowsBefore) =>
        RowMatchesSound(path, rowsBefore, keyword, caseSensitive);
        var more := matches + RowMatches(path, rowsBefore, keyword, caseSensitive);
        RetryGenuine(path, keyword, caseSensitive, more, attempts[1..]);
      case Failed(_) =>
    }
  }

  /** Every record `_search_file` returns names the file searched, has a positive
      row number and lists exactly the (non-empty) matching columns of its row. */
  lemma FileResultGenuine(path: string, keyword: string, caseSensitive: bool, read: Reader)
    ensures var outcome := FileResult(path, keyword, caseSensitive, read);
      outcome.Found? ==> forall r :: r in outcome.matches ==> Genuine(path, keyword, caseSensitive, r)
  {
    match read(path, Utf8)
    case Complete(rows) =>
      RowMatchesSound(path, rows, keyword, caseSensitive);
    case DecodeFailed(rowsBefore) =>
      RowMatchesSound(path, rowsBefore, keyword, caseSensitive);
      RetryGenuine(path, keyword, caseSensitive, RowMatches(path, rowsBefore, keyword, caseSensitive), FallbackReads(path, read));
    case Failed(_) =>
  }

  /** Because the matches are not reset and the fallback reads the file again
      from its first row, when UTF-8 decoding fails part-way and Latin-1 then
      reads the same rows, every match found before the error is reported twice:
      once from the UTF-8 read and again from the Latin-1 read. */
  lemma FallbackRepeatsEarlierMatches(path: string, keyword: string, caseSensitive: bool, read: Reader, before: seq<Row>, rows: seq<Row>)
    requires read(path, Utf8) == DecodeFailed(before)
    requires read(path, Latin1) == Complete(rows)
    requires before <= rows
    ensures var early := RowMatches(path, before, keyword, caseSensitive);
      && FileResult(path, keyword, caseSensitive, read) == Found(early + RowMatches(path, rows, keyword, caseSensitive))
      && early <= RowMatches(path, rows, keyword, caseSensitive)
  {
    assert rows[..|before|] == before;
    RowMatchesPrefix(path, rows, |before|, keyword, caseSensitive);
  }

  /** `_search_file` as written: UTF-8 first, then the fallback loop with its
      `break`, all appending to one `matches` list. */
  method SearchFile(path: string, keyword: string, caseSensitive: bool, read: Reader) returns (outcome: FileOutcome)
    ensures outcome == FileResult(path, keyword, caseSensitive, read)
  {
    var matches: seq<MatchRecord> := [];
    match read(path, Utf8) {
      case Complete(rows) =>
        matches := ScanRows(path, rows, keyword, caseSensitive, matches);
      case Failed(reason) =>
        return Raised(reason);
      case DecodeFailed(rowsBefore) =>
        matches := ScanRows(path, rowsBefore, keyword, caseSensitive, matches);
        ghost var attempts := FallbackReads(path, read);
        assert matches == RowMatches(path, rowsBefore, keyword, caseSensitive);
        assert attempts[0..] == attempts;
        var i := 0;
        while i < |FallbackEncodings|
          invariant 0 <= i <= |FallbackEncodings|
          invariant Retry(path, keyword, caseSensitive, matches, attempts[i..]) == FileResult(path, keyword, caseSensitive, read)
        {
          assert attempts[i..][0] == read(path, FallbackEncodings[i]);
          match read(path, FallbackEncodings[i]) {
            case Complete(rows) =>
              matches := ScanRows(path, rows, keyword, caseSensitive, matches);
              break;
            case DecodeFailed(rowsBefore) =>
              matches := ScanRows(path, rowsBefore, keyword, caseSensitive, matches);
            case Failed(reason) =>
              return Raised(reason);
          }
          assert attempts[i..][1..] == attempts[i + 1..];
          i := i + 1;
        }
    }
    return Found(matches);
  }
}
