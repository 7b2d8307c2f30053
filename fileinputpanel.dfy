/**
 * FileInputPanel: the list of raw files waiting for import.
 *
 * The file list is kept sorted and free of duplicates; the table shows one
 * row per file, each with a progress bar whose flags say whether the file
 * is queued, loading or loaded.  Rebuilding the table keeps loaded files
 * loaded and queues every other one.
 */
module FileInputPanels {
  import opened ProgressBars

  /* ---------------- std::string ordering ---------------- */

  /** Lexicographic order on character codes, as std::string's operator< compares. */
  predicate Less(a: string, b: string) {
    if a == [] then b != []
    else if b == [] then false
    else if a[0] == b[0] then Less(a[1..], b[1..])
    else a[0] < b[0]
  }

  lemma {:induction false} LessIrreflexive(a: string)
    ensures !Less(a, a)
  {
    if a != [] {
      LessIrreflexive(a[1..]);
    }
  }

  lemma {:induction false} LessTransitive(a: string, b: string, c: string)
    requires Less(a, b) && Less(b, c)
    ensures Less(a, c)
  {
    if a != [] && a[0] == b[0] && b[0] == c[0] {
      LessTransitive(a[1..], b[1..], c[1..]);
    }
  }

  lemma {:induction false} LessTotal(a: string, b: string)
    requires a != b
    ensures Less(a, b) || Less(b, a)
  {
    if a != [] && b != [] && a[0] == b[0] {
      assert a == [a[0]] + a[1..] && b == [b[0]] + b[1..];
      LessTotal(a[1..], b[1..]);
    }
  }

  lemma {:induction false} LessAsymmetric(a: string, b: string)
    requires Less(a, b)
    ensures !Less(b, a)
  {
    if Less(b, a) {
      LessTransitive(a, b, a);
      LessIrreflexive(a);
    }
  }

  /** Ascending with no repeats: what std::sort followed by std::unique leaves. */
  predicate StrictlySorted(s: seq<string>) {
    forall i, j :: 0 <= i < j < |s| ==> Less(s[i], s[j])
  }

  /** x placed in order into a sorted list, unless it is already there. */
  function Insert(s: seq<string>, x: string): (r: seq<string>)
    ensures forall y :: y in r <==> y in s || y == x
  {
    if s == [] then [x]
    else if x == s[0] then s
    else if Less(x, s[0]) then [x] + s
    else [s[0]] + Insert(s[1..], x)
  }

  lemma {:induction false} InsertSorted(s: seq<string>, x: string)
    requires StrictlySorted(s)
    ensures StrictlySorted(Insert(s, x))
  {
    if s != [] && x != s[0] {
      if Less(x, s[0]) {
        forall j | 0 < j < |s| ensures Less(x, s[j]) {
          LessTransitive(x, s[0], s[j]);
        }
      } else {
        LessTotal(x, s[0]);
        InsertSorted(s[1..], x);
        var rest := Insert(s[1..], x);
        forall k | 0 <= k < |rest| ensures Less(s[0], rest[k]) {
          assert rest[k] in s[1..] || rest[k] == x;
          if rest[k] != x {
            var j :| 1 <= j < |s| && s[j] == rest[k];
          }
        }
      }
    }
  }

  /** The sorted list of the distinct elements of s: std::sort then std::unique. */
  function SortUnique(s: seq<string>): (r: seq<string>)
    ensures forall y :: y in r <==> y in s
  {
    if s == [] then [] else Insert(SortUnique(s[..|s| - 1]), s[|s| - 1])
  }

  lemma {:induction false} SortUniqueSorted(s: seq<string>)
    ensures StrictlySorted(SortUnique(s))
  {
    if s != [] {
      SortUniqueSorted(s[..|s| - 1]);
      InsertSorted(SortUnique(s[..|s| - 1]), s[|s| - 1]);
    }
  }

  /** A strictly sorted list is fixed by its elements, so any sort-and-unique gives the same list. */
  lemma {:induction false} SortedDetermined(a: seq<string>, b: seq<string>)
    requires StrictlySorted(a) && StrictlySorted(b)
    requires forall y :: y in a <==> y in b
    ensures a == b
  {
    if a != [] {
      assert a[0] in b;
      assert b != [];
      assert b[0] in b;
      if a[0] != b[0] {
        var j :| 0 <= j < |b| && b[j] == a[0];
        var k :| 0 <= k < |a| && a[k] == b[0];
        assert j > 0 && k > 0;
        assert Less(b[0], a[0]) && Less(a[0], b[0]);
        LessAsymmetric(a[0], b[0]);
      }
      forall y ensures y in a[1..] <==> y in b[1..] {
        if y in a[1..] {
          var i :| 1 <= i < |a| && a[i] == y;
          if y == a[0] {
            LessIrreflexive(a[0]);
          }
          assert y in b;
          var j :| 0 <= j < |b| && b[j] == y;
          assert j != 0;
        }
        if y in b[1..] {
          var i :| 1 <= i < |b| && b[i] == y;
          if y == b[0] {
            LessIrreflexive(b[0]);
          }
          assert y in a;
          var j :| 0 <= j < |a| && a[j] == y;
          assert j != 0;
        }
      }
      SortedDetermined(a[1..], b[1..]);
      assert a == [a[0]] + a[1..] && b == [b[0]] + b[1..];
    }
  }

  /** Sorting and de-duplicating a sorted, duplicate-free list changes nothing. */
  lemma SortUniqueOfSorted(s: seq<string>)
    requires StrictlySorted(s)
    ensures SortUnique(s) == s
  {
    SortUniqueSorted(s);
    SortedDetermined(SortUnique(s), s);
  }

  /** The paths remove_if keeps: those not already listed, in their order. */
  function NewPaths(paths: seq<string>, listed: seq<string>): (r: seq<string>)
    ensures forall y :: y in r <==> y in paths && y !in listed
    ensures (forall p :: p in paths ==> p in listed) ==> r == []
  {
    if paths == [] then []
    else (if paths[0] in listed then [] else [paths[0]]) + NewPaths(paths[1..], listed)
  }

  /** The file list addQueuedFiles leaves. */
  function Added(listed: seq<string>, paths: seq<string>): (r: seq<string>)
    ensures forall y :: y in r <==> y in listed || y in paths
  {
    SortUnique(listed + NewPaths(paths, listed))
  }

  /** The new list is sorted and duplicate-free. */
  lemma AddedSorted(listed: seq<string>, paths: seq<string>)
    ensures StrictlySorted(Added(listed, paths))
  {
    SortUniqueSorted(listed + NewPaths(paths, listed));
  }

  /** Adding only files already listed leaves a sorted list as it was. */
  lemma AddedIdempotent(listed: seq<string>, paths: seq<string>)
    requires StrictlySorted(listed)
    requires forall p :: p in paths ==> p in listed
    ensures Added(listed, paths) == listed
  {
    assert listed + NewPaths(paths, listed) == listed;
    SortUniqueOfSorted(listed);
  }

  /* ---------------- rows and their status ---------------- */

  /** Which flag of a row's progress bar a selection looks at. */
  datatype Flag = QueuedFlag | LoadedFlag

  function Has(s: Status, f: Flag): bool {
    match f
    case QueuedFlag => s.queued
    case LoadedFlag => s.loaded
  }

  /** The names, in row order, of the rows whose bar has flag f. */
  function Selected(names: seq<string>, bars: seq<Status>, f: Flag): seq<string>
    requires |names| == |bars|
  {
    if names == [] then []
    else
      var n := |names| - 1;
      Selected(names[..n], bars[..n], f) + (if Has(bars[n], f) then [names[n]] else [])
  }

  /** A name is selected exactly when some row with that name has the flag. */
  lemma {:induction false} SelectedMembers(names: seq<string>, bars: seq<Status>, f: Flag, x: string)
    requires |names| == |bars|
    ensures x in Selected(names, bars, f) <==> exists i :: 0 <= i < |names| && names[i] == x && Has(bars[i], f)
  {
    if names != [] {
      var n := |names| - 1;
      SelectedMembers(names[..n], bars[..n], f, x);
      if x in Selected(names, bars, f) && x !in Selected(names[..n], bars[..n], f) {
        assert names[n] == x && Has(bars[n], f);
      }
    }
  }

  /** The selected names keep the list's order, so a sorted list gives a sorted selection. */
  lemma {:induction false} SelectedSorted(names: seq<string>, bars: seq<Status>, f: Flag)
    requires |names| == |bars| && StrictlySorted(names)
    ensures StrictlySorted(Selected(names, bars, f))
  {
    if names != [] {
      var n := |names| - 1;
      SelectedSorted(names[..n], bars[..n], f);
      var init := Selected(names[..n], bars[..n], f);
      forall k | 0 <= k < |init| ensures Less(init[k], names[n]) {
        assert init[k] in init;
        SelectedMembers(names[..n], bars[..n], f, init[k]);
      }
    }
  }

  const QueuedBar := Apply(NewStatus, Queue)
  const LoadedBar := Apply(NewStatus, Load)

  /** The bars updateFileTable builds: loaded for a file that was loaded, queued for every other. */
  function FreshBars(names: seq<string>, loaded: seq<string>): (bars: seq<Status>)
    ensures |bars| == |names|
  {
    seq(|names|, i requires 0 <= i < |names| => if names[i] in loaded then LoadedBar else QueuedBar)
  }

  /**
   * After a rebuild, a listed file is queued exactly when it was not loaded
   * before, and loaded exactly when it was; a file that was loading comes
   * back queued.
   */
  lemma RebuiltFlags(names: seq<string>, loaded: seq<string>, x: string)
    ensures x in Selected(names, FreshBars(names, loaded), QueuedFlag) <==> x in names && x !in loaded
    ensures x in Selected(names, FreshBars(names, loaded), LoadedFlag) <==> x in names && x in loaded
  {
    var bars := FreshBars(names, loaded);
    SelectedMembers(names, bars, QueuedFlag, x);
    SelectedMembers(names, bars, LoadedFlag, x);
    if x in names {
      var i :| 0 <= i < |names| && names[i] == x;
      assert Has(bars[i], QueuedFlag) <==> x !in loaded;
    }
  }

  /** The loop of removeTableRow on the two columns: move every later row up one, then drop the last. */
  method ShiftUp<A, B>(names: seq<A>, bars: seq<B>, row: nat) returns (names': seq<A>, bars': seq<B>)
    requires row < |names| && |bars| == |names|
    ensures names' == Erase(names, row) && bars' == Erase(bars, row)
  {
    names', bars' := names, bars;
    var numRows := |names|;
    for r := row to numRows - 1
      invariant |names'| == numRows && |bars'| == numRows
      invariant forall i :: 0 <= i < row ==> names'[i] == names[i] && bars'[i] == bars[i]
      invariant forall i :: row <= i < r ==> names'[i] == names[i + 1] && bars'[i] == bars[i + 1]
      invariant forall i :: r <= i < numRows ==> names'[i] == names[i] && bars'[i] == bars[i]
    {
      names' := names'[r := names'[r + 1]];
      bars' := bars'[r := bars'[r + 1]];
    }
    names' := names'[..numRows - 1];
    bars' := bars'[..numRows - 1];
  }

  /** Removing one position keeps the rest in order. */
  function Erase<T>(s: seq<T>, row: nat): (r: seq<T>)
    requires row < |s|
    ensures |r| == |s| - 1
    ensures forall i :: 0 <= i < |r| ==> r[i] == if i < row then s[i] else s[i + 1]
  {
    s[..row] + s[row + 1..]
  }

  lemma EraseSorted(s: seq<string>, row: nat)
    requires row < |s| && StrictlySorted(s)
    ensures StrictlySorted(Erase(s, row))
  {
    var r := Erase(s, row);
    forall i, j | 0 <= i < j < |r| ensures Less(r[i], r[j]) {
      var i' := if i < row then i else i + 1;
      var j' := if j < row then j else j + 1;
      assert r[i] == s[i'] && r[j] == s[j'] && i' < j';
    }
  }

  /** What a click on the start/stop button asks the application to do. */
  datatype ImportRequest = StartImport | StopImport | NoRequest

  /** The loop over the table rows: the names, in row order, whose bar has flag f. */
  method SelectRows(names: seq<string>, bars: seq<Status>, f: Flag) returns (sel: seq<string>)
    requires |names| == |bars|
    ensures sel == Selected(names, bars, f)
  {
    sel := [];
    for row := 0 to |names|
      invariant sel == Selected(names[..row], bars[..row], f)
    {
      assert names[..row + 1][..row] == names[..row];
      assert bars[..row + 1][..row] == bars[..row];
      if Has(bars[row], f) {
        sel := sel + [names[row]];
      }
    }
    assert names[..|names|] == names && bars[..|names|] == bars;
  }

  /** The loop that refills the table: a loaded bar for each file that was loaded, a queued bar for the others. */
  method BuildBars(names: seq<string>, loaded: seq<string>) returns (bars: seq<Status>)
    ensures bars == FreshBars(names, loaded)
  {
    bars := [];
    for ix := 0 to |names|
      invariant bars == FreshBars(names, loaded)[..ix]
    {
      if names[ix] in loaded {
        bars := bars + [LoadedBar];
      } else {
        bars := bars + [QueuedBar];
      }
    }
  }

  /** The panel's state: the file list, the table's name column and bars, and the import button. */
  class FileInputPanel {
    var fileList: seq<string>
    /** The file name column of the table, row by row. */
    var tableNames: seq<string>
    /** The flags of each row's progress bar. */
    var rowBars: seq<Status>
    /** Whether the start/stop button is enabled. */
    var importEnabled: bool
    /** Whether the panel is importing: the start/stop button cancels and the other buttons are off. */
    var cancelOnly: bool

    predicate Valid()
      reads this
    {
      tableNames == fileList && |rowBars| == |fileList| && StrictlySorted(fileList)
      && forall i :: 0 <= i < |rowBars| ==> Consistent(rowBars[i])
    }

    /** An empty list and table; the import button starts disabled. */
    constructor()
      ensures Valid() && fileList == [] && rowBars == [] && !importEnabled && !cancelOnly
    {
      fileList := [];
      tableNames := [];
      rowBars := [];
      importEnabled := false;
      cancelOnly := false;
    }

    /** queuedFileList: the files, in list order, whose bar is queued. */
    method QueuedFileList() returns (queued: seq<string>)
      requires |rowBars| == |fileList|
      ensures queued == Selected(fileList, rowBars, QueuedFlag)
    {
      queued := SelectRows(fileList, rowBars, QueuedFlag);
    }

    /** getFileRow: the first table row showing this file, or -1 when none does. */
    method GetFileRow(file: string) returns (row: int)
      ensures -1 <= row < |tableNames|
      ensures row == -1 <==> file !in tableNames
      ensures row >= 0 ==> tableNames[row] == file && forall r :: 0 <= r < row ==> tableNames[r] != file
    {
      for r := 0 to |tableNames|
        invariant forall k :: 0 <= k < r ==> tableNames[k] != file
      {
        if tableNames[r] == file {
          return r;
        }
      }
      return -1;
    }

    /**
     * updateFileTable: note which table rows are loaded, then give every
     * file of the list a row whose bar is loaded if that file was loaded
     * and queued otherwise; enable import when something is queued.
     */
    method UpdateFileTable()
      requires |rowBars| == |tableNames| && StrictlySorted(fileList)
      modifies this
      ensures Valid() && fileList == old(fileList) && tableNames == fileList
      ensures rowBars == FreshBars(fileList, Selected(old(tableNames), old(rowBars), LoadedFlag))
      ensures importEnabled <==> Selected(fileList, rowBars, QueuedFlag) != []
      ensures cancelOnly == old(cancelOnly)
    {
      var loadedFiles := SelectRows(tableNames, rowBars, LoadedFlag);
      var bars := BuildBars(fileList, loadedFiles);
      tableNames := fileList;
      rowBars := bars;
      var queued := QueuedFileList();
      importEnabled := queued != [];
    }

    /**
     * addQueuedFiles: drop the paths already listed, append the rest, sort
     * and remove duplicates, then rebuild the table.
     */
    method AddQueuedFiles(paths: seq<string>)
      requires Valid()
      modifies this
      ensures Valid() && fileList == Added(old(fileList), paths)
      ensures rowBars == FreshBars(fileList, Selected(old(fileList), old(rowBars), LoadedFlag))
      ensures importEnabled <==> Selected(fileList, rowBars, QueuedFlag) != []
      ensures cancelOnly == old(cancelOnly)
    {
      var kept := NewPaths(paths, fileList);
      fileList := SortUnique(fileList + kept);
      AddedSorted(old(fileList), paths);
      UpdateFileTable();
    }

    /**
     * removeTableRow: shift every later row up by one (its bar cloned, so
     * its flags kept), drop the last row and erase the file from the list;
     * disable import when nothing is left queued.
     */
    method RemoveTableRow(row: nat)
      requires Valid() && row < |fileList|
      modifies this
      ensures Valid()
      ensures fileList == Erase(old(fileList), row) && rowBars == Erase(old(rowBars), row)
      ensures importEnabled == (old(importEnabled) && Selected(fileList, rowBars, QueuedFlag) != [])
      ensures cancelOnly == old(cancelOnly)
    {
      ShiftRowsUp(row);
      fileList := Erase(fileList, row);
      EraseSorted(old(fileList), row);
      var queued := QueuedFileList();
      if queued == [] {
        importEnabled := false;
      }
    }

    /**
     * The manual row deletion of removeTableRow: every row after the given
     * one takes the name and a clone of the bar of the row below it, then
     * the last row goes.
     */
    method ShiftRowsUp(row: nat)
      requires row < |tableNames| && |rowBars| == |tableNames|
      modifies this
      ensures tableNames == Erase(old(tableNames), row) && rowBars == Erase(old(rowBars), row)
      ensures fileList == old(fileList) && importEnabled == old(importEnabled) && cancelOnly == old(cancelOnly)
    {
      tableNames, rowBars := ShiftUp(tableNames, rowBars, row);
    }

    /** clearAllRows: no files, no rows, import disabled. */
    method ClearAllRows()
      modifies this
      ensures Valid() && fileList == [] && rowBars == [] && !importEnabled
      ensures cancelOnly == old(cancelOnly)
    {
      fileList := [];
      tableNames := [];
      rowBars := [];
      importEnabled := false;
    }

    /**
     * The row update shared by connectThread, setFileLoaded and
     * setFileQueued: find the file's row (the source asserts there is one)
     * and apply the call to its bar.
     */
    method ApplyToFile(file: string, e: Event) returns (row: int)
      requires Valid() && file in fileList
      modifies this
      ensures Valid() && 0 <= row < |fileList| && fileList[row] == file
      ensures fileList == old(fileList) && tableNames == old(tableNames)
      ensures rowBars == old(rowBars)[row := Apply(old(rowBars)[row], e)]
      ensures importEnabled == old(importEnabled) && cancelOnly == old(cancelOnly)
    {
      row := GetFileRow(file);
      rowBars := rowBars[row := Apply(rowBars[row], e)];
    }

    /** connectThread(file, thread): the file's bar follows the thread and shows loading. */
    method ConnectFileThread(file: string) returns (row: int)
      requires Valid() && file in fileList
      modifies this
      ensures Valid() && 0 <= row < |fileList| && fileList[row] == file
      ensures fileList == old(fileList) && importEnabled == old(importEnabled) && cancelOnly == old(cancelOnly)
      ensures rowBars == old(rowBars)[row := Apply(old(rowBars)[row], StartLoading)]
      ensures rowBars[row].loading && !rowBars[row].loaded
    {
      row := ApplyToFile(file, StartLoading);
    }

    /** setFileLoaded: the file's bar becomes loaded, neither queued nor loading. */
    method SetFileLoaded(file: string) returns (row: int)
      requires Valid() && file in fileList
      modifies this
      ensures Valid() && 0 <= row < |fileList| && fileList[row] == file
      ensures fileList == old(fileList) && importEnabled == old(importEnabled) && cancelOnly == old(cancelOnly)
      ensures rowBars == old(rowBars)[row := LoadedBar]
    {
      row := ApplyToFile(file, Load);
    }

    /** setFileQueued: the file's bar becomes queued and not loaded. */
    method SetFileQueued(file: string) returns (row: int)
      requires Valid() && file in fileList
      modifies this
      ensures Valid() && 0 <= row < |fileList| && fileList[row] == file
      ensures fileList == old(fileList) && importEnabled == old(importEnabled) && cancelOnly == old(cancelOnly)
      ensures rowBars == old(rowBars)[row := Apply(old(rowBars)[row], Queue)]
      ensures rowBars[row].queued && !rowBars[row].loaded
    {
      row := ApplyToFile(file, Queue);
    }

    /** updateLoadStatus: importing is done when no row's bar is loading. */
    method UpdateLoadStatus() returns (done: bool)
      ensures done <==> forall i :: 0 <= i < |rowBars| ==> !rowBars[i].loading
    {
      var loading := false;
      for row := 0 to |rowBars|
        invariant loading <==> exists i :: 0 <= i < row && rowBars[i].loading
      {
        loading := loading || rowBars[row].loading;
      }
      done := !loading;
    }

    /**
     * setCancelBtnOnly: enter or leave importing; in either mode the
     * start/stop button is enabled exactly when some file is queued.
     */
    method SetCancelBtnOnly(value: bool)
      requires Valid()
      modifies this
      ensures Valid() && cancelOnly == value
      ensures fileList == old(fileList) && rowBars == old(rowBars)
      ensures importEnabled <==> Selected(fileList, rowBars, QueuedFlag) != []
    {
      var queued := QueuedFileList();
      importEnabled := queued != [];
      cancelOnly := value;
    }

    /**
     * startStopBtnClick: while importing, ask to stop; otherwise, with
     * files listed, switch to importing and ask to start.
     */
    method StartStopBtnClick() returns (request: ImportRequest)
      requires Valid()
      modifies this
      ensures Valid() && fileList == old(fileList) && rowBars == old(rowBars)
      ensures old(cancelOnly) ==> request == StopImport && cancelOnly && importEnabled == old(importEnabled)
      ensures !old(cancelOnly) && old(fileList) == [] ==> request == NoRequest && !cancelOnly && importEnabled == old(importEnabled)
      ensures !old(cancelOnly) && old(fileList) != [] ==>
        (request == StartImport && cancelOnly && (importEnabled <==> Selected(fileList, rowBars, QueuedFlag) != []))
    {
      if cancelOnly {
        return StopImport;
      }
      if fileList == [] {
        return NoRequest;
      }
      SetCancelBtnOnly(true);
      request := StartImport;
    }
  }
}
