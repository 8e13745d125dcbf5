/**
 * The sample-sheet half of `01_split-into-project-folders.py`: choosing the
 * latest run folder, finding the `[Cloud_Data]` section, parsing its header and
 * rows, and collecting the project names of column 1.
 *
 * The script runs under Python 2, so `str.strip()` removes ASCII whitespace only.
 */
module SampleSheet {
  import opened Wrappers
  import opened Strings

  /** An entry of the base analysis directory, as `os.listdir` lists it, with its
      `os.path.isdir` answer and its modification time. */
  datatype Entry = Entry(name: string, isDir: bool, mtime: int)

  /** `[f for f in os.listdir(base_dir) if os.path.isdir(...)]`: the directories,
      in listing order. */
  function Folders(entries: seq<Entry>): (r: seq<Entry>)
    ensures |r| <= |entries|
    ensures forall e :: e in r <==> e in entries && e.isDir
  {
    if entries == [] then []
    else (if entries[0].isDir then [entries[0]] else []) + Folders(entries[1..])
  }

  /** The filter keeps listing order: a further entry is appended after the
      folders so far when it is a directory, and adds nothing otherwise. */
  lemma {:induction false} FoldersAppend(entries: seq<Entry>, e: Entry)
    ensures Folders(entries + [e]) == Folders(entries) + (if e.isDir then [e] else [])
    decreases |entries|
  {
    if entries == [] {
      assert [] + [e] == [e];
      assert Folders([e]) == (if e.isDir then [e] else []) + Folders([]);
    } else {
      assert (entries + [e])[0] == entries[0];
      assert (entries + [e])[1..] == entries[1..] + [e];
      FoldersAppend(entries[1..], e);
    }
  }

  /** `k` is the position `max(folders, key=mtime)` picks: a largest time, and
      no earlier folder with that time. */
  predicate IsFirstLatest(folders: seq<Entry>, k: int) {
    0 <= k < |folders| &&
    (forall i :: 0 <= i < |folders| ==> folders[i].mtime <= folders[k].mtime) &&
    (forall i :: 0 <= i < k ==> folders[i].mtime < folders[k].mtime)
  }

  /** Python's `max(folders, key=mtime)`: the first folder whose time is the largest. */
  function LatestIndex(folders: seq<Entry>): (k: nat)
    requires |folders| > 0
    ensures IsFirstLatest(folders, k)
  {
    if |folders| == 1 then 0
    else
      var j := LatestIndex(folders[..|folders| - 1]);
      if folders[|folders| - 1].mtime > folders[j].mtime then |folders| - 1 else j
  }

  /** `max(folders, key=mtime)` by name; `None` where `max` raises on an empty list. */
  function LatestOf(folders: seq<Entry>): Option<string> {
    if folders == [] then None else Some(folders[LatestIndex(folders)].name)
  }

  /** The name of the latest run folder; `None` where `max` raises on an empty list. */
  function LatestFolder(entries: seq<Entry>): (r: Option<string>)
    ensures r.None? <==> forall e :: e in entries ==> !e.isDir
    ensures r.Some? ==> exists e :: e in entries && e.isDir && e.name == r.value &&
                          forall d :: d in entries && d.isDir ==> d.mtime <= e.mtime
    ensures forall k :: IsFirstLatest(Folders(entries), k) ==> r == Some(Folders(entries)[k].name)
  {
    var folders := Folders(entries);
    if folders == [] then LatestOf(folders)
    else
      var k := LatestIndex(folders);
      var e := folders[k];
      assert forall d :: d in folders ==> d.mtime <= e.mtime;
      assert IsFirstLatest(folders, k) && folders[k].name == e.name;
      LatestOf(folders)
  }

  /** Entry `j` is the directory `max` returns, read over the whole listing: a
      directory with the largest time, and no earlier directory with that time. */
  predicate IsLatestEntry(entries: seq<Entry>, j: int) {
    0 <= j < |entries| && entries[j].isDir &&
    (forall i :: 0 <= i < |entries| && entries[i].isDir ==> entries[i].mtime <= entries[j].mtime) &&
    (forall i :: 0 <= i < j && entries[i].isDir ==> entries[i].mtime < entries[j].mtime)
  }

  /** Time of the folder `max` picks among the folders of `entries`. */
  function LatestTime(entries: seq<Entry>): int
    requires Folders(entries) != []
  {
    Folders(entries)[LatestIndex(Folders(entries))].mtime
  }

  /** Every directory of the listing is at most as recent as the chosen one. */
  lemma LatestTimeBounds(entries: seq<Entry>, i: nat)
    requires Folders(entries) != [] && i < |entries| && entries[i].isDir
    ensures entries[i].mtime <= LatestTime(entries)
  {
    assert entries[i] in Folders(entries);
  }

  /** A further entry no newer than the first latest directory, or not a directory
      at all, keeps that directory first latest. */
  lemma LatestEntryExtends(init: seq<Entry>, e: Entry, j: int)
    requires IsLatestEntry(init, j) && (e.isDir ==> e.mtime <= init[j].mtime)
    ensures IsLatestEntry(init + [e], j)
  {
    var all := init + [e];
    assert all[j] == init[j];
    forall i | 0 <= i < |all| && all[i].isDir
      ensures all[i].mtime <= all[j].mtime
    {
      if i < |init| {
        assert all[i] == init[i];
      }
    }
    forall i | 0 <= i < j && all[i].isDir
      ensures all[i].mtime < all[j].mtime
    {
      assert all[i] == init[i];
    }
  }

  /** A further directory newer than every directory so far is the first latest one. */
  lemma LatestEntryNew(init: seq<Entry>, e: Entry)
    requires e.isDir && forall i :: 0 <= i < |init| && init[i].isDir ==> init[i].mtime < e.mtime
    ensures IsLatestEntry(init + [e], |init|)
  {
    var all := init + [e];
    assert all[|init|] == e;
    forall i | 0 <= i < |all| && all[i].isDir
      ensures all[i].mtime <= e.mtime
    {
      if i < |init| {
        assert all[i] == init[i];
      }
    }
    forall i | 0 <= i < |init| && all[i].isDir
      ensures all[i].mtime < e.mtime
    {
      assert all[i] == init[i];
    }
  }

  /** A further entry that is not a directory changes neither the choice nor the
      first latest directory. */
  lemma LatestStepSkip(init: seq<Entry>, e: Entry, j: int)
    requires !e.isDir
    ensures LatestFolder(init + [e]) == LatestFolder(init)
    ensures IsLatestEntry(init, j) ==> IsLatestEntry(init + [e], j)
  {
    FoldersAppend(init, e);
    assert Folders(init + [e]) == Folders(init) + [];
    assert Folders(init) + [] == Folders(init);
    assert LatestFolder(init + [e]) == LatestOf(Folders(init + [e]));
    if IsLatestEntry(init, j) {
      LatestEntryExtends(init, e, j);
    }
  }

  /** A further directory newer than every folder so far becomes the choice. */
  lemma LatestStepNew(init: seq<Entry>, e: Entry)
    requires e.isDir && (Folders(init) != [] ==> e.mtime > LatestTime(init))
    ensures LatestFolder(init + [e]) == Some(e.name)
    ensures IsLatestEntry(init + [e], |init|)
  {
    FoldersAppend(init, e);
    var f, g := Folders(init), Folders(init + [e]);
    assert g == f + [e];
    assert g[..|g| - 1] == f;
    assert LatestFolder(init + [e]) == LatestOf(g);
    if f == [] {
      forall i | 0 <= i < |init|
        ensures !init[i].isDir
      {
        assert init[i] in init;
      }
    } else {
      forall i | 0 <= i < |init| && init[i].isDir
        ensures init[i].mtime < e.mtime
      {
        LatestTimeBounds(init, i);
      }
      assert LatestIndex(g) == |g| - 1;
    }
    LatestEntryNew(init, e);
  }

  /** A further directory no newer than the choice so far leaves the choice alone. */
  lemma LatestStepKeep(init: seq<Entry>, e: Entry, j: int)
    requires e.isDir && Folders(init) != [] && e.mtime <= LatestTime(init)
    requires IsLatestEntry(init, j)
    ensures LatestFolder(init + [e]) == LatestFolder(init)
    ensures IsLatestEntry(init + [e], j)
  {
    FoldersAppend(init, e);
    var f, g := Folders(init), Folders(init + [e]);
    var j0 := LatestIndex(f);
    assert g == f + [e];
    assert g[..|g| - 1] == f;
    assert LatestIndex(g) == j0;
    assert LatestFolder(init + [e]) == LatestOf(g) == LatestOf(f) == LatestFolder(init);
    assert f[j0] in init;
    LatestTimeBounds(init, j);
    assert init[j].mtime == LatestTime(init);
    LatestEntryExtends(init, e, j);
  }

  /** The tie-break in listing order: the chosen folder is the first directory of
      the listing whose time is the largest. */
  lemma {:induction false} LatestFolderIsFirstInListing(entries: seq<Entry>)
    ensures LatestFolder(entries).Some? ==>
              exists j :: IsLatestEntry(entries, j) && LatestFolder(entries).value == entries[j].name
    decreases |entries|
  {
    if entries != [] {
      var n := |entries| - 1;
      var init, e := entries[..n], entries[n];
      assert entries == init + [e];
      LatestFolderIsFirstInListing(init);
      if !e.isDir {
        if LatestFolder(init).Some? {
          var j :| IsLatestEntry(init, j) && LatestFolder(init).value == init[j].name;
          LatestStepSkip(init, e, j);
          assert entries[j] == init[j];
        } else {
          LatestStepSkip(init, e, 0);
        }
      } else if Folders(init) == [] || e.mtime > LatestTime(init) {
        LatestStepNew(init, e);
      } else {
        var j :| IsLatestEntry(init, j) && LatestFolder(init).value == init[j].name;
        LatestStepKeep(init, e, j);
        assert entries[j] == init[j];
      }
    }
  }

  /** The line that opens the section, compared after `strip()`. */
  const MARKER: string := "[Cloud_Data]"

  predicate IsMarker(line: string) {
    Trim(line, ASCII_SPACE) == MARKER
  }

  /** `start` is one past the first marker line. */
  predicate IsSectionStart(lines: seq<string>, start: int) {
    1 <= start <= |lines| && IsMarker(lines[start - 1]) &&
    forall j :: 0 <= j < start - 1 ==> !IsMarker(lines[j])
  }

  /** Where the section starts: one past the first marker line, if any. */
  function SectionStart(lines: seq<string>): (r: Option<nat>)
    ensures r.None? <==> forall i :: 0 <= i < |lines| ==> !IsMarker(lines[i])
    ensures r.Some? ==> IsSectionStart(lines, r.value)
    ensures forall s :: IsSectionStart(lines, s) ==> r == Some(s)
  {
    if |lines| == 0 then None
    else if IsMarker(lines[0]) then Some(1)
    else
      match SectionStart(lines[1..])
      case None => None
      case Some(s) =>
        assert forall j :: 0 <= j < s ==> lines[j + 1] == lines[1..][j];
        Some(s + 1)
  }

  /**
   * The search loop: walk the lines, and at the first marker record the index of
   * the next line and stop.
   */
  method FindSectionStart(lines: seq<string>) returns (start: Option<nat>)
    ensures start.None? <==> forall i :: 0 <= i < |lines| ==> !IsMarker(lines[i])
    ensures start.Some? ==> IsSectionStart(lines, start.value)
    ensures start == SectionStart(lines)
  {
    start := None;
    for i := 0 to |lines|
      invariant start.None?
      invariant forall j :: 0 <= j < i ==> !IsMarker(lines[j])
    {
      if IsMarker(lines[i]) {
        start := Some(i + 1);
        break;
      }
    }
  }

  /** Only the first marker opens the section: a later marker line is part of it. */
  lemma LaterMarkersIgnored(lines: seq<string>, start: nat, j: nat)
    requires IsSectionStart(lines, start) && start <= j < |lines|
    ensures !IsSectionStart(lines, j + 1)
  {
    assert IsMarker(lines[start - 1]);
  }

  /** The section as the script reads it: a header and the data rows. */
  datatype Section = Section(header: seq<string>, rows: seq<seq<string>>)

  /** The message Python gives for `cloud_data_lines[0]` on an empty list. */
  const INDEX_ERROR: string := "IndexError: list index out of range"

  /** A line the filter keeps: not empty once stripped. */
  predicate NonBlank(line: string) {
    Trim(line, ASCII_SPACE) != []
  }

  /** The positions of the non-blank lines, in increasing order. */
  ghost function NonBlankIndices(lines: seq<string>): (idx: seq<nat>)
    ensures forall i :: 0 <= i < |idx| ==> idx[i] < |lines| && NonBlank(lines[idx[i]])
    ensures forall i, j :: 0 <= i < j < |idx| ==> idx[i] < idx[j]
    ensures forall j :: 0 <= j < |lines| && NonBlank(lines[j]) ==> j in idx
  {
    if lines == [] then []
    else
      var n := |lines| - 1;
      var init := NonBlankIndices(lines[..n]);
      assert forall j :: 0 <= j < n ==> lines[..n][j] == lines[j];
      if NonBlank(lines[n]) then init + [n] else init
  }

  /** The lines after the blank-line filter, each stripped:
      `line.strip()` for every line with a non-empty `line.strip()`. The result is,
      in order, the stripped text of exactly the non-blank lines. */
  function StrippedNonBlank(lines: seq<string>): (r: seq<string>)
    ensures |r| <= |lines|
    ensures |r| == |NonBlankIndices(lines)|
    ensures forall i :: 0 <= i < |r| ==> r[i] == Trim(lines[NonBlankIndices(lines)[i]], ASCII_SPACE)
    ensures forall i :: 0 <= i < |r| ==> r[i] != []
  {
    if lines == [] then []
    else
      var n := |lines| - 1;
      var rest := StrippedNonBlank(lines[..n]);
      assert forall j :: 0 <= j < n ==> lines[..n][j] == lines[j];
      var t := Trim(lines[n], ASCII_SPACE);
      if t == [] then rest else rest + [t]
  }

  /** `[line.strip().split(',') for line in lines if line.strip()]`. */
  function DataRows(lines: seq<string>): (rows: seq<seq<string>>) {
    var kept := StrippedNonBlank(lines);
    seq(|kept|, i requires 0 <= i < |kept| => Split(kept[i], ','))
  }

  /**
   * Everything after the marker up to the end of the file: the first line split
   * into the header, the rest into data rows. With nothing after the marker the
   * script's `cloud_data_lines[0]` raises.
   */
  function ParseSection(lines: seq<string>, start: nat): (r: Result<Section, string>)
    requires start <= |lines|
    ensures r.Failure? <==> start == |lines|
    ensures r.Failure? ==> r.error == INDEX_ERROR
    ensures r.Success? ==> |r.value.header| >= 1 && Join(r.value.header, ',') == Trim(lines[start], ASCII_SPACE)
    ensures r.Success? ==> forall i :: 0 <= i < |r.value.header| ==> ',' !in r.value.header[i]
    ensures r.Success? ==> r.value.rows == DataRows(lines[start + 1..])
    ensures r.Success? ==> |r.value.rows| <= |lines| - start - 1
  {
    if start == |lines| then Failure(INDEX_ERROR)
    else
      JoinSplit(Trim(lines[start], ASCII_SPACE), ',');
      Success(Section(Split(Trim(lines[start], ASCII_SPACE), ','), DataRows(lines[start + 1..])))
  }

  /** Each data row joins back to its stripped line: no text is lost by splitting. */
  lemma DataRowsRoundTrip(lines: seq<string>, i: nat)
    requires i < |DataRows(lines)|
    ensures |DataRows(lines)[i]| >= 1
    ensures Join(DataRows(lines)[i], ',') == StrippedNonBlank(lines)[i]
  {
    JoinSplit(StrippedNonBlank(lines)[i], ',');
  }

  /** Rows keep the order of their lines: a further line adds one row at the end
      when it is not blank after stripping, and nothing when it is. */
  lemma DataRowsAppend(lines: seq<string>, line: string)
    ensures Trim(line, ASCII_SPACE) == [] ==> DataRows(lines + [line]) == DataRows(lines)
    ensures Trim(line, ASCII_SPACE) != [] ==>
              DataRows(lines + [line]) == DataRows(lines) + [Split(Trim(line, ASCII_SPACE), ',')]
  {
    assert (lines + [line])[..|lines|] == lines;
  }

  /** The positions of the non-blank lines, as a set. */
  function NonBlankSet(lines: seq<string>): set<nat> {
    set i | 0 <= i < |lines| && NonBlank(lines[i])
  }

  /** A further line adds its position to the non-blank set exactly when it is not blank. */
  lemma NonBlankSetSnoc(lines: seq<string>)
    requires lines != []
    ensures var n := |lines| - 1;
            NonBlankSet(lines) == NonBlankSet(lines[..n]) + (if NonBlank(lines[n]) then {n} else {})
  {
  }

  /** Blank lines are dropped: the number of rows is the number of non-blank lines. */
  lemma {:induction false} DataRowsCount(lines: seq<string>)
    ensures |DataRows(lines)| == |NonBlankSet(lines)|
  {
    if lines != [] {
      var n := |lines| - 1;
      DataRowsCount(lines[..n]);
      NonBlankSetSnoc(lines);
      assert n !in NonBlankSet(lines[..n]);
    } else {
      assert NonBlankSet(lines) == {};
    }
  }

  /** `set(data_line[1] for data_line in data_lines if len(data_line) > 1)`. */
  function UniqueProjects(rows: seq<seq<string>>): (projects: set<string>)
    ensures forall p :: p in projects <==> exists i :: 0 <= i < |rows| && |rows[i]| > 1 && rows[i][1] == p
  {
    set i | 0 <= i < |rows| && |rows[i]| > 1 :: rows[i][1]
  }

  /** A further row adds its column 1 when it has at least two fields, and nothing
      otherwise. */
  lemma UniqueProjectsAppend(rows: seq<seq<string>>, row: seq<string>)
    ensures UniqueProjects(rows + [row]) == UniqueProjects(rows) + (if |row| > 1 then {row[1]} else {})
  {
    var all := rows + [row];
    forall p | p in UniqueProjects(rows)
      ensures p in UniqueProjects(all)
    {
      var i :| 0 <= i < |rows| && |rows[i]| > 1 && rows[i][1] == p;
      assert all[i] == rows[i];
    }
    if |row| > 1 {
      assert all[|rows|] == row;
    }
  }

  /** There are never more projects than rows. */
  lemma {:induction false} UniqueProjectsBound(rows: seq<seq<string>>)
    ensures |UniqueProjects(rows)| <= |rows|
  {
    if rows != [] {
      var n := |rows| - 1;
      UniqueProjectsBound(rows[..n]);
      UniqueProjectsAppend(rows[..n], rows[n]);
      assert rows[..n] + [rows[n]] == rows;
    }
  }
}
