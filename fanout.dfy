/**
 * The project fan-out of `01_split-into-project-folders.py`: one directory per
 * project under the working directory, a copy of the sample sheet in each, and
 * every read file of a sample copied into its project's directory.
 *
 * The filesystem is abstracted to the directories under the working directory
 * and a map from (directory, file name) to file content.
 */
module ProjectFanout {
  import opened Wrappers
  import opened Strings
  import opened SampleSheet

  /** The name `shutil.copy(sample_sheet_path, project_dir)` gives the copy. */
  const SAMPLE_SHEET_NAME: string := "SampleSheet.csv"

  /** The extension every read file name must end with. */
  const READ_SUFFIX: string := ".fastq.gz"

  /** A file `name` inside the directory `dir` of the working directory. */
  datatype FilePath = FilePath(dir: string, name: string)

  /** A file of the run's `Data/fastq` directory. */
  datatype FastqFile = FastqFile(name: string, content: string)

  /** The working directory: the directories in it and the files in those. */
  class FileSystem {
    var dirs: set<string>
    var files: map<FilePath, string>

    /** Every file lies in an existing directory. */
    ghost predicate Valid()
      reads this
    {
      forall p :: p in files ==> p.dir in dirs
    }

    constructor (dirs0: set<string>, files0: map<FilePath, string>)
      requires forall p :: p in files0 ==> p.dir in dirs0
      ensures Valid() && dirs == dirs0 && files == files0
    {
      dirs, files := dirs0, files0;
    }

    /** `if not os.path.exists(d): os.makedirs(d)`: adds the directory, never removes. */
    method MakeDirsIfAbsent(dir: string)
      requires Valid()
      modifies this
      ensures Valid()
      ensures dirs == old(dirs) + {dir} && files == old(files)
    {
      if dir !in dirs {
        dirs := dirs + {dir};
      }
    }

    /** `shutil.copy`: the destination file is created or overwritten. */
    method Copy(content: string, dst: FilePath)
      requires Valid() && dst.dir in dirs
      modifies this
      ensures Valid()
      ensures dirs == old(dirs) && files == old(files)[dst := content]
    {
      files := files[dst := content];
    }
  }

  /** The read-file test: the name starts with the sample id, contains `_R1` or
      `_R2` somewhere, and ends with `.fastq.gz`. */
  predicate IsReadFileFor(sample: string, name: string) {
    StartsWith(name, sample) && (Contains(name, "_R1") || Contains(name, "_R2")) && EndsWith(name, READ_SUFFIX)
  }

  /** The read-file test in positional terms. */
  lemma ReadFileIff(sample: string, name: string)
    ensures IsReadFileFor(sample, name) <==>
              StartsWith(name, sample) && EndsWith(name, READ_SUFFIX) &&
              exists i :: OccursAt(name, "_R1", i) || OccursAt(name, "_R2", i)
  {
    ContainsIff(name, "_R1");
    ContainsIff(name, "_R2");
  }

  /** Matching is by prefix: a file of a sample is also a file of every sample id
      that is a prefix of it, so such samples share files. */
  lemma PrefixSamplesShareFiles(short: string, long: string, name: string)
    requires StartsWith(long, short) && IsReadFileFor(long, name)
    ensures IsReadFileFor(short, name)
  {
    assert name[..|long|][..|short|] == name[..|short|];
  }

  /** A read file never has the sample sheet's name. */
  lemma ReadFileIsNotSampleSheet(name: string)
    requires EndsWith(name, READ_SUFFIX)
    ensures name != SAMPLE_SHEET_NAME
  {
  }

  /** Both reads of a sample are selected; a name with another extension is not. */
  lemma ReadFileExamples()
    ensures IsReadFileFor("sampleA", "sampleA_R1_001.fastq.gz")
    ensures IsReadFileFor("sampleA", "sampleA_R2_001.fastq.gz")
    ensures !IsReadFileFor("sampleA", "sampleA_R1_001.txt")
  {
    var r1, r2 := "sampleA_R1_001.fastq.gz", "sampleA_R2_001.fastq.gz";
    assert r1[..7] == "sampleA" && r2[..7] == "sampleA";
    assert r1[14..] == READ_SUFFIX && r2[14..] == READ_SUFFIX;
    assert OccursAt(r1, "_R1", 7) && OccursAt(r2, "_R2", 7);
    ContainsIff(r1, "_R1");
    ContainsIff(r2, "_R2");
    var txt := "sampleA_R1_001.txt";
    assert txt[|txt| - 1] == 't' && READ_SUFFIX[|READ_SUFFIX| - 1] == 'z';
    assert txt[|txt| - |READ_SUFFIX|..][|READ_SUFFIX| - 1] == txt[|txt| - 1];
  }

  /** The listing comprehension: the read files of `sample`, in listing order. */
  function ReadFilesFor(sample: string, listing: seq<FastqFile>): (r: seq<FastqFile>)
    ensures |r| <= |listing|
    ensures forall f :: f in r <==> f in listing && IsReadFileFor(sample, f.name)
  {
    if listing == [] then []
    else
      (if IsReadFileFor(sample, listing[0].name) then [listing[0]] else []) + ReadFilesFor(sample, listing[1..])
  }

  /** One `shutil.copy` of a read file into a project directory, name kept. */
  datatype Copy = Copy(src: FastqFile, project: string) {
    function Dest(): FilePath {
      FilePath(project, src.name)
    }
  }

  /** Every row has a sample and a project field. */
  predicate AllLong(rows: seq<seq<string>>) {
    forall i :: 0 <= i < |rows| ==> |rows[i]| >= 2
  }

  /** The copies made for one row: each of its sample's read files, in listing
      order, to its project. */
  function RowCopies(row: seq<string>, listing: seq<FastqFile>): (r: seq<Copy>)
    requires |row| >= 2
    ensures |r| == |ReadFilesFor(row[0], listing)|
    ensures forall k :: 0 <= k < |r| ==> r[k] == Copy(ReadFilesFor(row[0], listing)[k], row[1])
    ensures forall c :: c in r <==> c.src in listing && c.project == row[1] && IsReadFileFor(row[0], c.src.name)
  {
    var matches := ReadFilesFor(row[0], listing);
    var r := seq(|matches|, k requires 0 <= k < |matches| => Copy(matches[k], row[1]));
    assert forall c: Copy :: c.src in listing && c.project == row[1] && IsReadFileFor(row[0], c.src.name) ==> c in r by {
      forall c: Copy | c.src in listing && c.project == row[1] && IsReadFileFor(row[0], c.src.name)
        ensures c in r
      {
        var k :| 0 <= k < |matches| && matches[k] == c.src;
        assert r[k] == c;
      }
    }
    r
  }

  /** All copies the loop makes, in order: for each row, its read files. */
  function CopyPlan(rows: seq<seq<string>>, listing: seq<FastqFile>): (plan: seq<Copy>)
    requires AllLong(rows)
    ensures forall c :: c in plan <==>
              c.src in listing && exists i :: 0 <= i < |rows| && c.project == rows[i][1] && IsReadFileFor(rows[i][0], c.src.name)
  {
    if rows == [] then []
    else
      var n := |rows| - 1;
      var init := CopyPlan(rows[..n], listing);
      var last := RowCopies(rows[n], listing);
      assert forall i :: 0 <= i < n ==> rows[..n][i] == rows[i];
      init + last
  }

  /** The plan for one more row is the plan so far followed by that row's copies. */
  lemma CopyPlanStep(rows: seq<seq<string>>, i: nat, listing: seq<FastqFile>)
    requires i < |rows| && AllLong(rows[..i]) && |rows[i]| >= 2
    ensures AllLong(rows[..i + 1])
    ensures CopyPlan(rows[..i + 1], listing) == CopyPlan(rows[..i], listing) + RowCopies(rows[i], listing)
  {
    assert rows[..i + 1][..i] == rows[..i];
    assert forall k :: 0 <= k < i ==> rows[..i][k] == rows[..i + 1][k];
  }

  /** The file map after the copies of `plan`, one after another. */
  function ApplyCopies(files: map<FilePath, string>, plan: seq<Copy>): map<FilePath, string> {
    if plan == [] then files
    else
      var c := plan[|plan| - 1];
      ApplyCopies(files, plan[..|plan| - 1])[c.Dest() := c.src.content]
  }

  /** One more copy overwrites one more destination. */
  lemma ApplyCopiesSnoc(files: map<FilePath, string>, plan: seq<Copy>, c: Copy)
    ensures ApplyCopies(files, plan + [c]) == ApplyCopies(files, plan)[c.Dest() := c.src.content]
  {
    assert (plan + [c])[..|plan|] == plan;
  }

  /** Copies in sequence: the second batch applies to the result of the first. */
  lemma {:induction false} ApplyCopiesAppend(files: map<FilePath, string>, first: seq<Copy>, second: seq<Copy>)
    ensures ApplyCopies(files, first + second) == ApplyCopies(ApplyCopies(files, first), second)
    decreases |second|
  {
    if second == [] {
      assert first + second == first;
    } else {
      var n := |second| - 1;
      ApplyCopiesAppend(files, first, second[..n]);
      assert first + second == (first + second[..n]) + [second[n]];
      assert second == second[..n] + [second[n]];
      ApplyCopiesSnoc(files, first + second[..n], second[n]);
      ApplyCopiesSnoc(ApplyCopies(files, first), second[..n], second[n]);
    }
  }

  /** Copying overwrites: the result is the old files overlaid with what the copies
      alone would write. */
  lemma {:induction false} ApplyCopiesOverlay(files: map<FilePath, string>, plan: seq<Copy>)
    ensures ApplyCopies(files, plan) == files + ApplyCopies(map[], plan)
  {
    if plan != [] {
      ApplyCopiesOverlay(files, plan[..|plan| - 1]);
    }
  }

  /** The copies write exactly their destinations, each with the content of some
      copy to it. */
  lemma {:induction false} ApplyCopiesWrites(plan: seq<Copy>)
    ensures ApplyCopies(map[], plan).Keys == set c | c in plan :: c.Dest()
    ensures forall d :: d in ApplyCopies(map[], plan) ==>
              exists c :: c in plan && c.Dest() == d && ApplyCopies(map[], plan)[d] == c.src.content
  {
    if plan != [] {
      var init := plan[..|plan| - 1];
      ApplyCopiesWrites(init);
      assert plan == init + [plan[|plan| - 1]];
    }
  }

  /** Index of the first row with fewer than two fields, or the number of rows. */
  function FirstShortRow(rows: seq<seq<string>>): (k: nat)
    ensures k <= |rows| && AllLong(rows[..k])
    ensures k < |rows| ==> |rows[k]| < 2
  {
    if rows == [] || |rows[0]| < 2 then 0
    else
      var k := FirstShortRow(rows[1..]);
      k + 1
  }

  /** The first short row is the only index with all rows before it long and
      itself short (or past the end). */
  lemma FirstShortRowIs(rows: seq<seq<string>>, i: nat)
    requires i <= |rows| && AllLong(rows[..i]) && (i < |rows| ==> |rows[i]| < 2)
    ensures FirstShortRow(rows) == i
  {
  }

  /** The sample-sheet copies: one per project, all with the sheet's content. */
  function SheetCopies(projects: set<string>, sheet: string): (m: map<FilePath, string>)
    ensures forall p :: p in m <==> p.dir in projects && p.name == SAMPLE_SHEET_NAME
    ensures forall p :: p in m ==> m[p] == sheet
  {
    map p | p in projects :: FilePath(p, SAMPLE_SHEET_NAME) := sheet
  }

  /** Copying the sheet into one more project extends the sheet copies by that one file. */
  lemma SheetCopiesAdd(base: map<FilePath, string>, done: set<string>, project: string, sheet: string)
    ensures (base + SheetCopies(done, sheet))[FilePath(project, SAMPLE_SHEET_NAME) := sheet] ==
            base + SheetCopies(done + {project}, sheet)
  {
    var lhs := (base + SheetCopies(done, sheet))[FilePath(project, SAMPLE_SHEET_NAME) := sheet];
    var rhs := base + SheetCopies(done + {project}, sheet);
    assert lhs.Keys == rhs.Keys;
    assert forall p :: p in lhs ==> lhs[p] == rhs[p];
  }

  /** The working directory as a value. */
  datatype FsState = FsState(dirs: set<string>, files: map<FilePath, string>)

  /**
   * The state after the fan-out: the project directories added, the sheet copied
   * into each, and, when the fastq directory exists, the read files of every row
   * copied up to the first row too short to name a project, where the script stops.
   */
  function Fanout(s: FsState, sheet: string, rows: seq<seq<string>>, fastq: Option<seq<FastqFile>>): FsState {
    var projects := UniqueProjects(rows);
    var withSheets := s.files + SheetCopies(projects, sheet);
    FsState(s.dirs + projects,
            if fastq.None? then withSheets
            else ApplyCopies(withSheets, CopyPlan(rows[..FirstShortRow(rows)], fastq.value)))
  }

  /** No read-file copy lands on a sample-sheet copy. */
  lemma PlanAvoidsSheets(rows: seq<seq<string>>, listing: seq<FastqFile>, c: Copy)
    requires AllLong(rows) && c in CopyPlan(rows, listing)
    ensures c.src.name != SAMPLE_SHEET_NAME
  {
    var i :| 0 <= i < |rows| && c.project == rows[i][1] && IsReadFileFor(rows[i][0], c.src.name);
    ReadFileIsNotSampleSheet(c.src.name);
  }

  /** Directory creation and copying only add: no directory and no file disappears. */
  lemma FanoutOnlyAdds(s: FsState, sheet: string, rows: seq<seq<string>>, fastq: Option<seq<FastqFile>>)
    ensures var t := Fanout(s, sheet, rows, fastq);
            s.dirs <= t.dirs && s.files.Keys <= t.files.Keys
  {
    var k := FirstShortRow(rows);
    if fastq.Some? {
      ApplyCopiesOverlay(s.files + SheetCopies(UniqueProjects(rows), sheet), CopyPlan(rows[..k], fastq.value));
    }
  }

  /** Every project gets a directory holding the sample sheet, and the directories
      added are exactly the projects. */
  lemma {:induction false} FanoutProjectDirs(s: FsState, sheet: string, rows: seq<seq<string>>, fastq: Option<seq<FastqFile>>)
    ensures var t := Fanout(s, sheet, rows, fastq);
            t.dirs - s.dirs == UniqueProjects(rows) - s.dirs &&
            forall p :: p in UniqueProjects(rows) ==>
              p in t.dirs && FilePath(p, SAMPLE_SHEET_NAME) in t.files && t.files[FilePath(p, SAMPLE_SHEET_NAME)] == sheet
  {
    var k := FirstShortRow(rows);
    if fastq.Some? {
      var plan := CopyPlan(rows[..k], fastq.value);
      var withSheets := s.files + SheetCopies(UniqueProjects(rows), sheet);
      ApplyCopiesOverlay(withSheets, plan);
      ApplyCopiesWrites(plan);
    }
  }

  /** The copies of a plan write a file exactly where some row names the project
      and a listed file of that name belongs to the row's sample; the content is
      that of a listed file of that name. */
  lemma PlanDestinations(rows: seq<seq<string>>, listing: seq<FastqFile>, d: FilePath)
    requires AllLong(rows)
    ensures var written := ApplyCopies(map[], CopyPlan(rows, listing));
            d in written <==>
              exists i, f :: 0 <= i < |rows| && f in listing && f.name == d.name &&
                             d.dir == rows[i][1] && IsReadFileFor(rows[i][0], d.name)
    ensures var written := ApplyCopies(map[], CopyPlan(rows, listing));
            d in written ==> exists f :: f in listing && f.name == d.name && written[d] == f.content
  {
    var plan := CopyPlan(rows, listing);
    ApplyCopiesWrites(plan);
    if exists i, f :: 0 <= i < |rows| && f in listing && f.name == d.name &&
                      d.dir == rows[i][1] && IsReadFileFor(rows[i][0], d.name) {
      var i, f :| 0 <= i < |rows| && f in listing && f.name == d.name &&
                  d.dir == rows[i][1] && IsReadFileFor(rows[i][0], d.name);
      assert Copy(f, d.dir) in plan;
      assert Copy(f, d.dir).Dest() == d;
    }
  }

  /**
   * A read file arrives in a project directory exactly when the fastq directory
   * exists and a row before the first short row names that project and a sample
   * the file belongs to.
   */
  lemma FanoutReadFiles(s: FsState, sheet: string, rows: seq<seq<string>>, fastq: Option<seq<FastqFile>>, d: FilePath)
    requires d !in s.files && d.name != SAMPLE_SHEET_NAME
    ensures var done := rows[..FirstShortRow(rows)];
            d in Fanout(s, sheet, rows, fastq).files <==>
              fastq.Some? &&
              exists i, f :: 0 <= i < |done| && f in fastq.value && f.name == d.name &&
                             d.dir == done[i][1] && IsReadFileFor(done[i][0], d.name)
  {
    var base := s.files + SheetCopies(UniqueProjects(rows), sheet);
    assert d !in base;
    if fastq.Some? {
      var done := rows[..FirstShortRow(rows)];
      var plan := CopyPlan(done, fastq.value);
      var written := ApplyCopies(map[], plan);
      ApplyCopiesOverlay(base, plan);
      assert Fanout(s, sheet, rows, fastq).files == base + written;
      assert d in Fanout(s, sheet, rows, fastq).files <==> d in written;
      PlanDestinations(done, fastq.value, d);
    } else {
      assert Fanout(s, sheet, rows, fastq).files == base;
    }
  }

  /** Overlaying the same two disjoint maps again changes nothing. */
  lemma OverlayTwice(a: map<FilePath, string>, b: map<FilePath, string>, c: map<FilePath, string>)
    requires b.Keys !! c.Keys
    ensures a + b + c + b + c == a + b + c
  {
  }

  /** Running the fan-out a second time on its own result changes nothing. */
  lemma FanoutIdempotent(s: FsState, sheet: string, rows: seq<seq<string>>, fastq: Option<seq<FastqFile>>)
    ensures Fanout(Fanout(s, sheet, rows, fastq), sheet, rows, fastq) == Fanout(s, sheet, rows, fastq)
  {
    var projects := UniqueProjects(rows);
    var sheets := SheetCopies(projects, sheet);
    var t := Fanout(s, sheet, rows, fastq);
    assert t.dirs + projects == t.dirs;
    if fastq.Some? {
      var k := FirstShortRow(rows);
      var plan := CopyPlan(rows[..k], fastq.value);
      var q := ApplyCopies(map[], plan);
      ApplyCopiesOverlay(s.files + sheets, plan);
      ApplyCopiesOverlay(t.files + sheets, plan);
      ApplyCopiesWrites(plan);
      assert sheets.Keys !! q.Keys by {
        forall d | d in q
          ensures d !in sheets
        {
          var c :| c in plan && c.Dest() == d && q[d] == c.src.content;
          PlanAvoidsSheets(rows[..k], fastq.value, c);
        }
      }
      OverlayTwice(s.files, sheets, q);
    } else {
      OverlayTwice(s.files, sheets, map[]);
      assert s.files + sheets + map[] == s.files + sheets;
    }
  }

  /**
   * The directory loop: for each project (in any order), create its directory if absent
   * and copy the sample sheet into it.
   */
  method CreateProjectDirectories(fs: FileSystem, projects: set<string>, sheet: string)
    requires fs.Valid()
    modifies fs
    ensures fs.Valid()
    ensures fs.dirs == old(fs.dirs) + projects
    ensures fs.files == old(fs.files) + SheetCopies(projects, sheet)
  {
    var remaining := projects;
    ghost var done: set<string> := {};
    while remaining != {}
      invariant fs.Valid() && done == projects - remaining && remaining <= projects
      invariant fs.dirs == old(fs.dirs) + done
      invariant fs.files == old(fs.files) + SheetCopies(done, sheet)
      decreases remaining
    {
      var project :| project in remaining;
      fs.MakeDirsIfAbsent(project);
      fs.Copy(sheet, FilePath(project, SAMPLE_SHEET_NAME));
      SheetCopiesAdd(old(fs.files), done, project, sheet);
      done := done + {project};
      remaining := remaining - {project};
    }
  }

  /**
   * The copy loop for one row: list the read files of the row's sample and copy
   * each, name kept, into the row's project directory.
   */
  method CopyRowReadFiles(fs: FileSystem, row: seq<string>, listing: seq<FastqFile>)
    requires fs.Valid() && |row| >= 2 && row[1] in fs.dirs
    modifies fs
    ensures fs.Valid() && fs.dirs == old(fs.dirs)
    ensures fs.files == ApplyCopies(old(fs.files), RowCopies(row, listing))
  {
    var sample, project := row[0], row[1];
    var matches := ReadFilesFor(sample, listing);
    ghost var copies := RowCopies(row, listing);
    assert |copies| == |matches|;
    for j := 0 to |matches|
      invariant fs.Valid() && fs.dirs == old(fs.dirs)
      invariant fs.files == ApplyCopies(old(fs.files), copies[..j])
    {
      ghost var before := fs.files;
      assert copies[j] == Copy(matches[j], project);
      fs.Copy(matches[j].content, FilePath(project, matches[j].name));
      assert fs.files == before[copies[j].Dest() := copies[j].src.content];
      ApplyCopiesSnoc(old(fs.files), copies[..j], copies[j]);
      assert copies[..j + 1] == copies[..j] + [copies[j]];
    }
    assert copies[..|matches|] == copies;
  }

  /**
   * The row loop: for each row, copy every read file of its sample into its
   * project's directory. A row with fewer than two fields stops the loop with an
   * `IndexError`, after the copies of the rows before it.
   */
  method CopyReadFiles(fs: FileSystem, rows: seq<seq<string>>, listing: seq<FastqFile>) returns (ok: bool)
    requires fs.Valid() && UniqueProjects(rows) <= fs.dirs
    modifies fs
    ensures fs.Valid() && fs.dirs == old(fs.dirs)
    ensures ok <==> FirstShortRow(rows) == |rows|
    ensures fs.files == ApplyCopies(old(fs.files), CopyPlan(rows[..FirstShortRow(rows)], listing))
  {
    for i := 0 to |rows|
      invariant fs.Valid() && fs.dirs == old(fs.dirs)
      invariant AllLong(rows[..i])
      invariant fs.files == ApplyCopies(old(fs.files), CopyPlan(rows[..i], listing))
    {
      var row := rows[i];
      if |row| < 2 {
        FirstShortRowIs(rows, i);
        return false;
      }
      assert row[1] in UniqueProjects(rows);
      CopyPlanStep(rows, i, listing);
      ghost var plan := CopyPlan(rows[..i], listing);
      CopyRowReadFiles(fs, row, listing);
      ApplyCopiesAppend(old(fs.files), plan, RowCopies(row, listing));
    }
    assert rows[..|rows|] == rows;
    FirstShortRowIs(rows, |rows|);
    ok := true;
  }

  /** How the script ends. */
  datatype Outcome =
    | SectionNotFound      // "The [Cloud_Data] section was not found ..." printed
    | FastqDirMissing      // "The directory ... does not exist." printed
    | Organized            // every row's read files copied
    | Crashed(error: string)  // an uncaught Python exception

  /**
   * The work done once the section is parsed: create the project directories with
   * their sheet copies, then copy read files if the fastq directory exists.
   */
  method OrganizeProjects(fs: FileSystem, rows: seq<seq<string>>, sheet: string, fastq: Option<seq<FastqFile>>)
    returns (outcome: Outcome)
    requires fs.Valid()
    modifies fs
    ensures fs.Valid()
    ensures FsState(fs.dirs, fs.files) == Fanout(FsState(old(fs.dirs), old(fs.files)), sheet, rows, fastq)
    ensures outcome == if fastq.None? then FastqDirMissing
                       else if FirstShortRow(rows) < |rows| then Crashed(INDEX_ERROR)
                       else Organized
  {
    var projects := UniqueProjects(rows);
    CreateProjectDirectories(fs, projects, sheet);
    if fastq.None? {
      return FastqDirMissing;
    }
    var ok := CopyReadFiles(fs, rows, fastq.value);
    outcome := if ok then Organized else Crashed(INDEX_ERROR);
  }

  /**
   * How splitting a sheet's lines ends, with the working directory before and
   * after: no marker prints a message and changes nothing; a marker on the last
   * line raises `IndexError` at the header before any change; otherwise the
   * fan-out of the parsed rows happens, and the run ends without a fastq
   * directory, with `IndexError` at the first short row, or normally.
   */
  ghost predicate SplitResult(lines: seq<string>, fastq: Option<seq<FastqFile>>,
                              before: FsState, after: FsState, outcome: Outcome)
  {
    var start := SectionStart(lines);
    (outcome == SectionNotFound <==> start.None?) &&
    (start.None? ==> after == before) &&
    (start == Some(|lines|) ==> outcome == Crashed(INDEX_ERROR) && after == before) &&
    (start.Some? && start.value < |lines| ==>
       var rows := DataRows(lines[start.value + 1..]);
       after == Fanout(before, Concat(lines), rows, fastq) &&
       outcome == if fastq.None? then FastqDirMissing
                  else if FirstShortRow(rows) < |rows| then Crashed(INDEX_ERROR)
                  else Organized)
  }

  /**
   * The script body after the sheet is read: find the section, parse it, and
   * organize the projects.
   */
  method SplitIntoProjectFolders(fs: FileSystem, lines: seq<string>, fastq: Option<seq<FastqFile>>)
    returns (outcome: Outcome)
    requires fs.Valid()
    modifies fs
    ensures fs.Valid()
    ensures SplitResult(lines, fastq, FsState(old(fs.dirs), old(fs.files)), FsState(fs.dirs, fs.files), outcome)
  {
    var start := FindSectionStart(lines);
    if start.None? {
      return SectionNotFound;
    }
    var parsed := ParseSection(lines, start.value);
    if parsed.Failure? {
      return Crashed(parsed.error);
    }
    outcome := OrganizeProjects(fs, parsed.value.rows, Concat(lines), fastq);
  }

  /** What a run folder of the base directory holds: the sheet's lines if it can be
      read, and the fastq directory's files if it exists. */
  datatype RunFolder = RunFolder(sheet: Option<seq<string>>, fastq: Option<seq<FastqFile>>)

  /**
   * The whole script: choose the latest run folder, read its sample sheet, and
   * split it into project folders. An empty base directory makes `max` raise, and
   * an unreadable sheet makes `open` raise, both before anything is created.
   */
  method SplitLatestRun(fs: FileSystem, entries: seq<Entry>, runs: map<string, RunFolder>)
    returns (outcome: Outcome)
    requires fs.Valid()
    modifies fs
    ensures fs.Valid()
    ensures LatestFolder(entries).None? ==>
              outcome == Crashed("ValueError: max() arg is an empty sequence") && fs.dirs == old(fs.dirs) && fs.files == old(fs.files)
    ensures LatestFolder(entries).Some? && (LatestFolder(entries).value !in runs || runs[LatestFolder(entries).value].sheet.None?) ==>
              outcome == Crashed("IOError: No such file or directory") && fs.dirs == old(fs.dirs) && fs.files == old(fs.files)
    ensures LatestFolder(entries).Some? && LatestFolder(entries).value in runs &&
            runs[LatestFolder(entries).value].sheet.Some? ==>
              var run := runs[LatestFolder(entries).value];
              SplitResult(run.sheet.value, run.fastq, FsState(old(fs.dirs), old(fs.files)), FsState(fs.dirs, fs.files), outcome)
  {
    var latest := LatestFolder(entries);
    if latest.None? {
      return Crashed("ValueError: max() arg is an empty sequence");
    }
    if latest.value !in runs || runs[latest.value].sheet.None? {
      return Crashed("IOError: No such file or directory");
    }
    var run := runs[latest.value];
    outcome := SplitIntoProjectFolders(fs, run.sheet.value, run.fastq);
  }
}
