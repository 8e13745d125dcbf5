# Sample-sheet tools of a sequencing run, modelled in Dafny

This project models two small pipeline scripts that prepare an Illumina run for
analysis. It also proves what they promise.

- **The UMI patcher** is `patch-UMI-into-samplesheet.py`. `02a_patch-UMI-into-samplesheet.py`
  is an identical copy. The patcher copies the lines of a `SampleSheet.csv`. Right after the
  first line whose left-stripped text starts with `OverrideCycles`, it inserts the two setting
  lines `CreateFastqForIndexReads,1` and `TrimUMI,0`, each ending in a newline. If no such
  line exists, it exits with a fixed error message. The patcher is modelled in `patch_umi.dfy`:
  - `InsertAfterFirstAnchor` is the closed form: the lines before and including the anchor,
    then the inserted lines, then the rest.
  - `InsertTextAfterOverrideCycles` is the script's line loop. It is proved equal to that
    closed form.
- **The project splitter** is `01_split-into-project-folders.py`. It takes these steps:
  1. It chooses the latest run folder by modification time.
  2. It finds the `[Cloud_Data]` section of that run's sample sheet and parses the header and
     the data rows.
  3. It creates one directory per project named in column 1, with a copy of the sample sheet
     in each.
  4. If the run's `Data/fastq` directory exists, it copies each sample's read files into the
     sample's project directory.

  It is modelled in two files:
  - `sample_sheet.dfy` holds the folder choice, the section search and the parsing.
  - `fanout.dfy` holds the filesystem effects. It has a `FileSystem` class, whose directory
    set and file map the methods update. It also has a value-level specification `Fanout`,
    which the methods are proved against.

`strings.dfy` models the Python string operations the scripts use:
- `startswith`, `endswith` and `in`
- `strip` and `lstrip`, over an explicit whitespace set
- `split` and `join`

`wrappers.dfy` holds `Option` and `Result`.

The splitter runs under Python 2, so its `str.strip()` removes the six ASCII whitespace
characters only. The patcher reads the file as Unicode text, so its `lstrip()` removes every
character `str.isspace()` accepts. The two whitespace sets are `ASCII_SPACE` and
`UNICODE_SPACE`.

## Model

| member | source | states |
|---|---|---|
| PatchUmi.WithNewline | 02a_patch-UMI-into-samplesheet.py:100-101 | the appended text ends in a newline and starts with the fixed text; it is the text itself exactly when that already ends in a newline, otherwise one character longer |
| PatchUmi.WithNewlineIdempotent | patch-UMI-into-samplesheet.py:100-101 | normalising a fixed line twice gives the same line as normalising it once |
| PatchUmi.InsertedLinesTerminated | 02a_patch-UMI-into-samplesheet.py:65 | the appended lines are `CreateFastqForIndexReads,1\n` and `TrimUMI,0\n`, each with exactly one newline, at its end |
| PatchUmi.AnchorIff | 02a_patch-UMI-into-samplesheet.py:97 | a line is an anchor exactly when it is some whitespace followed by the prefix `OverrideCycles` |
| PatchUmi.AnchorAfterLeadingSpace | patch-UMI-into-samplesheet.py:97 | any whitespace before `OverrideCycles` is skipped, whatever text follows the prefix |
| PatchUmi.AnchorIsCaseSensitive | 02a_patch-UMI-into-samplesheet.py:97 | after whitespace, the lower-case and upper-case spellings are not anchors |
| PatchUmi.AnchorNotAfterOtherText | patch-UMI-into-samplesheet.py:97 | a line starting with a visible character other than `O` is not an anchor |
| PatchUmi.FirstAnchor | 02a_patch-UMI-into-samplesheet.py:94-104 | none is found exactly when no line is an anchor; otherwise the result is the unique index whose line is an anchor and is preceded by no anchor |
| PatchUmi.InsertAfterFirstAnchor | 02a_patch-UMI-into-samplesheet.py:90-109 | the not-found message exactly when no line is an anchor; otherwise the lines up to and including the first anchor, then the two inserted lines, then all later lines |
| PatchUmi.InsertTextAfterOverrideCycles | patch-UMI-into-samplesheet.py:90-109 | the line loop with its `inserted` flag and inner append loop returns exactly `InsertAfterFirstAnchor` of the lines, error included |
| PatchUmi.InsertionPreservesLines | 02a_patch-UMI-into-samplesheet.py:94-104 | on success the output has two more lines; lines up to the anchor keep their index, later lines move down by two, and the two new lines sit right after the anchor |
| PatchUmi.RemoveInsertedRoundTrip | patch-UMI-into-samplesheet.py:94-104 | deleting the two lines after the anchor from the output gives the input back |
| PatchUmi.InsertedOnce | 02a_patch-UMI-into-samplesheet.py:97 | the output's lines are the input's lines plus exactly one copy of the inserted pair, however many anchors there are |
| PatchUmi.LaterAnchorsCopiedVerbatim | patch-UMI-into-samplesheet.py:97 | an anchor after the first is copied unchanged and is followed by its own next line, not by inserted lines |
| PatchUmi.InsertedText | 02a_patch-UMI-into-samplesheet.py:99-102 | the inserted lines written out are the text `CreateFastqForIndexReads,1\nTrimUMI,0\n` |
| PatchUmi.WrittenText | 02a_patch-UMI-into-samplesheet.py:111-113 | the written text is the text through the anchor line, then the two settings, then the rest of the input text |
| PatchUmi.PatchSampleSheet | 02a_patch-UMI-into-samplesheet.py:81-88 | the output is written exactly when the input is a file, an existing output has `--force`, the read succeeds and an anchor exists; it is then the insertion result; a read error and the not-found case give their messages |
| Strings.ContainsIff | 01_split-into-project-folders.py:110 | the substring test `'_R1' in f` holds exactly when the pattern occurs at some position |
| Strings.TrimFixedPoint | 01_split-into-project-folders.py:72 | `strip()` leaves a string unchanged exactly when the string is empty or has no whitespace at either end |
| Strings.TrimLeftSkipsSpace | patch-UMI-into-samplesheet.py:97 | `lstrip()` of whitespace followed by a text equals `lstrip()` of that text |
| Strings.TrimLeftShape | 02a_patch-UMI-into-samplesheet.py:97 | `lstrip()` returns a suffix whose dropped prefix is all whitespace and whose first character is not whitespace |
| Strings.TrimRightShape | 01_split-into-project-folders.py:72 | right-stripping returns a prefix whose dropped suffix is all whitespace and whose last character is not whitespace |
| Strings.Split | 01_split-into-project-folders.py:81 | `split(',')` yields at least one piece, and no piece contains the separator |
| Strings.IndexOf | 01_split-into-project-folders.py:81 | the position of the first separator: it holds the separator and none occurs before it |
| Strings.JoinSplit | 01_split-into-project-folders.py:81 | joining the pieces of a split with the separator gives the string back |
| Strings.SplitJoin | 01_split-into-project-folders.py:82 | splitting the join of separator-free pieces gives the pieces back |
| Strings.IndexOfAfterPiece | 01_split-into-project-folders.py:82 | in a piece followed by the separator and more text, the first separator is the one right after the piece |
| Strings.SplitAfterPiece | 01_split-into-project-folders.py:82 | splitting a separator-free piece, the separator and more text yields the piece and then the pieces of the rest |
| Strings.ConcatAppend | 02a_patch-UMI-into-samplesheet.py:113 | writing two line lists one after the other writes the text of each, concatenated |
| SampleSheet.Folders | 01_split-into-project-folders.py:57 | the listing filtered to directories: an entry is kept exactly when it is listed and is a directory |
| SampleSheet.FoldersAppend | 01_split-into-project-folders.py:57 | the filter keeps listing order: a further entry is appended after the folders so far when it is a directory, and adds nothing otherwise |
| SampleSheet.LatestIndex | 01_split-into-project-folders.py:60 | `max` by time picks a folder whose time is the largest, and no earlier folder has that time |
| SampleSheet.LatestFolder | 01_split-into-project-folders.py:57-60 | no folder exactly when no entry is a directory; otherwise the name of a directory with the largest time, namely the unique first such folder in listing order |
| SampleSheet.LatestTimeBounds | 01_split-into-project-folders.py:60 | every directory of the listing is at most as recent as the chosen folder |
| SampleSheet.LatestEntryExtends | 01_split-into-project-folders.py:60 | a further entry that is no directory, or no newer, keeps the first latest directory of the listing |
| SampleSheet.LatestEntryNew | 01_split-into-project-folders.py:60 | a further directory strictly newer than all before it is the first latest directory |
| SampleSheet.LatestStepSkip | 01_split-into-project-folders.py:57-60 | a further entry that is not a directory changes neither the chosen folder nor the first latest directory |
| SampleSheet.LatestStepNew | 01_split-into-project-folders.py:57-60 | a further directory strictly newer than the folder chosen so far becomes the choice |
| SampleSheet.LatestStepKeep | 01_split-into-project-folders.py:57-60 | a further directory no newer than the folder chosen so far leaves the choice alone, so ties keep the earlier folder |
| SampleSheet.LatestFolderIsFirstInListing | 01_split-into-project-folders.py:57-60 | stated over the whole listing: the chosen folder is the first directory whose time is the largest among all directories |
| SampleSheet.SectionStart | 01_split-into-project-folders.py:70-74 | no start exactly when no line strips to `[Cloud_Data]`; otherwise one past the first such line, and that value is unique |
| SampleSheet.FindSectionStart | 01_split-into-project-folders.py:70-74 | the search loop with `break` returns exactly `SectionStart`: one past the first marker, or nothing |
| SampleSheet.LaterMarkersIgnored | 01_split-into-project-folders.py:72-74 | a marker line after the first one does not start the section |
| SampleSheet.NonBlankIndices | 01_split-into-project-folders.py:82 | the positions of the lines that are not blank after stripping, each once, in increasing order |
| SampleSheet.StrippedNonBlank | 01_split-into-project-folders.py:82 | the filter yields, in order, the stripped text of exactly the non-blank lines: one element per non-blank position, never an empty one |
| SampleSheet.ParseSection | 01_split-into-project-folders.py:78-82 | an `IndexError` exactly when nothing follows the marker; otherwise a non-empty header of comma-free fields that joins back to the stripped first line, and the rows are the data rows of the lines after it, no more than there are lines |
| SampleSheet.DataRowsRoundTrip | 01_split-into-project-folders.py:82 | each data row has a field and joins back to its stripped line |
| SampleSheet.DataRowsAppend | 01_split-into-project-folders.py:82 | a further line adds one row at the end when it is not blank after stripping, and nothing when it is |
| SampleSheet.NonBlankSetSnoc | 01_split-into-project-folders.py:82 | a further line adds its position to the non-blank positions exactly when it is not blank |
| SampleSheet.DataRowsCount | 01_split-into-project-folders.py:82 | the number of rows equals the number of lines that are not blank after stripping |
| SampleSheet.UniqueProjects | 01_split-into-project-folders.py:85 | a name is a project exactly when some row with at least two fields has it in column 1 |
| SampleSheet.UniqueProjectsAppend | 01_split-into-project-folders.py:85 | a further row adds its column 1 when it has at least two fields, and nothing otherwise |
| SampleSheet.UniqueProjectsBound | 01_split-into-project-folders.py:85 | there are never more projects than rows |
| ProjectFanout.FileSystem.constructor | 01_split-into-project-folders.py:88-94 | a working directory whose files all lie in its directories |
| ProjectFanout.FileSystem.MakeDirsIfAbsent | 01_split-into-project-folders.py:90-91 | directory creation adds the directory when absent, removes none and leaves the files alone |
| ProjectFanout.FileSystem.Copy | 01_split-into-project-folders.py:116 | a copy into an existing directory creates or overwrites that one file, and nothing else changes |
| ProjectFanout.ReadFileIff | 01_split-into-project-folders.py:110 | a name is a read file of a sample exactly when it starts with the sample id, contains `_R1` or `_R2` at some position, and ends with `.fastq.gz` |
| ProjectFanout.PrefixSamplesShareFiles | 01_split-into-project-folders.py:110 | a read file of a sample is also a read file of every sample id that is a prefix of it |
| ProjectFanout.ReadFileIsNotSampleSheet | 01_split-into-project-folders.py:110 | a read file never has the name `SampleSheet.csv` |
| ProjectFanout.ReadFileExamples | 01_split-into-project-folders.py:110 | `sampleA_R1_001.fastq.gz` and `sampleA_R2_001.fastq.gz` belong to `sampleA`; `sampleA_R1_001.txt` does not |
| ProjectFanout.ReadFilesFor | 01_split-into-project-folders.py:110 | a listed file is selected for a sample exactly when the read-file test holds |
| ProjectFanout.RowCopies | 01_split-into-project-folders.py:113-116 | a row makes one copy per selected file, in listing order, into the row's project; a copy is made exactly when its file is listed and passes the test |
| ProjectFanout.CopyPlan | 01_split-into-project-folders.py:105-116 | a copy is planned exactly when its file is listed and some row names its project and a sample the file belongs to |
| ProjectFanout.CopyPlanStep | 01_split-into-project-folders.py:105 | the plan for one more row is the plan so far followed by that row's copies |
| ProjectFanout.ApplyCopiesSnoc | 01_split-into-project-folders.py:116 | one more copy overwrites one more destination |
| ProjectFanout.ApplyCopiesAppend | 01_split-into-project-folders.py:105-116 | two batches of copies in turn equal the combined batch |
| ProjectFanout.ApplyCopiesOverlay | 01_split-into-project-folders.py:116 | copying overlays the old files with what the copies alone write |
| ProjectFanout.ApplyCopiesWrites | 01_split-into-project-folders.py:116 | the copies write exactly their destinations, each with the content of some copy to it |
| ProjectFanout.FirstShortRow | 01_split-into-project-folders.py:105-107 | every row before the result has two fields, and the result is a row with fewer fields or the end |
| ProjectFanout.FirstShortRowIs | 01_split-into-project-folders.py:107 | any index that has only long rows before it and is short itself (or the end) is the first short row |
| ProjectFanout.SheetCopies | 01_split-into-project-folders.py:94 | one `SampleSheet.csv` per project directory, each with the sheet's content |
| ProjectFanout.SheetCopiesAdd | 01_split-into-project-folders.py:88-94 | copying the sheet into one more project extends the sheet copies by exactly that file |
| ProjectFanout.PlanAvoidsSheets | 01_split-into-project-folders.py:110-116 | no read-file copy lands on a sample-sheet copy |
| ProjectFanout.FanoutOnlyAdds | 01_split-into-project-folders.py:88-116 | directory creation and copying never remove a directory or a file |
| ProjectFanout.FanoutProjectDirs | 01_split-into-project-folders.py:88-94 | every project gets a directory holding the sheet, and the new directories are exactly the new projects |
| ProjectFanout.PlanDestinations | 01_split-into-project-folders.py:105-116 | a file is written exactly where a row names the project and a listed file of that name belongs to the row's sample, with that file's content |
| ProjectFanout.FanoutReadFiles | 01_split-into-project-folders.py:104-121 | a new read file appears exactly when the fastq directory exists and a row before the first short row names its project and a sample it belongs to, so there are no copies without that directory |
| ProjectFanout.OverlayTwice | 01_split-into-project-folders.py:94 | overlaying the same two disjoint maps again changes nothing |
| ProjectFanout.FanoutIdempotent | 01_split-into-project-folders.py:88-121 | running the fan-out again on its own result changes nothing |
| ProjectFanout.CreateProjectDirectories | 01_split-into-project-folders.py:88-94 | the directory loop adds exactly the projects' directories and the sheet copies to the old state |
| ProjectFanout.CopyRowReadFiles | 01_split-into-project-folders.py:109-116 | one row's copy loop leaves the directories alone and applies exactly that row's copies |
| ProjectFanout.CopyReadFiles | 01_split-into-project-folders.py:105-116 | the row loop succeeds exactly when no row is short; the files are the old files with the plan of the rows before the first short row applied |
| ProjectFanout.OrganizeProjects | 01_split-into-project-folders.py:85-121 | the new state is `Fanout` of the old; the outcome is a missing fastq directory, an `IndexError` at a short row, or success |
| ProjectFanout.SplitIntoProjectFolders | 01_split-into-project-folders.py:70-123 | not-found exactly when no marker exists, and the state is then unchanged; a marker on the last line raises `IndexError` before any change; otherwise the state is `Fanout` of the parsed rows, and the run ends without a fastq directory, with `IndexError` at the first short row, or normally |
| ProjectFanout.SplitLatestRun | 01_split-into-project-folders.py:57-123 | an empty base directory or an unreadable sheet crashes before any change; otherwise the latest folder's sheet has every outcome and state of `SplitIntoProjectFolders`: not-found, `IndexError` at the header, missing fastq directory, `IndexError` at a short row, or success |

## Left out

- Logging, the `ContextFilter`, the log file handlers and `script_log.txt` are left out. So are the host and user lookups and `print` diagnostics. They do not affect the files produced.
- `argparse` is not modelled. Its effect is the three guards in `PatchSampleSheet`: input is a file, output exists, `--force`. Usage texts are not modelled beyond the messages.
- Python 2's `unicode(...)` branch for the fixed lines is not modelled. It yields the same text as the Python 3 list.
- The splitter's interactive start is not modelled: tab completion, `raw_input` and `chdir`. Its working directory is the `FileSystem` object passed in.
- Real file I/O is not modelled. The sheet's lines, the listing of `Data/fastq` and the base directory's entries are parameters. A failed read is a `Result` failure carrying its cause, or a missing `RunFolder` sheet.
- Write errors in the patcher are not modelled; the model ends with the output lines.
- Filesystem failures in the splitter are not modelled: `os.listdir('Analysis/')` on a missing directory, and `os.makedirs` or `shutil.copy` failing for lack of permission or space. Each aborts the run. `MakeDirsIfAbsent` and `Copy` always succeed, and the base directory's listing is a parameter.
- `os.path.join` semantics are not modelled, such as an absolute project name escaping the working directory. A project name is a directory of the working directory, and a file lives in a directory by name only.
- Name clashes between files and directories are not modelled, such as a project name that is an existing file.
- Modification times are integers, not floats. `max` ties still go to the first folder in listing order.
- `ProjectFanout.FileSystem.Copy`: the read-file copy writes the source file's content to the destination. File metadata that `shutil.copy` also copies (permission bits) is not modelled.
- `ProjectFanout.CreateProjectDirectories`: the loop takes projects in an arbitrary order, as Python's set iteration does. The resulting state does not depend on that order, and the `print` order is not modelled.
- `Strings.TrimLeftShape`: the whitespace set follows `str.isspace()` for the characters listed in `IsUnicodeSpace`. It is not generated from the Unicode database.
- `PatchUmi.WrittenText`: `readlines()` newline translation is not modelled. Lines are the exact strings read. When the anchor is an unterminated last line, the first inserted setting continues that line in the written text; the lemma states this text as it is.
