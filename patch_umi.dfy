/**
 * The anchored line inserter of `patch-UMI-into-samplesheet.py` (and its
 * byte-identical copy `02a_patch-UMI-into-samplesheet.py`): copy the lines of
 * a sample sheet and, right after the first line whose left-stripped text
 * starts with `OverrideCycles`, add two fixed setting lines.
 */
module PatchUmi {
  import opened Wrappers
  import opened Strings

  /** The case-sensitive prefix that marks the anchor line. */
  const ANCHOR: string := "OverrideCycles"

  /** The setting lines to insert, as the script declares them (no newline). */
  const FIXED_INSERT_LINES: seq<string> := ["CreateFastqForIndexReads,1", "TrimUMI,0"]

  /** The message the script exits with when no anchor line exists. */
  const NOT_FOUND_MESSAGE: string :=
    "Error: No line starting with 'OverrideCycles' found in the input file."

  /** A fixed line as it is appended: a newline is added unless it already ends in one. */
  function WithNewline(text: string): (r: string)
    ensures EndsWith(r, "\n")
    ensures StartsWith(r, text) && |r| <= |text| + 1
    ensures EndsWith(text, "\n") <==> r == text
  {
    if EndsWith(text, "\n") then text else text + "\n"
  }

  /** The lines actually appended after the anchor. */
  const INSERTED_LINES: seq<string> :=
    [WithNewline(FIXED_INSERT_LINES[0]), WithNewline(FIXED_INSERT_LINES[1])]

  /** The anchor test: leading whitespace dropped, then a case-sensitive prefix test. */
  predicate IsAnchor(line: string) {
    StartsWith(TrimLeft(line, UNICODE_SPACE), ANCHOR)
  }

  /** `line` is some whitespace (the first `n` characters) followed by the anchor prefix. */
  predicate AnchorAfterSpace(line: string, n: int) {
    0 <= n <= |line| && AllIn(line[..n], UNICODE_SPACE) && StartsWith(line[n..], ANCHOR)
  }

  /** Only leading whitespace is ignored: a line is an anchor exactly when it is
      whitespace followed by `OverrideCycles`. */
  lemma AnchorIff(line: string)
    ensures IsAnchor(line) <==> exists n :: AnchorAfterSpace(line, n)
  {
    var t := TrimLeft(line, UNICODE_SPACE);
    TrimLeftShape(line, UNICODE_SPACE);
    var n0 := |line| - |t|;
    if IsAnchor(line) {
      assert line[n0..] == t;
      assert AnchorAfterSpace(line, n0);
    }
    if exists n :: AnchorAfterSpace(line, n) {
      var n :| AnchorAfterSpace(line, n);
      assert line == line[..n] + line[n..];
      TrimLeftSkipsSpace(line[..n], line[n..], UNICODE_SPACE);
      assert line[n..][0] == 'O';
      assert TrimLeft(line[n..], UNICODE_SPACE) == line[n..];
    }
  }

  /** No line of `lines` is an anchor. */
  predicate NoAnchor(lines: seq<string>) {
    forall i :: 0 <= i < |lines| ==> !IsAnchor(lines[i])
  }

  /** `k` is the index of the first anchor line. */
  predicate IsFirstAnchor(lines: seq<string>, k: int) {
    0 <= k < |lines| && IsAnchor(lines[k]) && NoAnchor(lines[..k])
  }

  /** The index of the first anchor line, if any. */
  function FirstAnchor(lines: seq<string>): (r: Option<nat>)
    ensures r.None? <==> NoAnchor(lines)
    ensures r.Some? ==> IsFirstAnchor(lines, r.value)
    ensures forall k :: IsFirstAnchor(lines, k) ==> r == Some(k)
  {
    if |lines| == 0 then None
    else if IsAnchor(lines[0]) then Some(0)
    else
      match FirstAnchor(lines[1..])
      case None =>
        assert forall i :: 1 <= i < |lines| ==> lines[i] == lines[1..][i - 1];
        None
      case Some(k) =>
        assert lines[1..][..k] == lines[1..k + 1];
        assert lines[..k + 1] == [lines[0]] + lines[1..k + 1];
        assert forall m :: IsFirstAnchor(lines, m) ==> m >= 1 && IsFirstAnchor(lines[1..], m - 1) by {
          forall m | IsFirstAnchor(lines, m)
            ensures m >= 1 && IsFirstAnchor(lines[1..], m - 1)
          {
            assert m != 0;
            assert lines[1..][..m - 1] == lines[..m][1..];
          }
        }
        Some(k + 1)
  }

  /** What the insertion produces: the lines with the inserted lines spliced in
      after the first anchor, or the not-found error. */
  function InsertAfterFirstAnchor(lines: seq<string>): (r: Result<seq<string>, string>)
    ensures r.Failure? <==> NoAnchor(lines)
    ensures r.Failure? ==> r.error == NOT_FOUND_MESSAGE
    ensures forall k :: IsFirstAnchor(lines, k) ==>
              r == Success(lines[..k + 1] + INSERTED_LINES + lines[k + 1..])
  {
    match FirstAnchor(lines)
    case None =>
      assert forall m :: !IsFirstAnchor(lines, m);
      Failure(NOT_FOUND_MESSAGE)
    case Some(k) =>
      assert forall m :: IsFirstAnchor(lines, m) ==> m == k;
      Success(lines[..k + 1] + INSERTED_LINES + lines[k + 1..])
  }

  /**
   * The script's line loop: copy each line, and after the first anchor append
   * each fixed line (newline-terminated); fail if no anchor was seen.
   */
  method InsertTextAfterOverrideCycles(lines: seq<string>) returns (r: Result<seq<string>, string>)
    ensures r == InsertAfterFirstAnchor(lines)
  {
    var output: seq<string> := [];
    var inserted := false;
    ghost var k := 0;
    for i := 0 to |lines|
      invariant !inserted ==> NoAnchor(lines[..i]) && output == lines[..i]
      invariant inserted ==> k < i && IsFirstAnchor(lines, k) &&
                             output == lines[..k + 1] + INSERTED_LINES + lines[k + 1..i]
    {
      var line := lines[i];
      output := output + [line];
      assert lines[..i + 1] == lines[..i] + [line];
      if inserted {
        assert lines[k + 1..i + 1] == lines[k + 1..i] + [line];
      }
      if !inserted && IsAnchor(line) {
        for j := 0 to |FIXED_INSERT_LINES|
          invariant output == lines[..i + 1] + INSERTED_LINES[..j]
        {
          var text := FIXED_INSERT_LINES[j];
          if !EndsWith(text, "\n") {
            text := text + "\n";
          }
          output := output + [text];
        }
        inserted := true;
        k := i;
      }
    }
    if !inserted {
      assert lines[..|lines|] == lines;
      return Failure(NOT_FOUND_MESSAGE);
    }
    assert lines[k + 1..|lines|] == lines[k + 1..];
    r := Success(output);
  }

  /** The inserted lines are the two settings, each with exactly one newline, at its end. */
  lemma InsertedLinesTerminated()
    ensures INSERTED_LINES == ["CreateFastqForIndexReads,1\n", "TrimUMI,0\n"]
    ensures forall i :: 0 <= i < |INSERTED_LINES| ==>
              EndsWith(INSERTED_LINES[i], "\n") && '\n' !in INSERTED_LINES[i][..|INSERTED_LINES[i]| - 1]
  {
    var a, b := FIXED_INSERT_LINES[0], FIXED_INSERT_LINES[1];
    assert a[|a| - 1] == '1' && b[|b| - 1] == '0';
    assert !EndsWith(a, "\n") && !EndsWith(b, "\n");
    assert WithNewline(a) == a + "\n" == "CreateFastqForIndexReads,1\n";
    assert WithNewline(b) == b + "\n" == "TrimUMI,0\n";
    assert (a + "\n")[..|a|] == a && (b + "\n")[..|b|] == b;
  }

  /** Normalising a line twice is normalising it once. */
  lemma WithNewlineIdempotent(text: string)
    ensures WithNewline(WithNewline(text)) == WithNewline(text)
  {
  }

  /** On success the output has two more lines than the input, and the input lines
      keep their order: before the anchor, the anchor itself, and every later line. */
  lemma {:induction false} InsertionPreservesLines(lines: seq<string>, k: nat)
    requires IsFirstAnchor(lines, k)
    ensures InsertAfterFirstAnchor(lines).Success?
    ensures var out := InsertAfterFirstAnchor(lines).value;
            |out| == |lines| + 2 &&
            (forall j :: 0 <= j <= k ==> out[j] == lines[j]) &&
            (forall j :: k < j < |lines| ==> out[j + 2] == lines[j]) &&
            out[k + 1..k + 3] == INSERTED_LINES
  {
    var out := InsertAfterFirstAnchor(lines).value;
    assert |INSERTED_LINES| == 2;
    assert out == lines[..k + 1] + INSERTED_LINES + lines[k + 1..];
    assert out[..k + 1] == lines[..k + 1];
    assert out[k + 3..] == lines[k + 1..];
  }

  /** Round trip: deleting the two entries after the anchor gives the input back. */
  lemma {:induction false} RemoveInsertedRoundTrip(lines: seq<string>, k: nat)
    requires IsFirstAnchor(lines, k)
    ensures var out := InsertAfterFirstAnchor(lines).value;
            out[..k + 1] + out[k + 3..] == lines
  {
    var out := InsertAfterFirstAnchor(lines).value;
    assert |INSERTED_LINES| == 2;
    assert out == lines[..k + 1] + INSERTED_LINES + lines[k + 1..];
    assert out[..k + 1] == lines[..k + 1];
    assert out[k + 3..] == lines[k + 1..];
  }

  /** Insertion happens once: the output holds exactly the input lines plus one copy
      of the inserted pair, however many anchor lines there are. */
  lemma {:induction false} InsertedOnce(lines: seq<string>, k: nat)
    requires IsFirstAnchor(lines, k)
    ensures multiset(InsertAfterFirstAnchor(lines).value) == multiset(lines) + multiset(INSERTED_LINES)
  {
    assert lines == lines[..k + 1] + lines[k + 1..];
  }

  /** A later anchor line is copied verbatim and followed by its own successor, not
      by inserted lines. */
  lemma LaterAnchorsCopiedVerbatim(lines: seq<string>, k: nat, j: nat)
    requires IsFirstAnchor(lines, k) && k < j < |lines| && IsAnchor(lines[j])
    ensures var out := InsertAfterFirstAnchor(lines).value;
            out[j + 2] == lines[j] && (j + 1 < |lines| ==> out[j + 3] == lines[j + 1]) &&
            (j + 1 == |lines| ==> |out| == j + 3)
  {
  }

  /** The inserted lines written out, as text. */
  lemma InsertedText()
    ensures Concat(INSERTED_LINES) == "CreateFastqForIndexReads,1\nTrimUMI,0\n"
  {
    InsertedLinesTerminated();
    var x, y := "CreateFastqForIndexReads,1\n", "TrimUMI,0\n";
    assert Concat([y]) == y + Concat([]);
    assert Concat([x, y]) == x + Concat([y]);
    assert x + y == "CreateFastqForIndexReads,1\nTrimUMI,0\n";
  }

  /** The text the script writes: the inserted settings directly follow the text of
      the anchor line. When the anchor line ends in a newline they are whole lines of
      the file; when it is an unterminated last line, the first setting continues it. */
  lemma {:induction false} WrittenText(lines: seq<string>, k: nat)
    requires IsFirstAnchor(lines, k)
    ensures Concat(InsertAfterFirstAnchor(lines).value) ==
            Concat(lines[..k + 1]) + "CreateFastqForIndexReads,1\nTrimUMI,0\n" + Concat(lines[k + 1..])
  {
    InsertedText();
    ConcatAppend(lines[..k + 1] + INSERTED_LINES, lines[k + 1..]);
    ConcatAppend(lines[..k + 1], INSERTED_LINES);
  }

  /** Any whitespace before the prefix is skipped, whatever follows it. */
  lemma AnchorAfterLeadingSpace(space: string, rest: string)
    requires AllIn(space, UNICODE_SPACE)
    ensures IsAnchor(space + ANCHOR + rest)
  {
    var line := space + ANCHOR + rest;
    assert line[..|space|] == space;
    assert line[|space|..][..|ANCHOR|] == ANCHOR;
    assert AnchorAfterSpace(line, |space|);
    AnchorIff(line);
  }

  /** The prefix test is case-sensitive: a lower-case or upper-case spelling after
      whitespace is not an anchor. */
  lemma AnchorIsCaseSensitive(space: string, rest: string)
    requires AllIn(space, UNICODE_SPACE)
    ensures !IsAnchor(space + "overridecycles" + rest)
    ensures !IsAnchor(space + "OVERRIDECYCLES" + rest)
  {
    var lower, upper := "overridecycles" + rest, "OVERRIDECYCLES" + rest;
    assert space + "overridecycles" + rest == space + lower;
    assert space + "OVERRIDECYCLES" + rest == space + upper;
    TrimLeftSkipsSpace(space, lower, UNICODE_SPACE);
    TrimLeftSkipsSpace(space, upper, UNICODE_SPACE);
    assert lower[0] == 'o' && 'o' !in UNICODE_SPACE;
    assert upper[1] == 'V' && ANCHOR[1] == 'v';
    assert TrimLeft(upper, UNICODE_SPACE) == upper;
  }

  /** Visible text before the prefix is not skipped. */
  lemma AnchorNotAfterOtherText(c: char, rest: string)
    requires c !in UNICODE_SPACE && c != 'O'
    ensures !IsAnchor([c] + rest)
  {
    assert ([c] + rest)[0] == c;
  }

  /** How the command line ends: a usage error, a read error, the not-found error,
      or an output file holding these lines. */
  datatype Outcome = UsageError(message: string) | Fatal(message: string) | Written(output: seq<string>)

  /**
   * `main` followed by the insertion: the input must be an existing file, an
   * existing output file needs `--force`, the read may fail with a cause, and the
   * insertion may fail. Only `Written` writes the output file.
   */
  function PatchSampleSheet(input: string, output: string, inputIsFile: bool, outputIsFile: bool,
                            force: bool, read: Result<seq<string>, string>): (r: Outcome)
    ensures r.Written? <==> inputIsFile && (!outputIsFile || force) && read.Success? && !NoAnchor(read.value)
    ensures r.Written? ==> Success(r.output) == InsertAfterFirstAnchor(read.value)
    ensures outputIsFile && !force ==> !r.Written?
    ensures inputIsFile && (!outputIsFile || force) && read.Failure? ==>
              r == Fatal("Error reading '" + input + "': " + read.error)
    ensures inputIsFile && (!outputIsFile || force) && read.Success? && NoAnchor(read.value) ==>
              r == Fatal(NOT_FOUND_MESSAGE)
  {
    if !inputIsFile then
      UsageError("Error: Input file '" + input + "' does not exist.")
    else if outputIsFile && !force then
      UsageError("Output file '" + output + "' already exists. Use the --force option to overwrite it.")
    else if read.Failure? then
      Fatal("Error reading '" + input + "': " + read.error)
    else
      match InsertAfterFirstAnchor(read.value)
      case Failure(e) => Fatal(e)
      case Success(out) => Written(out)
  }
}
