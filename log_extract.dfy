/**
 * The excited-state extractors of laqc_spectrum.py.
 *
 * Each extractor walks the lines of one output file with a "section found"
 * flag: the section opens on a header line and closes on a terminator, and
 * inside it each line is classified as a record, a line to skip, or a line
 * that makes the program abort (an IndexError nobody catches). The Orca and
 * Gaussian variants differ only in their header, terminator and row layout,
 * so both are one scan parameterised by a `Format`.
 */
module LogExtract {
  import opened PyStr
  import opened Grouping

  datatype Format = Orca | Gaussian

  /** What one line inside the section does. */
  datatype RowOutcome = Skip | Capture(wavelength: string, strength: string) | Crash

  /** One file's records and its excited-state count, or the abort of the whole run. */
  datatype FileResult = Ok(records: seq<(string, string)>, count: nat) | Error

  const ORCA_HEADER := "ABSORPTION SPECTRUM VIA TRANSITION ELECTRIC DIPOLE MOMENTS"
  const GAUSSIAN_ENTER := "(Enter /scr/programs/g09/l914.exe)"
  const GAUSSIAN_LEAVE := "Leave Link"
  const EXCITED_STATE := "Excited State"
  const NORMAL_TERMINATION := "Normal termination of Gaussian 09"

  /** The stripped line starts the section (startswith, not equality). */
  predicate Opens(fmt: Format, txt: string)
  {
    match fmt
    case Orca => StartsWith(txt, ORCA_HEADER)
    case Gaussian => StartsWith(txt, GAUSSIAN_ENTER)
  }

  /** The stripped line ends the section once it has been found. */
  predicate Closes(fmt: Format, txt: string)
  {
    match fmt
    case Orca => |txt| == 0
    case Gaussian => StartsWith(txt, GAUSSIAN_LEAVE)
  }

  /** An Orca row: the first token must be an int() literal, then tokens 2 and 3 are taken. */
  function OrcaRow(txt: string): RowOutcome
  {
    var resto := Tokens(txt);
    if resto == [] then Crash
    else if !IsPyIntLiteral(resto[0]) then Skip
    else if |resto| < 4 then Crash
    else Capture(resto[2], resto[3])
  }

  /** A Gaussian row: an "Excited State" line, tokenised after its first colon, gives tokens 3 and 5. */
  function GaussianRow(txt: string): RowOutcome
  {
    if !StartsWith(txt, EXCITED_STATE) then Skip
    else
      var pieces := Split(txt, ":");
      if |pieces| < 2 then Crash
      else
        var resto := Tokens(pieces[1]);
        if |resto| < 6 then Crash
        else Capture(resto[3], RemoveAll(resto[5], "f="))
  }

  function Row(fmt: Format, txt: string): RowOutcome
  {
    match fmt
    case Orca => OrcaRow(txt)
    case Gaussian => GaussianRow(txt)
  }

  /** A header line is never a terminator, so the flag is raised before any break can happen. */
  lemma OpensNotCloses(fmt: Format, txt: string)
    requires Opens(fmt, txt)
    ensures !Closes(fmt, txt)
  {
    if fmt.Gaussian? {
      assert txt[0] == '(';
    }
  }

  /**
   * What decides the section and its rows, as values: the header test, the
   * terminator test and the row parser. The scan and its lemmas are stated
   * over a layout, and LayoutOf gives the one of each program.
   */
  datatype Layout = Layout(opens: string -> bool, closes: string -> bool, row: string -> RowOutcome)

  /** No header line is a terminator. */
  ghost predicate Separated(lay: Layout)
  {
    forall t :: lay.opens(t) ==> !lay.closes(t)
  }

  function LayoutOf(fmt: Format): Layout
  {
    Layout(txt => Opens(fmt, txt), txt => Closes(fmt, txt), txt => Row(fmt, txt))
  }

  lemma LayoutSeparated(fmt: Format)
    ensures Separated(LayoutOf(fmt))
  {
    forall t | LayoutOf(fmt).opens(t)
      ensures !LayoutOf(fmt).closes(t)
    {
      OpensNotCloses(fmt, t);
    }
  }

  /** Every line of a file with its surrounding whitespace stripped. */
  function StripAll(lines: seq<string>): (txts: seq<string>)
    ensures |txts| == |lines|
    ensures forall i :: 0 <= i < |lines| ==> txts[i] == Strip(lines[i])
  {
    seq(|lines|, i requires 0 <= i < |lines| => Strip(lines[i]))
  }

  /**
   * The line loop of one file from line k on, as the source runs it: `found`
   * is the section flag, `recs` the records and `n` the counter so far. A
   * header raises the flag; otherwise a terminator ends the file once the
   * flag is up; every line read with the flag up is classified.
   */
  function Scan(lay: Layout, txts: seq<string>, k: nat, found: bool, recs: seq<(string, string)>, n: nat): FileResult
    requires k <= |txts|
    decreases |txts| - k
  {
    if k == |txts| then Ok(recs, n)
    else
      var txt := txts[k];
      if !lay.opens(txt) && lay.closes(txt) && found then Ok(recs, n)
      else if !found && !lay.opens(txt) then Scan(lay, txts, k + 1, false, recs, n)
      else
        match lay.row(txt)
        case Crash => Error
        case Skip => Scan(lay, txts, k + 1, true, recs, n)
        case Capture(w, f) => Scan(lay, txts, k + 1, true, recs + [(w, f)], n + 1)
  }

  /** What extracting one file gives: its records and its counter, or an abort. */
  function ScanSpec(fmt: Format, lines: seq<string>): FileResult
  {
    Scan(LayoutOf(fmt), StripAll(lines), 0, false, [], 0)
  }

  /** The classification of one stripped line inside the section, with the tokenising loop. */
  method ClassifyLine(fmt: Format, txtLinha: string) returns (outcome: RowOutcome)
    ensures outcome == Row(fmt, txtLinha)
  {
    match fmt {
      case Orca =>
        var resto := SplitTokens(txtLinha);
        if resto == [] {
          outcome := Crash;
        } else if !IsPyIntLiteral(resto[0]) {
          outcome := Skip;
        } else if |resto| < 4 {
          outcome := Crash;
        } else {
          outcome := Capture(resto[2], resto[3]);
        }
      case Gaussian =>
        if !StartsWith(txtLinha, EXCITED_STATE) {
          outcome := Skip;
        } else {
          var restante := Split(txtLinha, ":");
          if |restante| < 2 {
            outcome := Crash;
          } else {
            var resto := SplitTokens(restante[1]);
            if |resto| < 6 {
              outcome := Crash;
            } else {
              outcome := Capture(resto[3], RemoveAll(resto[5], "f="));
            }
          }
        }
    }
  }

  /** One step of the scan of a file, in the terms of its program. */
  lemma ScanStep(fmt: Format, lines: seq<string>, k: nat, found: bool, recs: seq<(string, string)>, n: nat)
    requires k < |lines|
    ensures var txt := Strip(lines[k]);
      Scan(LayoutOf(fmt), StripAll(lines), k, found, recs, n)
      == if !Opens(fmt, txt) && Closes(fmt, txt) && found then Ok(recs, n)
         else if !found && !Opens(fmt, txt) then Scan(LayoutOf(fmt), StripAll(lines), k + 1, false, recs, n)
         else match Row(fmt, txt)
           case Crash => Error
           case Skip => Scan(LayoutOf(fmt), StripAll(lines), k + 1, true, recs, n)
           case Capture(w, f) => Scan(LayoutOf(fmt), StripAll(lines), k + 1, true, recs + [(w, f)], n + 1)
  {
  }

  /**
   * The line loop of extract_data_orca / extract_data_gaussian for one file:
   * the flag, the break on the terminator, the tokenising loop and the counter.
   */
  method ScanLog(fmt: Format, lines: seq<string>) returns (r: FileResult)
    ensures r == ScanSpec(fmt, lines)
  {
    var excitedStates: seq<(string, string)> := [];
    var numExcitedState: nat := 0;
    var secaoEncontrada := false;
    var k := 0;
    ghost var lay := LayoutOf(fmt);
    ghost var txts := StripAll(lines);
    while k < |lines|
      invariant 0 <= k <= |lines|
      invariant ScanSpec(fmt, lines) == Scan(lay, txts, k, secaoEncontrada, excitedStates, numExcitedState)
    {
      var txtLinha := Strip(lines[k]);
      ScanStep(fmt, lines, k, secaoEncontrada, excitedStates, numExcitedState);
      if Opens(fmt, txtLinha) {
        secaoEncontrada := true;
      } else if Closes(fmt, txtLinha) && secaoEncontrada {
        break;
      }
      if secaoEncontrada {
        var outcome := ClassifyLine(fmt, txtLinha);
        match outcome {
          case Crash =>
            return Error;
          case Skip =>
          case Capture(w, f) =>
            excitedStates := excitedStates + [(w, f)];
            numExcitedState := numExcitedState + 1;
        }
      }
      k := k + 1;
    }
    return Ok(excitedStates, numExcitedState);
  }

  /** The index of the first header at or after `from` among stripped lines, or |txts|. */
  function FirstOpen(lay: Layout, txts: seq<string>, from: nat): (k: nat)
    requires from <= |txts|
    ensures from <= k <= |txts|
    ensures forall t :: from <= t < k ==> !lay.opens(txts[t])
    ensures k < |txts| ==> lay.opens(txts[k])
    decreases |txts| - from
  {
    if from == |txts| || lay.opens(txts[from]) then from else FirstOpen(lay, txts, from + 1)
  }

  /** The index of the first terminator at or after `from` among stripped lines, or |txts|. */
  function FirstClose(lay: Layout, txts: seq<string>, from: nat): (k: nat)
    requires from <= |txts|
    ensures from <= k <= |txts|
    ensures forall t :: from <= t < k ==> !lay.closes(txts[t])
    ensures k < |txts| ==> lay.closes(txts[k])
    decreases |txts| - from
  {
    if from == |txts| || lay.closes(txts[from]) then from else FirstClose(lay, txts, from + 1)
  }

  /** Index of the first header line, or |txts| when there is none. */
  function SectionStart(lay: Layout, txts: seq<string>): (h: nat)
    ensures h <= |txts|
  {
    FirstOpen(lay, txts, 0)
  }

  /** Index of the first terminator after the header, or |txts|. */
  function SectionEnd(lay: Layout, txts: seq<string>): (e: nat)
    requires SectionStart(lay, txts) < |txts|
    ensures SectionStart(lay, txts) < e <= |txts|
  {
    FirstClose(lay, txts, SectionStart(lay, txts) + 1)
  }

  /** The stripped lines the loop classifies: from the first header up to, not including, the next terminator. */
  function Section(lay: Layout, txts: seq<string>): seq<string>
  {
    var h := SectionStart(lay, txts);
    if h == |txts| then [] else txts[h..SectionEnd(lay, txts)]
  }

  /** The section of one file as its program reads it. */
  function FileSection(fmt: Format, lines: seq<string>): seq<string>
  {
    Section(LayoutOf(fmt), StripAll(lines))
  }

  /** Every text the section loop classifies is a line of the file, stripped. */
  lemma SectionIsLines(fmt: Format, lines: seq<string>, t: nat)
    requires t < |FileSection(fmt, lines)|
    ensures exists k :: 0 <= k < |lines| && FileSection(fmt, lines)[t] == Strip(lines[k])
  {
    var txts := StripAll(lines);
    var h := SectionStart(LayoutOf(fmt), txts);
    assert FileSection(fmt, lines)[t] == txts[h + t];
  }

  /**
   * The loop body folded over a window of lines, each classified by
   * `classify`: a capture appends its record and bumps the counter, a skip
   * changes nothing, and a crash aborts.
   */
  function Collect(classify: string -> RowOutcome, window: seq<string>): FileResult
    decreases |window|
  {
    if window == [] then Ok([], 0)
    else
      match Collect(classify, window[..|window| - 1])
      case Error => Error
      case Ok(recs, n) =>
        match classify(window[|window| - 1])
        case Crash => Error
        case Skip => Ok(recs, n)
        case Capture(w, f) => Ok(recs + [(w, f)], n + 1)
  }

  /** The counter always equals the number of records collected. */
  lemma {:induction false} CollectCount(classify: string -> RowOutcome, window: seq<string>)
    ensures Collect(classify, window).Ok? ==> Collect(classify, window).count == |Collect(classify, window).records|
    decreases |window|
  {
    if window != [] {
      CollectCount(classify, window[..|window| - 1]);
    }
  }

  /** The fold aborts exactly when some line of the window crashes. */
  lemma {:induction false} CollectAborts(classify: string -> RowOutcome, window: seq<string>)
    ensures Collect(classify, window).Error? <==> exists t :: 0 <= t < |window| && classify(window[t]).Crash?
    decreases |window|
  {
    if window != [] {
      var init := window[..|window| - 1];
      CollectAborts(classify, init);
      if exists t :: 0 <= t < |init| && classify(init[t]).Crash? {
        var t :| 0 <= t < |init| && classify(init[t]).Crash?;
        assert window[t] == init[t];
      }
      if exists t :: 0 <= t < |window| && classify(window[t]).Crash? {
        var t :| 0 <= t < |window| && classify(window[t]).Crash?;
        if t < |init| {
          assert init[t] == window[t];
        }
      }
    }
  }

  /** A record is collected exactly when some line of the window captures it. */
  lemma {:induction false} CollectMembers(classify: string -> RowOutcome, window: seq<string>, rec: (string, string))
    requires Collect(classify, window).Ok?
    ensures rec in Collect(classify, window).records <==>
      exists t :: 0 <= t < |window| && classify(window[t]) == Capture(rec.0, rec.1)
    decreases |window|
  {
    if window != [] {
      var init := window[..|window| - 1];
      CollectMembers(classify, init, rec);
      if exists t :: 0 <= t < |init| && classify(init[t]) == Capture(rec.0, rec.1) {
        var t :| 0 <= t < |init| && classify(init[t]) == Capture(rec.0, rec.1);
        assert window[t] == init[t];
      }
      if exists t :: 0 <= t < |window| && classify(window[t]) == Capture(rec.0, rec.1) {
        var t :| 0 <= t < |window| && classify(window[t]) == Capture(rec.0, rec.1);
        if t < |init| {
          assert init[t] == window[t];
        }
      }
    }
  }

  /** Once a prefix of the window aborts, the whole window aborts. */
  lemma {:induction false} CollectAbortSticks(classify: string -> RowOutcome, window: seq<string>, j: nat)
    requires j <= |window|
    requires Collect(classify, window[..j]).Error?
    ensures Collect(classify, window).Error?
    decreases |window|
  {
    if j < |window| {
      var init := window[..|window| - 1];
      assert init[..j] == window[..j];
      CollectAbortSticks(classify, init, j);
    } else {
      assert window[..j] == window;
    }
  }

  /** Before the first header the loop only reads lines. */
  lemma {:induction false} ScanSkipsPreamble(lay: Layout, txts: seq<string>, k: nat)
    requires k <= SectionStart(lay, txts)
    ensures Scan(lay, txts, k, false, [], 0) == Scan(lay, txts, SectionStart(lay, txts), false, [], 0)
    decreases SectionStart(lay, txts) - k
  {
    if k < SectionStart(lay, txts) {
      assert !lay.opens(txts[k]);
      ScanSkipsPreamble(lay, txts, k + 1);
    }
  }

  /** With the flag up, the loop stops at the terminator that ends the section. */
  lemma ScanStopsAtSectionEnd(lay: Layout, txts: seq<string>, recs: seq<(string, string)>, n: nat)
    requires Separated(lay)
    requires SectionStart(lay, txts) < |txts|
    ensures Scan(lay, txts, SectionEnd(lay, txts), true, recs, n) == Ok(recs, n)
  {
    var e := SectionEnd(lay, txts);
    if e < |txts| {
      assert lay.closes(txts[e]);
      assert !lay.opens(txts[e]);
    }
  }

  /** From line h + j of the section on, with the flag up, the loop finishes the fold of the section. */
  lemma {:induction false} ScanFinishesSection(lay: Layout, txts: seq<string>, j: nat)
    requires Separated(lay)
    requires SectionStart(lay, txts) < |txts|
    requires 1 <= j <= |Section(lay, txts)|
    requires Collect(lay.row, Section(lay, txts)[..j]).Ok?
    ensures var acc := Collect(lay.row, Section(lay, txts)[..j]);
      Scan(lay, txts, SectionStart(lay, txts) + j, true, acc.records, acc.count) == Collect(lay.row, Section(lay, txts))
    decreases |txts| - j
  {
    var h := SectionStart(lay, txts);
    var e := SectionEnd(lay, txts);
    var w := Section(lay, txts);
    var acc := Collect(lay.row, w[..j]);
    assert |w| == e - h;
    if j == |w| {
      assert w[..j] == w;
      ScanStopsAtSectionEnd(lay, txts, acc.records, acc.count);
    } else {
      var k := h + j;
      assert txts[k] == w[j];
      assert !lay.closes(txts[k]);
      assert w[..j + 1][..j] == w[..j];
      assert w[..j + 1][j] == txts[k];
      if Collect(lay.row, w[..j + 1]).Error? {
        CollectAbortSticks(lay.row, w, j + 1);
      } else {
        ScanFinishesSection(lay, txts, j + 1);
      }
    }
  }

  /** From the first header on, the loop computes the fold of the section. */
  lemma ScanFromHeader(lay: Layout, txts: seq<string>)
    requires Separated(lay)
    requires SectionStart(lay, txts) < |txts|
    ensures Scan(lay, txts, SectionStart(lay, txts), false, [], 0) == Collect(lay.row, Section(lay, txts))
  {
    var h := SectionStart(lay, txts);
    var w := Section(lay, txts);
    assert w[..1][..0] == [];
    assert w[..1][0] == txts[h];
    if Collect(lay.row, w[..1]).Error? {
      CollectAbortSticks(lay.row, w, 1);
    } else {
      ScanFinishesSection(lay, txts, 1);
    }
  }

  /**
   * The loop collects exactly the lines from the first header up to, not
   * including, the next terminator (or the end of the file).
   */
  lemma ScanIsSection(fmt: Format, lines: seq<string>)
    ensures ScanSpec(fmt, lines) == Collect(LayoutOf(fmt).row, FileSection(fmt, lines))
  {
    var lay := LayoutOf(fmt);
    var txts := StripAll(lines);
    ScanSkipsPreamble(lay, txts, 0);
    if SectionStart(lay, txts) < |txts| {
      LayoutSeparated(fmt);
      ScanFromHeader(lay, txts);
    }
  }

  /** One file's counter equals the number of its records. */
  lemma ScanCount(fmt: Format, lines: seq<string>)
    ensures ScanSpec(fmt, lines).Ok? ==> ScanSpec(fmt, lines).count == |ScanSpec(fmt, lines).records|
  {
    ScanIsSection(fmt, lines);
    CollectCount(LayoutOf(fmt).row, FileSection(fmt, lines));
  }

  /** A file aborts the run exactly when one line of its section makes the row parsing fail. */
  lemma ScanAborts(fmt: Format, lines: seq<string>)
    ensures ScanSpec(fmt, lines).Error? <==>
      exists t :: 0 <= t < |FileSection(fmt, lines)| && Row(fmt, FileSection(fmt, lines)[t]).Crash?
  {
    ScanIsSection(fmt, lines);
    CollectAborts(LayoutOf(fmt).row, FileSection(fmt, lines));
  }

  /** A record is extracted from a file exactly when a line of its section captures it. */
  lemma ScanRecords(fmt: Format, lines: seq<string>, rec: (string, string))
    requires ScanSpec(fmt, lines).Ok?
    ensures rec in ScanSpec(fmt, lines).records <==>
      exists t :: 0 <= t < |FileSection(fmt, lines)| && Row(fmt, FileSection(fmt, lines)[t]) == Capture(rec.0, rec.1)
  {
    ScanIsSection(fmt, lines);
    CollectMembers(LayoutOf(fmt).row, FileSection(fmt, lines), rec);
  }

  /**
   * Inside an Orca section no line is blank, so every line there has a first
   * token: the IndexError of resto[0] cannot happen, only that of resto[2] / resto[3].
   */
  lemma OrcaSectionLinesHaveTokens(lines: seq<string>, k: nat)
    requires SectionStart(LayoutOf(Orca), StripAll(lines)) <= k
    requires SectionStart(LayoutOf(Orca), StripAll(lines)) < |lines| && k < SectionEnd(LayoutOf(Orca), StripAll(lines))
    ensures Tokens(Strip(lines[k])) != []
  {
    var txts := StripAll(lines);
    var h := SectionStart(LayoutOf(Orca), txts);
    var txt := txts[k];
    if k == h {
      assert Opens(Orca, txt);
    } else {
      assert !Closes(Orca, txt);
    }
    FirstToken(txt);
  }

  /** The fully extracted corpus: per-file counts and the flattened records. */
  datatype Extraction = Corpus(counts: seq<nat>, records: seq<(string, string)>) | Aborted

  /** Extracting every file in order with `scan`; one aborting file aborts the whole run. */
  function Extract(scan: seq<string> -> FileResult, logs: seq<seq<string>>): Extraction
    decreases |logs|
  {
    if logs == [] then Corpus([], [])
    else
      match Extract(scan, logs[..|logs| - 1])
      case Aborted => Aborted
      case Corpus(counts, records) =>
        match scan(logs[|logs| - 1])
        case Error => Aborted
        case Ok(recs, n) => Corpus(counts + [n], records + recs)
  }

  /** The extraction of one file, as a value. */
  function ScanOf(fmt: Format): seq<string> -> FileResult
  {
    lines => ScanSpec(fmt, lines)
  }

  /** What the extractor of `fmt` gives for a sequence of files. */
  function ExtractSpec(fmt: Format, logs: seq<seq<string>>): Extraction
  {
    Extract(ScanOf(fmt), logs)
  }

  /**
   * The run completes exactly when no file aborts, and then it holds one
   * count per file, in file order.
   */
  lemma {:induction false} ExtractCounts(scan: seq<string> -> FileResult, logs: seq<seq<string>>)
    ensures Extract(scan, logs).Corpus? <==> forall i :: 0 <= i < |logs| ==> scan(logs[i]).Ok?
    ensures Extract(scan, logs).Corpus? ==>
      && |Extract(scan, logs).counts| == |logs|
      && forall i :: 0 <= i < |logs| ==> Extract(scan, logs).counts[i] == scan(logs[i]).count
    decreases |logs|
  {
    if logs != [] {
      var init := logs[..|logs| - 1];
      assert forall i :: 0 <= i < |init| ==> init[i] == logs[i];
      ExtractCounts(scan, init);
    }
  }

  /** Every completed file scan counts exactly its records. */
  ghost predicate Counted(scan: seq<string> -> FileResult)
  {
    forall lines :: scan(lines).Ok? ==> scan(lines).count == |scan(lines).records|
  }

  lemma ScanOfCounted(fmt: Format)
    ensures Counted(ScanOf(fmt))
  {
    forall lines | ScanOf(fmt)(lines).Ok?
      ensures ScanOf(fmt)(lines).count == |ScanOf(fmt)(lines).records|
    {
      ScanCount(fmt, lines);
    }
  }

  /** The counts of a completed run add up to the number of its records. */
  lemma {:induction false} ExtractTotal(scan: seq<string> -> FileResult, logs: seq<seq<string>>)
    requires Counted(scan)
    requires Extract(scan, logs).Corpus?
    ensures Offset(Extract(scan, logs).counts, |Extract(scan, logs).counts|) == |Extract(scan, logs).records|
    decreases |logs|
  {
    if logs != [] {
      var init := logs[..|logs| - 1];
      var last := scan(logs[|logs| - 1]);
      var p := Extract(scan, init);
      ExtractTotal(scan, init);
      OffsetPrefix(p.counts, [last.count], |p.counts|);
    }
  }

  /** Every record of a completed run is a record of some file's scan. */
  lemma {:induction false} ExtractFrom(scan: seq<string> -> FileResult, logs: seq<seq<string>>, rec: (string, string))
    requires Extract(scan, logs).Corpus? && rec in Extract(scan, logs).records
    ensures exists j :: 0 <= j < |logs| && scan(logs[j]).Ok? && rec in scan(logs[j]).records
    decreases |logs|
  {
    var init := logs[..|logs| - 1];
    var p := Extract(scan, init);
    if rec in p.records {
      ExtractFrom(scan, init, rec);
      var j :| 0 <= j < |init| && scan(init[j]).Ok? && rec in scan(init[j]).records;
      assert init[j] == logs[j];
    } else {
      assert rec in scan(logs[|logs| - 1]).records;
    }
  }

  /** The records of file j sit right after those of files 0 .. j - 1, in their own order. */
  lemma {:induction false} ExtractPlaces(scan: seq<string> -> FileResult, logs: seq<seq<string>>, j: nat)
    requires Counted(scan)
    requires Extract(scan, logs).Corpus?
    requires j < |logs|
    ensures var r := Extract(scan, logs);
      && j < |r.counts| && scan(logs[j]).Ok?
      && Offset(r.counts, j) + r.counts[j] <= |r.records|
      && r.records[Offset(r.counts, j)..Offset(r.counts, j) + r.counts[j]] == scan(logs[j]).records
    decreases |logs|
  {
    ExtractCounts(scan, logs);
    var r := Extract(scan, logs);
    var init := logs[..|logs| - 1];
    var last := scan(logs[|logs| - 1]);
    var p := Extract(scan, init);
    ExtractCounts(scan, init);
    OffsetPrefix(p.counts, [last.count], j);
    if j < |init| {
      assert init[j] == logs[j] && r.counts[j] == p.counts[j];
      ExtractPlaces(scan, init, j);
      var lo := Offset(p.counts, j);
      assert r.records[lo..lo + r.counts[j]] == p.records[lo..lo + p.counts[j]];
    } else {
      ExtractTotal(scan, init);
      assert r.records[|p.records|..] == last.records;
    }
  }

  /** The layout of what the extractor of `fmt` gives, with each count that of its file. */
  lemma CorpusLayout(fmt: Format, logs: seq<seq<string>>)
    requires ExtractSpec(fmt, logs).Corpus?
    ensures var r := ExtractSpec(fmt, logs);
      && |r.counts| == |logs|
      && Offset(r.counts, |logs|) == |r.records|
      && forall j :: 0 <= j < |logs| ==>
           && ScanSpec(fmt, logs[j]).Ok?
           && r.counts[j] == |ScanSpec(fmt, logs[j]).records|
           && Offset(r.counts, j) + r.counts[j] <= |r.records|
           && r.records[Offset(r.counts, j)..Offset(r.counts, j) + r.counts[j]] == ScanSpec(fmt, logs[j]).records
  {
    var r := ExtractSpec(fmt, logs);
    CorpusTotal(fmt, logs);
    forall j | 0 <= j < |logs|
      ensures && ScanSpec(fmt, logs[j]).Ok?
              && r.counts[j] == |ScanSpec(fmt, logs[j]).records|
              && Offset(r.counts, j) + r.counts[j] <= |r.records|
              && r.records[Offset(r.counts, j)..Offset(r.counts, j) + r.counts[j]] == ScanSpec(fmt, logs[j]).records
    {
      CorpusFile(fmt, logs, j);
    }
  }

  /** The counts of what the extractor of `fmt` gives add up to its number of records. */
  lemma CorpusTotal(fmt: Format, logs: seq<seq<string>>)
    requires ExtractSpec(fmt, logs).Corpus?
    ensures |ExtractSpec(fmt, logs).counts| == |logs|
    ensures Offset(ExtractSpec(fmt, logs).counts, |logs|) == |ExtractSpec(fmt, logs).records|
  {
    ScanOfCounted(fmt);
    ExtractCounts(ScanOf(fmt), logs);
    ExtractTotal(ScanOf(fmt), logs);
  }

  /** The counts and records file j contributes to what the extractor of `fmt` gives. */
  lemma CorpusFile(fmt: Format, logs: seq<seq<string>>, j: nat)
    requires ExtractSpec(fmt, logs).Corpus?
    requires j < |logs|
    ensures var r := ExtractSpec(fmt, logs);
      && ScanSpec(fmt, logs[j]).Ok?
      && j < |r.counts|
      && r.counts[j] == |ScanSpec(fmt, logs[j]).records|
      && Offset(r.counts, j) + r.counts[j] <= |r.records|
      && r.records[Offset(r.counts, j)..Offset(r.counts, j) + r.counts[j]] == ScanSpec(fmt, logs[j]).records
  {
    ScanOfCounted(fmt);
    ExtractPlaces(ScanOf(fmt), logs, j);
    assert ScanOf(fmt)(logs[j]) == ScanSpec(fmt, logs[j]);
  }

  /**
   * The file loop of the extractors: one count appended per file, in file
   * order, and the file's records appended to the flattened list.
   */
  method ExtractCorpus(fmt: Format, logs: seq<seq<string>>) returns (r: Extraction)
    ensures r == ExtractSpec(fmt, logs)
  {
    var excitedStates: seq<(string, string)> := [];
    var listNumExcitedState: seq<nat> := [];
    var k := 0;
    ghost var scan := ScanOf(fmt);
    while k < |logs|
      invariant 0 <= k <= |logs|
      invariant Extract(scan, logs[..k]) == Corpus(listNumExcitedState, excitedStates)
    {
      var scanned := ScanLog(fmt, logs[k]);
      assert scanned == scan(logs[k]);
      assert logs[..k + 1][..k] == logs[..k];
      if scanned.Error? {
        ExtractCounts(scan, logs);
        return Aborted;
      }
      excitedStates := excitedStates + scanned.records;
      listNumExcitedState := listNumExcitedState + [scanned.count];
      k := k + 1;
    }
    assert logs[..k] == logs;
    return Corpus(listNumExcitedState, excitedStates);
  }

  /** normal_termination's predicate: some line contains the marker. */
  predicate HasNormalTermination(lines: seq<string>)
  {
    exists i :: 0 <= i < |lines| && Contains(lines[i], NORMAL_TERMINATION)
  }

  /** normal_termination: the flag is set by every line holding the marker and never cleared. */
  method NormalTermination(lines: seq<string>) returns (continuar: bool)
    ensures continuar <==> HasNormalTermination(lines)
  {
    continuar := false;
    var k := 0;
    while k < |lines|
      invariant 0 <= k <= |lines|
      invariant continuar <==> exists i :: 0 <= i < k && Contains(lines[i], NORMAL_TERMINATION)
    {
      if Contains(lines[k], NORMAL_TERMINATION) {
        continuar := true;
      }
      k := k + 1;
    }
  }

  /** A candidate output file: its name and its lines. */
  datatype LogFile = LogFile(name: string, lines: seq<string>)

  /** The candidates that pass the pre-filter, in candidate order. */
  function Terminated(candidates: seq<LogFile>): (r: seq<LogFile>)
    ensures |r| <= |candidates|
    ensures forall f :: f in r <==> f in candidates && HasNormalTermination(f.lines)
    decreases |candidates|
  {
    if candidates == [] then []
    else
      var init := candidates[..|candidates| - 1];
      var last := candidates[|candidates| - 1];
      assert candidates == init + [last];
      Terminated(init) + (if HasNormalTermination(last.lines) then [last] else [])
  }

  /** The pre-filter loop of get_arquivos_gaussian over an already listed candidate sequence. */
  method SelectGaussianLogs(candidates: seq<LogFile>) returns (selected: seq<LogFile>)
    ensures selected == Terminated(candidates)
  {
    selected := [];
    var k := 0;
    while k < |candidates|
      invariant 0 <= k <= |candidates|
      invariant selected == Terminated(candidates[..k])
    {
      assert candidates[..k + 1][..k] == candidates[..k];
      var ok := NormalTermination(candidates[k].lines);
      if ok {
        selected := selected + [candidates[k]];
      }
      k := k + 1;
    }
    assert candidates[..k] == candidates;
  }
}
