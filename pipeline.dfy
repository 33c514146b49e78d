/**
 * How the stages fit together: what an extractor collects is written to
 * input.dat, the reader of the fitting stage gets it back structure by
 * structure, and the loaded tables meet every demand of the synthesis loops.
 */
module Pipeline {
  import opened PyStr
  import opened Grouping
  import opened LogExtract
  import opened Dataset
  import opened Spectrum

  /**
   * A captured row holds two tokens of a space-split line, so neither field
   * has a space, and a stripped line has no line break for them to inherit.
   */
  lemma CaptureWritable(fmt: Format, txt: string)
    requires NoBreak(txt)
    requires Row(fmt, txt).Capture?
    ensures Writable((Row(fmt, txt).wavelength, Row(fmt, txt).strength))
  {
    match fmt
    case Orca =>
      TokensAreWords(txt);
      TokensNoBreak(txt);
    case Gaussian =>
      var restante := Split(txt, ":")[1];
      var resto := Tokens(restante);
      SplitNoBreak(txt, ":");
      TokensAreWords(restante);
      TokensNoBreak(restante);
      assert forall i :: 0 <= i < |resto[5]| ==> resto[5][i] != ' ';
      assert NoBreak(resto[5]);
      RemoveAllFree(resto[5], "f=", ' ');
      RemoveAllFree(resto[5], "f=", '\n');
      RemoveAllFree(resto[5], "f=", '\r');
  }

  /** Every line of every log is a line as reading a text file yields it. */
  predicate LinesOf(logs: seq<seq<string>>)
  {
    forall j, k :: 0 <= j < |logs| && 0 <= k < |logs[j]| ==> IsLine(logs[j][k])
  }

  /** No field an extractor collects from text-mode lines contains a space or a line break. */
  lemma CorpusWritable(fmt: Format, logs: seq<seq<string>>)
    requires LinesOf(logs)
    requires ExtractSpec(fmt, logs).Corpus?
    ensures forall k :: 0 <= k < |ExtractSpec(fmt, logs).records| ==> Writable(ExtractSpec(fmt, logs).records[k])
  {
    var r := ExtractSpec(fmt, logs);
    forall k | 0 <= k < |r.records|
      ensures Writable(r.records[k])
    {
      var rec := r.records[k];
      ExtractFrom(ScanOf(fmt), logs, rec);
      var j :| 0 <= j < |logs| && ScanOf(fmt)(logs[j]).Ok? && rec in ScanOf(fmt)(logs[j]).records;
      assert ScanOf(fmt)(logs[j]) == ScanSpec(fmt, logs[j]);
      ScanRecords(fmt, logs[j], rec);
      var section := FileSection(fmt, logs[j]);
      var t :| 0 <= t < |section| && Row(fmt, section[t]) == Capture(rec.0, rec.1);
      SectionIsLines(fmt, logs[j], t);
      var line :| line in logs[j] && section[t] == Strip(line);
      StripLine(line);
      CaptureWritable(fmt, section[t]);
    }
  }

  /** Slot i of structure j of a loaded table holds the reading of rec. */
  predicate SlotIs(t: Table, j: nat, i: nat, rec: (string, string))
  {
    j < |t.slots| && i < |t.slots[j]| && t.slots[j][i] == Reading(rec)
  }

  /**
   * input.dat as the extractor of `fmt` writes it for a non-empty list of
   * text files reads back: m is the number of files, n their counts, and slot i
   * of structure j holds the reading of record i of file j.
   */
  lemma ExtractedDatasetReads(fmt: Format, logs: seq<seq<string>>)
    requires logs != [] && LinesOf(logs) && ExtractSpec(fmt, logs).Corpus?
    ensures var r := ExtractSpec(fmt, logs);
      var loaded := Load(DatasetFile(|logs|, r.counts, r.records));
      && loaded.Some? && loaded.value.m == |logs| && loaded.value.n == r.counts
      && forall j, i :: 0 <= j < |logs| && ScanSpec(fmt, logs[j]).Ok? && 0 <= i < |ScanSpec(fmt, logs[j]).records| ==>
           SlotIs(loaded.value, j, i, ScanSpec(fmt, logs[j]).records[i])
  {
    var r := ExtractSpec(fmt, logs);
    CorpusTotal(fmt, logs);
    CorpusWritable(fmt, logs);
    RoundTrip(|logs|, r.counts, r.records);
    var t := Load(DatasetFile(|logs|, r.counts, r.records)).value;
    forall j, i | 0 <= j < |logs| && ScanSpec(fmt, logs[j]).Ok? && 0 <= i < |ScanSpec(fmt, logs[j]).records|
      ensures SlotIs(t, j, i, ScanSpec(fmt, logs[j]).records[i])
    {
      FileSlot(fmt, logs, t, j, i);
    }
  }

  /** One slot of the loaded table of an extracted corpus. */
  lemma FileSlot(fmt: Format, logs: seq<seq<string>>, t: Table, j: nat, i: nat)
    requires ExtractSpec(fmt, logs).Corpus?
    requires Restores(t, |logs|, ExtractSpec(fmt, logs).counts, ExtractSpec(fmt, logs).records)
    requires j < |logs|
    requires ScanSpec(fmt, logs[j]).Ok? && i < |ScanSpec(fmt, logs[j]).records|
    ensures SlotIs(t, j, i, ScanSpec(fmt, logs[j]).records[i])
  {
    var r := ExtractSpec(fmt, logs);
    CorpusFile(fmt, logs, j);
    var lo := Offset(r.counts, j);
    assert t.slots[j][i] == Reading(r.records[lo + i]);
    assert r.records[lo..lo + r.counts[j]][i] == r.records[lo + i];
  }

  /** The wavelength column of a loaded table: the eigenvalue table. */
  function Wavelengths(t: Table): seq<seq<string>>
  {
    seq(|t.slots|, j requires 0 <= j < |t.slots| => seq(|t.slots[j]|, i requires 0 <= i < |t.slots[j]| => t.slots[j][i].0))
  }

  /** The oscillator strength column of a loaded table: the strength table. */
  function Strengths(t: Table): seq<seq<string>>
  {
    seq(|t.slots|, j requires 0 <= j < |t.slots| => seq(|t.slots[j]|, i requires 0 <= i < |t.slots[j]| => t.slots[j][i].1))
  }

  /** What the synthesis of fit_gaussian / fit_lorentzian reads after loading input.dat. */
  function RunOf(t: Table, typeOfAverage: string, grid: seq<real>): Run<string>
  {
    Run(typeOfAverage == ARITHMETIC, grid, t.m, t.n, Wavelengths(t), Strengths(t))
  }

  /**
   * A table the reader loads meets every demand of the synthesis loops: a
   * count per structure, and n[j] entries in row j of both tables.
   */
  lemma LoadedRunValid(lines: seq<string>, typeOfAverage: string, grid: seq<real>)
    requires Load(lines).Some?
    ensures Valid(RunOf(Load(lines).value, typeOfAverage, grid))
  {
    var t := Load(lines).value;
    var run := RunOf(t, typeOfAverage, grid);
    forall j | 0 <= j < Rows(run.m)
      ensures Holds(run.eigenvalue, run.n, j) && Holds(run.strength, run.n, j)
    {
      assert |run.eigenvalue[j]| == t.width && |run.strength[j]| == t.width;
    }
  }
}
