# laqc_spectrum, modelled in Dafny

`laqc_spectrum` builds UV-Vis absorption spectra from quantum-chemistry output. It has three stages:

1. It reads the excited states of a set of ORCA or Gaussian 09 log files.
2. It writes them to `input.dat`. Line 0 holds the number of structures. Line 1 holds the space-separated excited-state counts. After that comes one `wavelength  strength` line per excited state, with the files' records in file order.
3. It reads `input.dat` back and sums a broadening kernel over every structure and every point of a wavenumber grid. Then it accumulates the per-wavenumber totals in an insertion-ordered dictionary. In arithmetic mode it divides them by the number of structures. `fit_gaussian` then hands the averages and all the rows to `calcula_dp_erro`. That function is meant to compute, for every averaged wavenumber, the sum of squared deviations of the structures' values from the average, and how many values there were. As written, line 530 subscripts the `append` method and raises `TypeError` right after the first key's quotient. `fit_gaussian` does not catch it, so the run ends there, after `average_spectrum.dat`, `dados_spectrum.txt` and `medias.txt` are written. The model computes, as intended, the quantities for every key, which the program only reaches for the first one.

The Dafny modules follow those stages:

- `PyStr` (`py_str.dfy`) models the Python `str` builtins the program relies on:
  - `strip`, `split`, `join`, `startswith`, `in`, `replace`;
  - `int()` of a string, `str()` of a count, and `ljust`.
- `Grouping` (`grouping.dfy`) handles offsets. Structure `j` owns the `n[j]` records that follow those of structures `0 .. j-1`. A negative count owns none.
- `LogExtract` (`log_extract.dfy`) covers extraction:
  - The per-file section scanner of `extract_data_orca` and `extract_data_gaussian` is a method (`ScanLog`), proved equal to a specification function (`ScanSpec`). Lemmas then say what `ScanSpec` means.
  - The loop over the files is `ExtractCorpus`, proved equal to `ExtractSpec`.
  - It also covers `normal_termination` and the filter in `get_arquivos_gaussian`.
- `Dataset` (`dataset.dfy`) covers `input.dat`:
  - The writer is `WriteDataset`.
  - The reader loop shared by `fit_gaussian` and `fit_lorentzian` is `ReadDataset`, proved against the function `Load`.
  - It also holds the write/read round trip.
- `Spectrum` (`spectrum.dfy`) covers the spectrum:
  - The triple loop and the ordered `average` dictionary are `Synthesize`, proved against `SpectrumRows` and `Distinct`.
  - The division by `m_valor` is `Rescale`.
  - `calcula_dp_erro` is `Dispersion`. Lemmas give the closed forms of the totals and the averages.
- `Pipeline` (`pipeline.dfy`) holds the cross-stage facts. Extracted records are writable. What the writer produces from an extraction reads back to those records. A loaded table is a valid input for the spectrum stage.

Files are sequences of lines, each with its terminator. Reading past the end gives `""`, as `readline` does. A log line holds a line break only as its last character, as iterating over a text file yields it. An exception that stops a stage is an error value:
- Extraction: both extractors catch only `OSError` (lines 338 and 413). The `IndexError` of a short section row escapes, and the run stops before `input.dat` is written. This is `Crash` for the row, `Error` for the file and `Aborted` for the corpus.
- Reading in `fit_gaussian` (lines 439-457): it catches only `OSError` and `ZeroDivisionError` (503-508). The `ValueError` of `int()` and the `IndexError` of `values[1]` or `n_valor[j]` escape the program.
- Reading in `fit_lorentzian` (lines 555-569): it catches `OSError` and `ValueError` (603-606) and prints them. So an `int()` failure ends that fit with a message, while an `IndexError` still escapes.
- In every reading case the fit produces no spectrum. This is `None` from `Load` and `false` from `ReadDataset`.

Paths are relative to `laqc_spectrum/src/laqc_spectrum.py`. The header tests use `startswith` (lines 295 and 374) rather than equality, and the model follows the code.

## Model

| member | source | states |
|---|---|---|
| LogExtract.OpensNotCloses | laqc_spectrum/src/laqc_spectrum.py:295-301 | a section header line is never a terminator, so the flag is set before any `break` can happen on that line |
| LogExtract.ClassifyLine | laqc_spectrum/src/laqc_spectrum.py:304-317 | the tokenising loop and the `int(resto[0])` / `resto[2]`, `resto[3]` access, and for Gaussian (lines 381-393) the `split(":")[1]`, `resto[3]` and `resto[5].replace("f=", "")` access, give exactly the row outcome `Row`: not a row, a captured record, or an uncaught IndexError |
| LogExtract.ScanLog | laqc_spectrum/src/laqc_spectrum.py:290-318 | the line loop over one file, including the flag, the `break` and the counter, returns exactly `ScanSpec` (lines 368-395 for Gaussian) |
| LogExtract.ScanIsSection | laqc_spectrum/src/laqc_spectrum.py:293-317 | the scan of a file is the fold of the row outcome over its section. The section starts at the first header line and runs to, but not including, the first later terminator line (or the end of the file) |
| LogExtract.ScanCount | laqc_spectrum/src/laqc_spectrum.py:311-318 | when a file is read without exception, its counter equals the number of records it contributed |
| LogExtract.ScanAborts | laqc_spectrum/src/laqc_spectrum.py:304-317 | a file's scan raises if and only if some line of its section raises |
| LogExtract.ScanRecords | laqc_spectrum/src/laqc_spectrum.py:304-317 | a record is contributed by a file if and only if some line of its section captures it |
| LogExtract.OrcaSectionLinesHaveTokens | laqc_spectrum/src/laqc_spectrum.py:293-310 | every ORCA line the section loop classifies has a first token, so `resto[0]` never raises there |
| LogExtract.ExtractCounts | laqc_spectrum/src/laqc_spectrum.py:286-318 | the corpus is extracted if and only if every file is. Then there is one count per file, in file order, equal to that file's counter |
| LogExtract.ExtractFrom | laqc_spectrum/src/laqc_spectrum.py:286-318 | every extracted record comes from some file's records |
| LogExtract.CorpusTotal | laqc_spectrum/src/laqc_spectrum.py:318-336 | the counts sum to the number of records, and there is one count per file |
| LogExtract.CorpusLayout | laqc_spectrum/src/laqc_spectrum.py:286-318 | the records of file `j` sit, in order, at offset `n[0]+...+n[j-1]` of the flattened list, and they are exactly that file's records |
| LogExtract.CorpusFile | laqc_spectrum/src/laqc_spectrum.py:286-318 | the same placement for one given file |
| LogExtract.ExtractCorpus | laqc_spectrum/src/laqc_spectrum.py:286-318 | the loop over the files returns exactly `ExtractSpec`: the concatenated records and the per-file counts, or an abort when any file raises (lines 364-395 for Gaussian) |
| LogExtract.NormalTermination | laqc_spectrum/src/laqc_spectrum.py:241-262 | the result is true if and only if some line contains "Normal termination of Gaussian 09" |
| LogExtract.Terminated | laqc_spectrum/src/laqc_spectrum.py:216-238 | keeps exactly the candidate logs that terminated normally, and never more files than given |
| LogExtract.SelectGaussianLogs | laqc_spectrum/src/laqc_spectrum.py:233-238 | the selection loop returns exactly `Terminated` of the candidates, in their order |
| Dataset.WriteDataset | laqc_spectrum/src/laqc_spectrum.py:320-336 | the writer produces exactly `DatasetFile`: header, counts line, one line per record |
| Dataset.DatasetLayout | laqc_spectrum/src/laqc_spectrum.py:320-336 | `input.dat` has `len(records) + 2` lines. Line 0 is the `:<4d` count, line 1 the joined counts, and line `2+k` is record `k` joined by two spaces |
| Dataset.HeaderRoundTrip | laqc_spectrum/src/laqc_spectrum.py:441 | `int()` of the written header line gives back the number of structures, through the `ljust` padding and the newline |
| Dataset.CountsRoundTrip | laqc_spectrum/src/laqc_spectrum.py:443 | for a non-empty list, `[int(i) for i in line.split(" ")]` of the written counts line gives back the counts |
| Dataset.RecordRoundTrip | laqc_spectrum/src/laqc_spectrum.py:450-457 | a written record line whose fields hold no space and no line break reads back as its two fields stripped, or is skipped as blank when both fields are blank |
| Dataset.ParseAllValues | laqc_spectrum/src/laqc_spectrum.py:443 | the list comprehension succeeds if and only if every piece parses, and then element `k` is the value of piece `k` |
| Dataset.Max | laqc_spectrum/src/laqc_spectrum.py:445 | `max(n_valor)` is an upper bound of the counts and is one of them |
| Dataset.RecordFields | laqc_spectrum/src/laqc_spectrum.py:451-457 | a line is skipped if and only if it is all whitespace; otherwise it yields two fields, or raises IndexError when it has no double space |
| Dataset.Load | laqc_spectrum/src/laqc_spectrum.py:439-457 | a loaded table has `max(0, m)` rows of width `max(n)`, and at least as many counts as rows, each at most the width |
| Dataset.ReadDataset | laqc_spectrum/src/laqc_spectrum.py:439-457 | the reader succeeds if and only if `Load` does, and then returns its `m`, `n` and every cell of its two tables (line 555-569 is the same reader in `fit_lorentzian`) |
| Dataset.ReadTables | laqc_spectrum/src/laqc_spectrum.py:449-457 | the `j` loop succeeds if and only if every structure's records are readable, and fills every row to the full width |
| Dataset.ReadStructure | laqc_spectrum/src/laqc_spectrum.py:450-457 | the `i` loop of structure `j` succeeds if and only if none of its slot lines raises, and then it ends at the first line of structure `j+1` |
| Dataset.RoundTrip | laqc_spectrum/src/laqc_spectrum.py:320-336 | with at least one count, at most as many structures as counts, and records whose fields hold no space and no line break, the written file loads. Each structure gets its own records, read back, followed by `0.0` defaults (read at lines 439-457) |
| Dataset.EmptyCorpusUnreadable | laqc_spectrum/src/laqc_spectrum.py:328-330 | with no log file the counts line is `"\n"`, whose `int()` raises, so the reader fails (line 443) |
| Spectrum.StructureIntensity | laqc_spectrum/src/laqc_spectrum.py:462-467 | the `i` loop returns the kernel summed over the `n[j]` states of structure `j` in arithmetic mode, and `0.0` otherwise |
| Spectrum.Record | laqc_spectrum/src/laqc_spectrum.py:471-477 | one grid step appends `(nm, spectrum)` to the rows, and adds `spectrum` to `average[nm]` or inserts it, appending a new key at the end of the key order |
| Spectrum.AddStructure | laqc_spectrum/src/laqc_spectrum.py:461-479 | the grid loop of structure `j` appends that structure's rows and keeps every `average[k]` equal to the total of the rows of wavenumber `k` |
| Spectrum.Synthesize | laqc_spectrum/src/laqc_spectrum.py:460-488 | the rows are `SpectrumRows`. The keys are the distinct wavenumbers in first-seen order. `average[k]` is the total of the rows at `k`, divided by `m_valor` in arithmetic mode (lines 572-596 for `fit_lorentzian`) |
| Spectrum.Rescale | laqc_spectrum/src/laqc_spectrum.py:486-488 | every value of `average` is divided by `m_valor`, and the key set is unchanged |
| Spectrum.Distinct | laqc_spectrum/src/laqc_spectrum.py:474-477 | the dictionary's keys have no duplicates and are exactly the wavenumbers seen |
| Spectrum.SpectrumShape | laqc_spectrum/src/laqc_spectrum.py:460-471 | with `G` grid points there are `m*G` rows, and row `s*G+g` is `(grid[g], intensity of structure s at grid[g])` |
| Spectrum.SilentMode | laqc_spectrum/src/laqc_spectrum.py:463-467 | outside arithmetic mode every recorded spectrum value is `0.0` |
| Spectrum.SpectrumKeys | laqc_spectrum/src/laqc_spectrum.py:474-477 | the dictionary's keys are the distinct grid points in first-seen order when there is at least one structure, and there are none otherwise |
| Spectrum.SpectrumTotals | laqc_spectrum/src/laqc_spectrum.py:474-477 | the total at `k` is (occurrences of `k` in the grid) times the sum over structures of their intensity at `k` |
| Spectrum.SpectrumCounts | laqc_spectrum/src/laqc_spectrum.py:521-529 | the number of rows at `k` is `m` times the occurrences of `k` in the grid |
| Spectrum.CompoundedAverage | laqc_spectrum/src/laqc_spectrum.py:474-488 | in arithmetic mode the average at `k` is (occurrences of `k`) times the sum of the structures' intensities, divided by `m`. |
| Spectrum.Deviation | laqc_spectrum/src/laqc_spectrum.py:526-528 | the accumulated sum of squares is never negative |
| Spectrum.DispersionCounts | laqc_spectrum/src/laqc_spectrum.py:521-530 | for every averaged wavenumber, `qtde` is `m` times its grid occurrences. In particular it is at least 1, so `diferenca/qtde` is defined |
| Spectrum.Fit | laqc_spectrum/src/laqc_spectrum.py:460-502 | the rows, keys and averages are those of `Synthesize`, and `calcula_dp_erro` is applied to `medias_spectrum` in key order. Each key's spread has a non-negative sum of squares about its average and a count of `m` times its grid occurrences, so at least 1 |
| Spectrum.Dispersion | laqc_spectrum/src/laqc_spectrum.py:511-530 | for each mean, in order, gives its wavenumber, the sum of squared differences from the rows at that wavenumber, and their number |
| Pipeline.CaptureWritable | laqc_spectrum/src/laqc_spectrum.py:304-315 | the fields captured from a stripped line are free of spaces and of line breaks, since tokens never contain a space, no piece of a split gains a character, and `replace` adds none (lines 388-392 for Gaussian) |
| Pipeline.CorpusWritable | laqc_spectrum/src/laqc_spectrum.py:286-318 | every record extracted from logs read as text lines is free of spaces and of line breaks, so every written record is one line of `input.dat` |
| Pipeline.ExtractedDatasetReads | laqc_spectrum/src/laqc_spectrum.py:320-336 | the `input.dat` written from a successful extraction of at least one log read as text lines loads with `m` = the number of files and `n` = the counts. Slot `(j, i)` holds record `i` of file `j` as the reader sees it (lines 439-457) |
| Pipeline.LoadedRunValid | laqc_spectrum/src/laqc_spectrum.py:445-467 | every table the reader loads is a valid input for the spectrum loops: enough counts, and every indexed slot exists |
| PyStr.Strip | laqc_spectrum/src/laqc_spectrum.py:294 | `strip()` is empty if and only if the text is all whitespace, and otherwise starts and ends with a non-space |
| PyStr.StripLine | laqc_spectrum/src/laqc_spectrum.py:294 | `strip()` of a text-file line leaves no line break, since the terminator is its last character and is whitespace |
| PyStr.TokensAreWords | laqc_spectrum/src/laqc_spectrum.py:305-307 | the non-empty pieces of `split(" ")` are non-empty and contain no space |
| PyStr.SplitTokens | laqc_spectrum/src/laqc_spectrum.py:305-307 | the `resto` loop gives exactly the non-empty pieces of `split(" ")` |
| PyStr.SplitJoin | laqc_spectrum/src/laqc_spectrum.py:328-330 | splitting a join of separator-free words gives back the words |
| PyStr.PyInt | laqc_spectrum/src/laqc_spectrum.py:441 | `int()` of a string succeeds if and only if the stripped text is an optional sign followed by ASCII digits, with single underscores between digits |
| PyStr.PyIntOfNat | laqc_spectrum/src/laqc_spectrum.py:324-325 | `int()` of `str(n)` followed by whitespace gives back `n` |
| PyStr.LJust | laqc_spectrum/src/laqc_spectrum.py:325 | `ljust` keeps the text as a prefix, pads with spaces to the width, and never truncates |
| PyStr.RemoveAll | laqc_spectrum/src/laqc_spectrum.py:392 | `replace(pat, "")` never lengthens the text and leaves it unchanged when the pattern does not occur |
| PyStr.RemoveAllFree | laqc_spectrum/src/laqc_spectrum.py:392 | `replace` introduces no character the text did not contain |

## Left out

- File I/O, and the `OSError` handlers: files are given as sequences of lines, and the output files are not produced.
- Directory listing in `get_arquivos` and `get_arquivos_gaussian`: the candidate logs are a parameter, in the order `iterdir` would give them.
- The interactive prompts and menus, and `main`: they only choose the stage and its parameters.
- `float()` conversion: fields stay as stripped text, and the kernel receives them as values of a type parameter. The `ValueError` that `float()` raises on a non-numeric field is not modelled. `fit_gaussian` would let it escape, and `fit_lorentzian` would catch it at line 605.
- Dataset.ReadDataset: succeeds on some files where the real reader would raise `ValueError` in `float()`, because of the item above.
- The Gaussian and Lorentzian kernel formulas and the constants `A`, `FACT1`, `FACT2`, `SIGMA`: the kernel is an abstract function of (strength, wavelength, wavenumber). The `ZeroDivisionError` handler therefore has no counterpart.
- Floating-point rounding: sums and quotients are over exact reals, in the order the loops perform them.
- The `np.arange` grid construction: the wavenumber grid is a parameter.
- Output formatting: `spectrum_gaussian.dat`, `spectrum_lorentzian.dat`, `average_spectrum.dat` and `average.dat` lines with their blank separators, and the `np.savetxt` files. What they would contain is the rows and averages the model computes.
- Spectrum.Synthesize: compares `type_of_average` with "aritmética" once, as a boolean of the run, instead of at every state. The test has the same value each time.
- Spectrum.Dispersion: returns `diferenca` and `qtde` for every mean instead of the quotient. As written, line 530 raises `TypeError` in the first iteration, right after the first key's `diferenca/qtde`, and `calcula_dp_erro` would return nothing even without that. The model gives what the loop evidently intends for every key. Spectrum.DispersionCounts shows the quotient is defined.
- Spectrum.Fit: models `fit_gaussian`'s steps after reading. `fit_lorentzian` has no dispersion step, and its synthesis is Spectrum.Synthesize.
- PyStr.PyInt: accepts only ASCII digits, where Python's `int()` also accepts the other Unicode decimal digits (such as `"٣"` or fullwidth digits). It also accepts any number of digits, where CPython 3.11 and later raise `ValueError` above 4300. So an ORCA section row whose first token is a non-ASCII numeral is skipped by the model, though the program captures it or, when it is short, raises. Reading the header and counts lines (lines 441 and 443) differs the same way.
- Dataset.RoundTrip: holds for records whose fields hold no space and no line break. Pipeline.CorpusWritable shows every extracted record is such a record when the logs are read as text lines, each with a line break only at its end.
