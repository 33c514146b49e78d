/**
 * input.dat, the file the extractors of laqc_spectrum.py write and the
 * fitting routines read back.
 *
 * A file is the sequence of its lines, each with its "\n"; reading a line
 * past the end gives "" as readline() does. The writer puts the structure
 * count, left-justified to width 4, then the per-structure counts joined by
 * " ", then one "wavelength  strength" line per record. The reader takes the
 * two counts with int(), then for structure j reads n[j] lines into row j of
 * two preallocated tables; a blank line leaves the slot at its default.
 * Fields stay text: float() of a field is modelled as the field stripped.
 */
module Dataset {
  import opened PyStr
  import opened Grouping

  /** What an unread slot of the reader's tables holds ([0.0] * maxn). */
  const DEFAULT := "0.0"

  /** f"{m:<4d}\n" */
  function HeaderLine(m: nat): string
  {
    LJust(NatToString(m), 4) + "\n"
  }

  /** str() of each count. */
  function CountStrings(counts: seq<nat>): (r: seq<string>)
    ensures |r| == |counts|
    ensures forall k :: 0 <= k < |counts| ==> r[k] == NatToString(counts[k])
  {
    seq(|counts|, k requires 0 <= k < |counts| => NatToString(counts[k]))
  }

  /** " ".join(str(i) for i in counts) + "\n" */
  function CountsLine(counts: seq<nat>): string
  {
    Join(CountStrings(counts), " ") + "\n"
  }

  /** "  ".join(item) + "\n" for a record [wavelength, strength]. */
  function RecordLine(rec: (string, string)): string
  {
    rec.0 + "  " + rec.1 + "\n"
  }

  /** The lines the writer produces for `m` structures, their counts and the flattened records. */
  function DatasetFile(m: nat, counts: seq<nat>, records: seq<(string, string)>): seq<string>
    decreases |records|
  {
    if records == [] then [HeaderLine(m), CountsLine(counts)]
    else DatasetFile(m, counts, records[..|records| - 1]) + [RecordLine(records[|records| - 1])]
  }

  /** The writer: the two count lines, then one line per record, in record order. */
  method WriteDataset(m: nat, counts: seq<nat>, records: seq<(string, string)>) returns (lines: seq<string>)
    ensures lines == DatasetFile(m, counts, records)
  {
    lines := [HeaderLine(m), CountsLine(counts)];
    for k := 0 to |records|
      invariant lines == DatasetFile(m, counts, records[..k])
    {
      assert records[..k + 1][..k] == records[..k];
      lines := lines + [RecordLine(records[k])];
    }
    assert records[..|records|] == records;
  }

  /** Where the writer puts everything: line 0 the structure count, line 1 the counts, line 2 + k record k. */
  lemma {:induction false} DatasetLayout(m: nat, counts: seq<nat>, records: seq<(string, string)>)
    ensures |DatasetFile(m, counts, records)| == |records| + 2
    ensures DatasetFile(m, counts, records)[0] == HeaderLine(m)
    ensures DatasetFile(m, counts, records)[1] == CountsLine(counts)
    ensures forall k :: 0 <= k < |records| ==> DatasetFile(m, counts, records)[2 + k] == RecordLine(records[k])
    decreases |records|
  {
    if records != [] {
      var init := records[..|records| - 1];
      DatasetLayout(m, counts, init);
      assert forall k :: 0 <= k < |init| ==> init[k] == records[k];
    }
  }

  /** f_input.readline() on line k: the line, or "" past the end. */
  function LineAt(lines: seq<string>, k: nat): string
  {
    if k < |lines| then lines[k] else ""
  }

  /** [parse(i) for i in pieces]: all the values, or None where one parse fails. */
  function ParseAll(parse: string -> Option<int>, pieces: seq<string>): (r: Option<seq<int>>)
    ensures r.Some? ==> |r.value| == |pieces|
    decreases |pieces|
  {
    if pieces == [] then Some([])
    else
      match parse(pieces[0])
      case None => None
      case Some(v) =>
        match ParseAll(parse, pieces[1..])
        case None => None
        case Some(vs) => Some([v] + vs)
  }

  /** The list comprehension succeeds exactly when every parse does, and then holds their values in order. */
  lemma {:induction false} ParseAllValues(parse: string -> Option<int>, pieces: seq<string>)
    ensures ParseAll(parse, pieces).Some? <==> forall k :: 0 <= k < |pieces| ==> parse(pieces[k]).Some?
    ensures ParseAll(parse, pieces).Some? ==>
              forall k :: 0 <= k < |pieces| ==> Some(ParseAll(parse, pieces).value[k]) == parse(pieces[k])
    decreases |pieces|
  {
    if pieces != [] {
      ParseAllValues(parse, pieces[1..]);
      assert forall k :: 1 <= k < |pieces| ==> pieces[1..][k - 1] == pieces[k];
    }
  }

  /** The counts line: [int(i) for i in line.split(" ")]. */
  function ParseCounts(line: string): (r: Option<seq<int>>)
    ensures r.Some? ==> r.value != []
  {
    ParseAll(PyInt, Split(line, " "))
  }

  /** max(n) */
  function Max(n: seq<int>): (r: int)
    requires n != []
    ensures forall k :: 0 <= k < |n| ==> n[k] <= r
    ensures exists k :: 0 <= k < |n| && n[k] == r
    decreases |n|
  {
    if |n| == 1 then n[0]
    else
      var r := Max(n[1..]);
      assert forall k :: 1 <= k < |n| ==> n[1..][k - 1] == n[k];
      if n[0] >= r then n[0] else r
  }

  /** How a record line reads: blank, its two fields, or too few fields (IndexError on values[1]). */
  datatype Fields = Blank | Values(wavelength: string, strength: string) | Short

  /** values = read_line.split("  "), taken only when the stripped line is not empty. */
  function RecordFields(line: string): (r: Fields)
    ensures r.Blank? <==> AllSpace(line)
  {
    if Strip(line) == [] then Blank
    else
      var values := Split(line, "  ");
      if |values| < 2 then Short else Values(Strip(values[0]), Strip(values[1]))
  }

  /** The reading of every line of the file, in order. */
  function LineFields(lines: seq<string>): (fields: seq<Fields>)
    ensures |fields| == |lines|
    ensures forall k {:trigger RecordFields(lines[k])} :: 0 <= k < |lines| ==> fields[k] == RecordFields(lines[k])
    decreases |lines|
  {
    if lines == [] then []
    else
      var rest := LineFields(lines[1..]);
      assert forall k :: 1 <= k < |lines| ==> lines[1..][k - 1] == lines[k] && RecordFields(lines[1..][k - 1]) == rest[k - 1];
      [RecordFields(lines[0])] + rest
  }

  /** The reading of line k; past the end readline() gives "", a blank line. */
  function FieldAt(fields: seq<Fields>, k: nat): Fields
  {
    if k < |fields| then fields[k] else Blank
  }

  /** What the reader finds for slot i of structure j: line 2 + n[0] + ... + n[j - 1] + i when i < n[j]. */
  function Slot(fields: seq<Fields>, n: seq<int>, j: int, i: int): Fields
  {
    if 0 <= j < |n| && 0 <= i < n[j] then FieldAt(fields, 2 + Offset(n, j) + i) else Blank
  }

  /** The (eigenvalue, strength) pair a slot ends with: the fields read, or the defaults it started with. */
  function CellOf(f: Fields): (string, string)
  {
    match f
    case Values(w, s) => (w, s)
    case _ => (DEFAULT, DEFAULT)
  }

  /** The pair slot i of structure j ends with. */
  function Cell(fields: seq<Fields>, n: seq<int>, j: int, i: int): (string, string)
  {
    CellOf(Slot(fields, n, j, i))
  }

  /** No line the reader takes for the first `rows` structures is too short. */
  predicate Readable(fields: seq<Fields>, n: seq<int>, rows: nat)
    requires rows <= |n|
  {
    forall j, i :: 0 <= j < rows && 0 <= i < n[j] ==> !Slot(fields, n, j, i).Short?
  }

  /** What the reader loads: both counts and the m tables' rows, max(n) slots wide. */
  datatype Table = Table(m: int, n: seq<int>, width: nat, slots: seq<seq<(string, string)>>)

  /** The width of both tables: max(n), or 0 where [0.0] * max(n) is empty. */
  function Width(n: seq<int>): nat
    requires n != []
  {
    if Max(n) > 0 then Max(n) else 0
  }

  /** The `rows` by `width` table of the cells the reader ends with. */
  function Grid(fields: seq<Fields>, n: seq<int>, rows: nat, width: nat): (g: seq<seq<(string, string)>>)
    ensures |g| == rows && forall j :: 0 <= j < rows ==> |g[j]| == width
  {
    seq(rows, j => seq(width, i => Cell(fields, n, j, i)))
  }

  /** The reader as a function: the loaded table, or None where int() fails or an IndexError is raised. */
  function Load(lines: seq<string>): (r: Option<Table>)
    ensures r.Some? ==> |r.value.slots| == Rows(r.value.m)
    ensures r.Some? ==> forall j :: 0 <= j < |r.value.slots| ==> |r.value.slots[j]| == r.value.width
    ensures r.Some? ==> Rows(r.value.m) <= |r.value.n|
    ensures r.Some? ==> forall j :: 0 <= j < |r.value.n| ==> r.value.n[j] <= r.value.width
  {
    match PyInt(LineAt(lines, 0))
    case None => None
    case Some(m) =>
      match ParseCounts(LineAt(lines, 1))
      case None => None
      case Some(n) =>
        var fields := LineFields(lines);
        if Rows(m) > |n| || !Readable(fields, n, Rows(m)) then None
        else Some(Table(m, n, Width(n), Grid(fields, n, Rows(m), Width(n))))
  }

  /**
   * The reader of fit_gaussian / fit_lorentzian: the two counts, then n[j]
   * lines into row j of the eigenvalue and strength tables.
   */
  method ReadDataset(lines: seq<string>)
    returns (ok: bool, m: int, n: seq<int>, eigenvalue: seq<seq<string>>, strength: seq<seq<string>>)
    ensures ok <==> Load(lines).Some?
    ensures ok ==> var t := Load(lines).value;
      && m == t.m && n == t.n
      && |eigenvalue| == |t.slots| && |strength| == |t.slots|
      && forall j :: 0 <= j < |t.slots| ==>
           && |eigenvalue[j]| == t.width && |strength[j]| == t.width
           && forall i :: 0 <= i < t.width ==> eigenvalue[j][i] == t.slots[j][i].0 && strength[j][i] == t.slots[j][i].1
  {
    eigenvalue, strength := [], [];
    m, n := 0, [];
    var mValor := PyInt(LineAt(lines, 0));
    if mValor.None? {
      return false, m, n, eigenvalue, strength;
    }
    var nValor := ParseCounts(LineAt(lines, 1));
    if nValor.None? {
      return false, m, n, eigenvalue, strength;
    }
    m, n := mValor.value, nValor.value;
    var maxn := Max(n);
    var width := if maxn > 0 then maxn else 0;
    ok, eigenvalue, strength := ReadTables(lines, LineFields(lines), n, Rows(m), width);
  }

  /** for j in range(0, m): the tables, both `rows` by `width`, filled structure by structure. */
  method ReadTables(lines: seq<string>, ghost fields: seq<Fields>, n: seq<int>, rows: nat, width: nat)
    returns (ok: bool, eigenvalue: seq<seq<string>>, strength: seq<seq<string>>)
    requires |fields| == |lines|
    requires forall k {:trigger RecordFields(lines[k])} :: 0 <= k < |lines| ==> fields[k] == RecordFields(lines[k])
    requires forall j :: 0 <= j < |n| ==> n[j] <= width
    ensures ok <==> rows <= |n| && Readable(fields, n, rows)
    ensures ok ==> |eigenvalue| == rows && |strength| == rows
    ensures ok ==> forall j :: 0 <= j < rows ==>
      && |eigenvalue[j]| == width && |strength[j]| == width
      && forall i :: 0 <= i < width ==> eigenvalue[j][i] == Cell(fields, n, j, i).0 && strength[j][i] == Cell(fields, n, j, i).1
  {
    var blank := seq(width, _ => DEFAULT);
    eigenvalue := seq(rows, _ => blank);
    strength := seq(rows, _ => blank);
    var pos := 2;
    var j := 0;
    while j < rows
      invariant 0 <= j <= rows && j <= |n|
      invariant pos == 2 + Offset(n, j)
      invariant Readable(fields, n, j)
      invariant |eigenvalue| == rows && |strength| == rows
      invariant forall j' :: 0 <= j' < rows ==> |eigenvalue[j']| == width && |strength[j']| == width
      invariant forall j', i' :: 0 <= j' < j && 0 <= i' < width ==>
        eigenvalue[j'][i'] == Cell(fields, n, j', i').0 && strength[j'][i'] == Cell(fields, n, j', i').1
    {
      if j >= |n| {
        return false, eigenvalue, strength;
      }
      var rowOk, eigenRow, strengthRow;
      rowOk, pos, eigenRow, strengthRow := ReadStructure(lines, fields, n, j, pos, width);
      if !rowOk {
        return false, eigenvalue, strength;
      }
      eigenvalue := eigenvalue[j := eigenRow];
      strength := strength[j := strengthRow];
      j := j + 1;
    }
    ok := true;
  }

  /** The n[j] reads for structure j, from line `pos` on, into row j of both tables, `width` defaults to start with. */
  method ReadStructure(lines: seq<string>, ghost fields: seq<Fields>, n: seq<int>, j: nat, pos: nat, width: nat)
    returns (ok: bool, next: nat, eigenRow: seq<string>, strengthRow: seq<string>)
    requires |fields| == |lines|
    requires forall k {:trigger RecordFields(lines[k])} :: 0 <= k < |lines| ==> fields[k] == RecordFields(lines[k])
    requires j < |n| && n[j] <= width
    requires pos == 2 + Offset(n, j)
    ensures ok <==> forall i :: 0 <= i < n[j] ==> !Slot(fields, n, j, i).Short?
    ensures ok ==> next == 2 + Offset(n, j + 1)
    ensures ok ==> |eigenRow| == width && |strengthRow| == width
    ensures ok ==> forall i :: 0 <= i < width ==> eigenRow[i] == Cell(fields, n, j, i).0 && strengthRow[i] == Cell(fields, n, j, i).1
  {
    eigenRow := seq(width, _ => DEFAULT);
    strengthRow := eigenRow;
    next := pos;
    var i := 0;
    while i < n[j]
      invariant 0 <= i && (i <= n[j] || i == 0)
      invariant next == 2 + Offset(n, j) + i
      invariant forall i' :: 0 <= i' < i ==> !Slot(fields, n, j, i').Short?
      invariant |eigenRow| == width && |strengthRow| == width
      invariant forall i' :: 0 <= i' < width ==>
        eigenRow[i'] == (if i' < i then Cell(fields, n, j, i').0 else DEFAULT)
        && strengthRow[i'] == (if i' < i then Cell(fields, n, j, i').1 else DEFAULT)
    {
      var f := ReadLine(lines, fields, next);
      assert f == Slot(fields, n, j, i);
      next := next + 1;
      match f {
        case Short =>
          return false, next, eigenRow, strengthRow;
        case Values(w, s) =>
          eigenRow := eigenRow[i := w];
          strengthRow := strengthRow[i := s];
        case Blank =>
      }
      i := i + 1;
    }
    ok := true;
  }

  /** read_line = f_input.readline() on line k, and its split, as the reader does them. */
  method ReadLine(lines: seq<string>, ghost fields: seq<Fields>, k: nat) returns (f: Fields)
    requires |fields| == |lines|
    requires forall k {:trigger RecordFields(lines[k])} :: 0 <= k < |lines| ==> fields[k] == RecordFields(lines[k])
    ensures f == FieldAt(fields, k)
  {
    var readLine := LineAt(lines, k);
    if k < |lines| {
      assert fields[k] == RecordFields(lines[k]);
    }
    if Strip(readLine) == [] {
      return Blank;
    }
    var values := Split(readLine, "  ");
    if |values| < 2 {
      return Short;
    }
    f := Values(Strip(values[0]), Strip(values[1]));
  }

  /** The structure count reads back: int() of the left-justified count. */
  lemma HeaderRoundTrip(m: nat)
    ensures PyInt(HeaderLine(m)) == Some(m)
  {
    var d := NatToString(m);
    var r := LJust(d, 4);
    var pad := r[|d|..] + "\n";
    assert r == d + r[|d|..];
    assert HeaderLine(m) == d + pad;
    assert AllSpace(pad) by {
      forall i | 0 <= i < |pad| ensures IsSpace(pad[i]) {
        if i < |r| - |d| { assert pad[i] == r[|d| + i]; }
      }
    }
    PyIntOfNat(m, pad);
  }

  /** The per-structure counts read back, provided there is at least one (int() of an empty piece fails). */
  lemma CountsRoundTrip(counts: seq<nat>)
    requires counts != []
    ensures ParseCounts(CountsLine(counts)) == Some(counts)
  {
    var xs := CountStrings(counts);
    SplitJoin(xs, ' ', "\n");
    var pieces := Split(CountsLine(counts), " ");
    assert pieces == xs[..|xs| - 1] + [xs[|xs| - 1] + "\n"];
    forall k | 0 <= k < |pieces| ensures PyInt(pieces[k]) == Some(counts[k] as int) {
      if k < |xs| - 1 {
        assert pieces[k] == NatToString(counts[k]) + "";
        PyIntOfNat(counts[k], "");
      } else {
        assert pieces[k] == NatToString(counts[k]) + "\n";
        PyIntOfNat(counts[k], "\n");
      }
    }
    ParseAllValues(PyInt, pieces);
    var r := ParseCounts(CountsLine(counts));
    assert r.Some?;
    assert r.value == counts;
  }

  /** A record both of whose fields are free of spaces, as the extractors' tokens are. */
  predicate Writable(rec: (string, string))
  {
    && (forall i :: 0 <= i < |rec.0| ==> rec.0[i] != ' ')
    && (forall i :: 0 <= i < |rec.1| ==> rec.1[i] != ' ')
    && NoBreak(rec.0) && NoBreak(rec.1)
  }

  /** How a written record line reads: blank when both fields are, else both fields stripped. */
  function Expected(rec: (string, string)): Fields
  {
    if AllSpace(rec.0) && AllSpace(rec.1) then Blank else Values(Strip(rec.0), Strip(rec.1))
  }

  /** What the reader makes of a written record: both fields stripped, or the defaults for an all-blank line. */
  function Reading(rec: (string, string)): (string, string)
  {
    CellOf(Expected(rec))
  }

  /** A written record line splits at its double space into the first field and the second with its newline. */
  lemma RecordSplit(rec: (string, string))
    requires Writable(rec)
    ensures Split(RecordLine(rec), "  ") == [rec.0, rec.1 + "\n"]
  {
    var (w, f) := rec;
    var tail := "  " + f + "\n";
    assert RecordLine(rec) == w + tail;
    SplitWord(w, tail, "  ");
    StartsWithSlice(tail, "  ");
    assert tail[..2] == "  " && tail[2..] == f + "\n";
    var g := f + "\n";
    assert forall i :: 0 <= i < |g| ==> g[i] != ' ' by {
      forall i | 0 <= i < |g| ensures g[i] != ' ' {
        if i < |f| { assert g[i] == f[i]; }
      }
    }
    SplitWord(g, [], "  ");
    assert g + [] == g;
    assert Split(tail, "  ") == [[], g];
    assert w + [] == w;
  }

  /** A written record line is blank exactly when both its fields are. */
  lemma RecordBlank(rec: (string, string))
    ensures AllSpace(RecordLine(rec)) <==> AllSpace(rec.0) && AllSpace(rec.1)
  {
    var (w, f) := rec;
    var line := RecordLine(rec);
    assert |line| == |w| + 2 + |f| + 1;
    if AllSpace(w) && AllSpace(f) {
      forall i | 0 <= i < |line| ensures IsSpace(line[i]) {
        if i < |w| { assert line[i] == w[i]; }
        else if i < |w| + 2 { assert line[i] == ' '; }
        else if i < |w| + 2 + |f| { assert line[i] == f[i - |w| - 2]; }
        else { assert line[i] == '\n'; }
      }
    } else if !AllSpace(w) {
      var i :| 0 <= i < |w| && !IsSpace(w[i]);
      assert line[i] == w[i];
    } else {
      var i :| 0 <= i < |f| && !IsSpace(f[i]);
      assert line[|w| + 2 + i] == f[i];
    }
  }

  /** A written record line reads back as its two fields, stripped, or as a blank line. */
  lemma RecordRoundTrip(rec: (string, string))
    requires Writable(rec)
    ensures RecordFields(RecordLine(rec)) == Expected(rec)
  {
    RecordSplit(rec);
    RecordBlank(rec);
    StripPad(rec.1, "\n");
  }

  /** Lines 2, 3, ... of a file are the lines of the records, in order. */
  predicate HoldsRecords(lines: seq<string>, records: seq<(string, string)>)
  {
    |lines| == |records| + 2 && forall k :: 0 <= k < |records| ==> lines[2 + k] == RecordLine(records[k])
  }

  /** Slot i of structure j of a written file is record n[0] + ... + n[j - 1] + i, when there is one. */
  lemma WrittenSlot(lines: seq<string>, m: nat, counts: seq<nat>, records: seq<(string, string)>, j: nat, i: nat)
    requires HoldsRecords(lines, records)
    requires m <= |counts| && Offset(counts, m) <= |records|
    requires forall k :: 0 <= k < |records| ==> Writable(records[k])
    requires j < m && i < counts[j]
    ensures Offset(counts, j) + i < |records|
    ensures Slot(LineFields(lines), counts, j, i) == Expected(records[Offset(counts, j) + i])
  {
    OffsetMonotone(counts, j, m);
    WrittenLine(lines, records, Offset(counts, j) + i);
  }

  /** The line of record k reads as that record. */
  lemma WrittenLine(lines: seq<string>, records: seq<(string, string)>, k: nat)
    requires HoldsRecords(lines, records) && k < |records| && Writable(records[k])
    ensures 2 + k < |LineFields(lines)| && LineFields(lines)[2 + k] == Expected(records[k])
  {
    assert lines[2 + k] == RecordLine(records[k]);
    assert LineFields(lines)[2 + k] == RecordFields(lines[2 + k]);
    RecordRoundTrip(records[k]);
  }

  /** The two count lines of a written file read back. */
  lemma WrittenCounts(m: nat, counts: seq<nat>, records: seq<(string, string)>)
    requires counts != []
    ensures PyInt(LineAt(DatasetFile(m, counts, records), 0)) == Some(m)
    ensures ParseCounts(LineAt(DatasetFile(m, counts, records), 1)) == Some(counts)
  {
    DatasetLayout(m, counts, records);
    HeaderRoundTrip(m);
    CountsRoundTrip(counts);
  }

  /** The reader loads a file once both counts parse and every line it takes has two fields or none. */
  lemma LoadReadable(lines: seq<string>, m: int, n: seq<int>)
    requires PyInt(LineAt(lines, 0)) == Some(m) && ParseCounts(LineAt(lines, 1)) == Some(n)
    requires Rows(m) <= |n| && Readable(LineFields(lines), n, Rows(m))
    ensures Load(lines) == Some(Table(m, n, Width(n), Grid(LineFields(lines), n, Rows(m), Width(n))))
  {
  }

  /** Cell i of row j of the grid. */
  lemma GridAt(fields: seq<Fields>, n: seq<int>, rows: nat, width: nat, j: nat, i: nat)
    requires j < rows && i < width
    ensures Grid(fields, n, rows, width)[j][i] == Cell(fields, n, j, i)
  {
  }

  /** Slot i of structure j reads as record n[0] + ... + n[j - 1] + i. */
  predicate SlotReads(fields: seq<Fields>, counts: seq<nat>, records: seq<(string, string)>, j: nat, i: nat)
    requires j < |counts|
  {
    Offset(counts, j) + i < |records| && Slot(fields, counts, j, i) == Expected(records[Offset(counts, j) + i])
  }

  /** Every slot the reader takes for the first m structures reads as its record. */
  predicate SlotsHold(fields: seq<Fields>, m: nat, counts: seq<nat>, records: seq<(string, string)>)
    requires m <= |counts|
  {
    forall j, i :: 0 <= j < m && 0 <= i < counts[j] ==> SlotReads(fields, counts, records, j, i)
  }

  /** Row j of a grid whose slots read as given records: their readings, then the defaults. */
  lemma GridRow(fields: seq<Fields>, m: nat, counts: seq<nat>, records: seq<(string, string)>, j: nat)
    requires counts != [] && m <= |counts| && Offset(counts, m) <= |records|
    requires SlotsHold(fields, m, counts, records)
    requires j < m
    ensures Offset(counts, j) + counts[j] <= |records| && counts[j] <= Width(counts)
    ensures forall i :: 0 <= i < counts[j] ==> Grid(fields, counts, m, Width(counts))[j][i] == Reading(records[Offset(counts, j) + i])
    ensures forall i :: counts[j] <= i < Width(counts) ==> Grid(fields, counts, m, Width(counts))[j][i] == (DEFAULT, DEFAULT)
  {
    OffsetMonotone(counts, j, m);
    assert counts[j] <= Max(counts);
    var g := Grid(fields, counts, m, Width(counts));
    forall i | 0 <= i < counts[j]
      ensures g[j][i] == Reading(records[Offset(counts, j) + i])
    {
      GridAt(fields, counts, m, Width(counts), j, i);
      assert SlotReads(fields, counts, records, j, i);
    }
    forall i | counts[j] <= i < Width(counts)
      ensures g[j][i] == (DEFAULT, DEFAULT)
    {
      GridAt(fields, counts, m, Width(counts), j, i);
    }
  }

  /** No slot is short when every slot reads as a record. */
  lemma ReadableRecords(fields: seq<Fields>, m: nat, counts: seq<nat>, records: seq<(string, string)>)
    requires m <= |counts|
    requires SlotsHold(fields, m, counts, records)
    ensures Readable(fields, counts, m)
  {
    forall j, i | 0 <= j < m && 0 <= i < counts[j]
      ensures !Slot(fields, counts, j, i).Short?
    {
      assert SlotReads(fields, counts, records, j, i);
    }
  }

  /**
   * A loaded table restores what was written: m structures with their counts,
   * row j holding in slot i the reading of record n[0] + ... + n[j - 1] + i
   * and the defaults past n[j].
   */
  predicate Restores(t: Table, m: nat, counts: seq<nat>, records: seq<(string, string)>)
  {
    && t.m == m && t.n == counts && counts != [] && t.width == Max(counts)
    && |t.slots| == m && m <= |counts|
    && forall j {:trigger t.slots[j]} :: 0 <= j < m ==>
         && |t.slots[j]| == t.width
         && Offset(counts, j) + counts[j] <= |records| && counts[j] <= t.width
         && (forall i :: 0 <= i < counts[j] ==> t.slots[j][i] == Reading(records[Offset(counts, j) + i]))
         && (forall i :: counts[j] <= i < t.width ==> t.slots[j][i] == (DEFAULT, DEFAULT))
  }

  /** The grid of a file whose record slots read as given records restores those records. */
  lemma GridRestores(fields: seq<Fields>, m: nat, counts: seq<nat>, records: seq<(string, string)>)
    requires counts != [] && m <= |counts| && Offset(counts, m) <= |records|
    requires SlotsHold(fields, m, counts, records)
    ensures Readable(fields, counts, m)
    ensures Restores(Table(m, counts, Width(counts), Grid(fields, counts, m, Width(counts))), m, counts, records)
  {
    ReadableRecords(fields, m, counts, records);
    var g := Grid(fields, counts, m, Width(counts));
    forall j | 0 <= j < m
      ensures Offset(counts, j) + counts[j] <= |records| && counts[j] <= Width(counts)
      ensures forall i :: 0 <= i < counts[j] ==> g[j][i] == Reading(records[Offset(counts, j) + i])
      ensures forall i :: counts[j] <= i < Width(counts) ==> g[j][i] == (DEFAULT, DEFAULT)
    {
      GridRow(fields, m, counts, records, j);
    }
  }

  /** A file whose counts parse and whose record slots read as given records loads those records back. */
  lemma LoadRestores(lines: seq<string>, m: nat, counts: seq<nat>, records: seq<(string, string)>)
    requires PyInt(LineAt(lines, 0)) == Some(m) && ParseCounts(LineAt(lines, 1)) == Some(counts)
    requires counts != [] && m <= |counts| && Offset(counts, m) <= |records|
    requires SlotsHold(LineFields(lines), m, counts, records)
    ensures Load(lines).Some?
    ensures Restores(Load(lines).value, m, counts, records)
  {
    GridRestores(LineFields(lines), m, counts, records);
    LoadReadable(lines, m, counts);
  }

  /** In a written file every slot the reader takes reads as its record. */
  lemma WrittenSlots(lines: seq<string>, m: nat, counts: seq<nat>, records: seq<(string, string)>)
    requires HoldsRecords(lines, records)
    requires m <= |counts| && Offset(counts, m) <= |records|
    requires forall k :: 0 <= k < |records| ==> Writable(records[k])
    ensures SlotsHold(LineFields(lines), m, counts, records)
  {
    forall j, i | 0 <= j < m && 0 <= i < counts[j]
      ensures SlotReads(LineFields(lines), counts, records, j, i)
    {
      WrittenSlot(lines, m, counts, records, j, i);
    }
  }

  /** What the writer puts down the reader loads back, for records whose fields hold no space. */
  lemma RoundTrip(m: nat, counts: seq<nat>, records: seq<(string, string)>)
    requires counts != [] && m <= |counts| && Offset(counts, m) <= |records|
    requires forall k :: 0 <= k < |records| ==> Writable(records[k])
    ensures Load(DatasetFile(m, counts, records)).Some?
    ensures Restores(Load(DatasetFile(m, counts, records)).value, m, counts, records)
  {
    DatasetLayout(m, counts, records);
    WrittenCounts(m, counts, records);
    WrittenSlots(DatasetFile(m, counts, records), m, counts, records);
    LoadRestores(DatasetFile(m, counts, records), m, counts, records);
  }

  /** With no structure at all, the counts line is empty and int() of it fails. */
  lemma EmptyCorpusUnreadable(m: nat, records: seq<(string, string)>)
    ensures Load(DatasetFile(m, [], records)) == None
  {
    DatasetLayout(m, [], records);
    var line := CountsLine([]);
    assert line == "\n";
    assert Split(line, " ") == ["\n"] by {
      SplitWord(line, [], " ");
      assert line + [] == line;
    }
    assert !IsPyIntLiteral("\n") by {
      assert Strip("\n") == [];
    }
  }
}
