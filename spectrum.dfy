/**
 * The synthesis stage of fit_gaussian and fit_lorentzian. For every structure
 * and every wavenumber of the grid the intensity is a line-shape kernel summed
 * over that structure's excited states. The (wavenumber, intensity) rows are
 * recorded in order and summed per wavenumber into an insertion-ordered
 * dictionary, which the arithmetic mode then divides by the number of
 * structures. calcula_dp_erro scans the rows once per mean.
 *
 * The kernel (the Gaussian or the Lorentzian formula over floats) is a
 * parameter; sums are over the reals.
 */
module Spectrum {
  import opened Grouping

  /** The only averaging mode in which the kernel is summed and the averages divided. */
  const ARITHMETIC := "aritmética"

  /**
   * What the synthesis reads: whether the averaging mode is the arithmetic
   * one (type_of_average == ARITHMETIC, tested afresh in each loop but never
   * changing), the wavenumber grid, the structure count m, the per-structure
   * counts n and the two tables the reader filled (wavelengths and
   * oscillator strengths).
   */
  datatype Run<T> = Run(arithmetic: bool, grid: seq<real>, m: int, n: seq<int>, eigenvalue: seq<seq<T>>, strength: seq<seq<T>>)

  /** Table row j holds the n[j] entries read for structure j. */
  predicate Holds<T>(table: seq<seq<T>>, n: seq<int>, j: nat)
    requires j < |n|
  {
    j < |table| && Rows(n[j]) <= |table[j]|
  }

  /**
   * What the synthesis loops demand: a count for every structure and, in the
   * arithmetic mode, both tables holding every entry the kernel reads.
   */
  predicate Valid<T>(run: Run<T>)
  {
    && Rows(run.m) <= |run.n|
    && (run.arithmetic ==>
          forall j :: 0 <= j < Rows(run.m) ==> Holds(run.eigenvalue, run.n, j) && Holds(run.strength, run.n, j))
  }

  /** The kernel summed over the first `count` excited states of structure j at wavenumber nm. */
  function KernelSum<T>(kernel: (T, T, real) -> real, run: Run<T>, j: nat, nm: real, count: nat): real
    requires j < |run.eigenvalue| && j < |run.strength|
    requires count <= |run.eigenvalue[j]| && count <= |run.strength[j]|
  {
    if count == 0 then 0.0
    else KernelSum(kernel, run, j, nm, count - 1) + kernel(run.strength[j][count - 1], run.eigenvalue[j][count - 1], nm)
  }

  /** The intensity of structure j at wavenumber nm: the kernel sum in the arithmetic mode, 0.0 otherwise. */
  function Intensity<T>(kernel: (T, T, real) -> real, run: Run<T>, j: nat, nm: real): real
    requires Valid(run) && j < Rows(run.m)
  {
    if run.arithmetic then
      assert Holds(run.eigenvalue, run.n, j) && Holds(run.strength, run.n, j);
      KernelSum(kernel, run, j, nm, Rows(run.n[j]))
    else 0.0
  }

  /** The rows structure j contributes over the wavenumbers `points`, in order. */
  function StructureRows<T>(kernel: (T, T, real) -> real, run: Run<T>, j: nat, points: seq<real>): (rows: seq<(real, real)>)
    requires Valid(run) && j < Rows(run.m)
    ensures |rows| == |points|
  {
    if points == [] then []
    else
      var nm := points[|points| - 1];
      StructureRows(kernel, run, j, points[..|points| - 1]) + [(nm, Intensity(kernel, run, j, nm))]
  }

  /** The rows of the first j structures, structure by structure, each over the whole grid. */
  function SpectrumRows<T>(kernel: (T, T, real) -> real, run: Run<T>, j: nat): seq<(real, real)>
    requires Valid(run) && j <= Rows(run.m)
  {
    if j == 0 then [] else SpectrumRows(kernel, run, j - 1) + StructureRows(kernel, run, j - 1, run.grid)
  }

  /** The intensities of the first j structures at wavenumber nm, added up. */
  function IntensitySum<T>(kernel: (T, T, real) -> real, run: Run<T>, j: nat, nm: real): real
    requires Valid(run) && j <= Rows(run.m)
  {
    if j == 0 then 0.0 else IntensitySum(kernel, run, j - 1, nm) + Intensity(kernel, run, j - 1, nm)
  }

  // The ordered dictionary and the quantities read off the rows

  /** The wavenumbers of the rows, in order. */
  function Wavenumbers(rows: seq<(real, real)>): seq<real>
  {
    seq(|rows|, t requires 0 <= t < |rows| => rows[t].0)
  }

  predicate NoDuplicates(xs: seq<real>)
  {
    forall a, b :: 0 <= a < b < |xs| ==> xs[a] != xs[b]
  }

  /** The distinct values of xs in the order they are first seen: the keys of a dict fed xs. */
  function Distinct(xs: seq<real>): (keys: seq<real>)
    ensures forall x :: x in keys <==> x in xs
    ensures NoDuplicates(keys)
  {
    if xs == [] then []
    else
      var keys := Distinct(xs[..|xs| - 1]);
      assert forall x :: x in xs <==> x in xs[..|xs| - 1] || x == xs[|xs| - 1];
      if xs[|xs| - 1] in keys then keys else keys + [xs[|xs| - 1]]
  }

  /** How many times k occurs in xs. */
  function Occurrences(xs: seq<real>, k: real): nat
  {
    if xs == [] then 0 else Occurrences(xs[..|xs| - 1], k) + (if xs[|xs| - 1] == k then 1 else 0)
  }

  /** The intensities of the rows at wavenumber k, added up. */
  function Total(rows: seq<(real, real)>, k: real): real
  {
    if rows == [] then 0.0
    else Total(rows[..|rows| - 1], k) + (if rows[|rows| - 1].0 == k then rows[|rows| - 1].1 else 0.0)
  }

  /** The number of rows at wavenumber k. */
  function Count(rows: seq<(real, real)>, k: real): nat
  {
    if rows == [] then 0 else Count(rows[..|rows| - 1], k) + (if rows[|rows| - 1].0 == k then 1 else 0)
  }

  /** The squared deviations from `mean` of the intensities of the rows at wavenumber k, added up. */
  function Deviation(rows: seq<(real, real)>, k: real, mean: real): (d: real)
    ensures d >= 0.0
  {
    if rows == [] then 0.0
    else
      var r := rows[|rows| - 1];
      Deviation(rows[..|rows| - 1], k, mean) + (if r.0 == k then (mean - r.1) * (mean - r.1) else 0.0)
  }

  /** The value the dictionary ends with at k: the total, divided by m in the arithmetic mode. */
  function Averaged<T>(run: Run<T>, rows: seq<(real, real)>, k: real): real
    requires run.m > 0
  {
    if run.arithmetic then Total(rows, k) / (run.m as real) else Total(rows, k)
  }

  /** What appending one row does to the wavenumbers, the dictionary keys and the totals. */
  lemma AppendRow(rows: seq<(real, real)>, r: (real, real))
    ensures Wavenumbers(rows + [r]) == Wavenumbers(rows) + [r.0]
    ensures Distinct(Wavenumbers(rows + [r])) ==
            (var keys := Distinct(Wavenumbers(rows)); if r.0 in keys then keys else keys + [r.0])
    ensures forall k :: Total(rows + [r], k) == Total(rows, k) + (if r.0 == k then r.1 else 0.0)
  {
    assert (rows + [r])[..|rows|] == rows;
    var ws := Wavenumbers(rows + [r]);
    assert ws[..|ws| - 1] == Wavenumbers(rows);
  }

  /** A wavenumber no row carries has total 0.0. */
  lemma {:induction false} TotalAbsent(rows: seq<(real, real)>, k: real)
    requires k !in Wavenumbers(rows)
    ensures Total(rows, k) == 0.0
  {
    if rows != [] {
      var w := rows[..|rows| - 1];
      assert Wavenumbers(rows) == Wavenumbers(w) + [rows[|rows| - 1].0];
      TotalAbsent(w, k);
    }
  }

  // Synthesis

  /** The inner loop: the kernel summed over structure j's excited states at wavenumber nm. */
  method StructureIntensity<T>(kernel: (T, T, real) -> real, run: Run<T>, j: nat, nm: real) returns (spectrum: real)
    requires Valid(run) && j < Rows(run.m)
    ensures spectrum == Intensity(kernel, run, j, nm)
  {
    spectrum := 0.0;
    var count := Rows(run.n[j]);
    if run.arithmetic {
      assert Holds(run.eigenvalue, run.n, j) && Holds(run.strength, run.n, j);
    }
    var i := 0;
    while i < count
      invariant i <= count
      invariant run.arithmetic ==> Holds(run.eigenvalue, run.n, j) && Holds(run.strength, run.n, j)
      invariant spectrum == if run.arithmetic then KernelSum(kernel, run, j, nm, i) else 0.0
    {
      if run.arithmetic {
        spectrum := spectrum + kernel(run.strength[j][i], run.eigenvalue[j][i], nm);
      }
      i := i + 1;
    }
  }

  /**
   * The dictionary kept beside the rows: its keys are the rows' wavenumbers
   * in first-seen order and each entry is the total of its wavenumber.
   */
  predicate Tally(rows: seq<(real, real)>, keys: seq<real>, average: map<real, real>)
  {
    && keys == Distinct(Wavenumbers(rows))
    && (forall k :: k in average ==> k in keys)
    && (forall t :: 0 <= t < |keys| ==> keys[t] in average)
    && (forall k :: k in average ==> average[k] == Total(rows, k))
  }

  /** One step of the grid loop: the row appended and its intensity added into its wavenumber's entry. */
  method Record(rows: seq<(real, real)>, keys: seq<real>, average: map<real, real>, nm: real, spectrum: real)
    returns (rows': seq<(real, real)>, keys': seq<real>, average': map<real, real>)
    requires Tally(rows, keys, average)
    ensures rows' == rows + [(nm, spectrum)]
    ensures Tally(rows', keys', average')
    ensures keys' == if nm in keys then keys else keys + [nm]
  {
    AppendRow(rows, (nm, spectrum));
    rows' := rows + [(nm, spectrum)];
    if nm in average {
      keys', average' := keys, average[nm := average[nm] + spectrum];
    } else {
      TotalAbsent(rows, nm);
      keys', average' := keys + [nm], average[nm := spectrum];
    }
  }

  /** One more grid point appends one more row to structure j's rows. */
  lemma GridStep<T>(kernel: (T, T, real) -> real, run: Run<T>, j: nat, rows: seq<(real, real)>, g: nat)
    requires Valid(run) && j < Rows(run.m) && g < |run.grid|
    ensures rows + StructureRows(kernel, run, j, run.grid[..g + 1])
         == rows + StructureRows(kernel, run, j, run.grid[..g]) + [(run.grid[g], Intensity(kernel, run, j, run.grid[g]))]
  {
    assert run.grid[..g + 1][..g] == run.grid[..g];
  }

  /** The grid loop for structure j: its rows appended in grid order, each recorded in the dictionary. */
  method AddStructure<T>(kernel: (T, T, real) -> real, run: Run<T>, j: nat,
                         rows: seq<(real, real)>, keys: seq<real>, average: map<real, real>)
    returns (rows': seq<(real, real)>, keys': seq<real>, average': map<real, real>)
    requires Valid(run) && j < Rows(run.m)
    requires Tally(rows, keys, average)
    ensures rows' == rows + StructureRows(kernel, run, j, run.grid)
    ensures Tally(rows', keys', average')
    ensures keys' != [] ==> keys != [] || run.grid != []
  {
    rows', keys', average' := rows, keys, average;
    var g := 0;
    while g < |run.grid|
      invariant g <= |run.grid|
      invariant rows' == rows + StructureRows(kernel, run, j, run.grid[..g])
      invariant Tally(rows', keys', average')
      invariant keys' != [] ==> keys != [] || g > 0
    {
      var nm := run.grid[g];
      var spectrum := StructureIntensity(kernel, run, j, nm);
      GridStep(kernel, run, j, rows, g);
      rows', keys', average' := Record(rows', keys', average', nm, spectrum);
      g := g + 1;
    }
    assert run.grid[..|run.grid|] == run.grid;
  }

  /**
   * The structure and grid loops: one row per structure and wavenumber,
   * appended in order, each also added into the dictionary entry of its
   * wavenumber (a new key when first seen); then, in the arithmetic mode,
   * every entry divided by m.
   */
  method Synthesize<T>(kernel: (T, T, real) -> real, run: Run<T>)
    returns (rows: seq<(real, real)>, keys: seq<real>, average: map<real, real>)
    requires Valid(run)
    ensures rows == SpectrumRows(kernel, run, Rows(run.m))
    ensures keys == Distinct(Wavenumbers(rows))
    ensures forall k :: k in average <==> k in keys
    ensures forall k :: k in average ==> run.m > 0 && average[k] == Averaged(run, rows, k)
  {
    rows, keys, average := [], [], map[];
    var j := 0;
    while j < Rows(run.m)
      invariant j <= Rows(run.m)
      invariant rows == SpectrumRows(kernel, run, j)
      invariant Tally(rows, keys, average)
      invariant keys != [] ==> run.m > 0
    {
      rows, keys, average := AddStructure(kernel, run, j, rows, keys, average);
      j := j + 1;
    }
    if run.arithmetic {
      average := Rescale(keys, average, run.m);
    }
  }

  /** The rescaling loop: every entry of the dictionary divided by m, keys unchanged. */
  method Rescale(keys: seq<real>, average: map<real, real>, m: int) returns (scaled: map<real, real>)
    requires NoDuplicates(keys)
    requires forall k :: k in average ==> k in keys
    requires forall t :: 0 <= t < |keys| ==> keys[t] in average
    requires keys != [] ==> m > 0
    ensures forall k :: k in scaled ==> k in keys
    ensures forall t :: 0 <= t < |keys| ==> keys[t] in scaled
    ensures forall k :: k in scaled ==> m > 0 && scaled[k] == average[k] / (m as real)
  {
    scaled := average;
    var t := 0;
    while t < |keys|
      invariant t <= |keys|
      invariant forall k :: k in scaled ==> k in keys
      invariant forall s :: 0 <= s < |keys| ==> keys[s] in scaled
      invariant forall s :: 0 <= s < t ==> scaled[keys[s]] == average[keys[s]] / (m as real)
      invariant forall s :: t <= s < |keys| ==> scaled[keys[s]] == average[keys[s]]
    {
      scaled := scaled[keys[t] := scaled[keys[t]] / (m as real)];
      t := t + 1;
    }
  }

  // What the synthesis computes

  /** Entry g of structure j's rows is point g with structure j's intensity there. */
  lemma {:induction false} StructureRowAt<T>(kernel: (T, T, real) -> real, run: Run<T>, j: nat, points: seq<real>, g: nat)
    requires Valid(run) && j < Rows(run.m) && g < |points|
    ensures StructureRows(kernel, run, j, points)[g] == (points[g], Intensity(kernel, run, j, points[g]))
    decreases |points|
  {
    if g < |points| - 1 {
      StructureRowAt(kernel, run, j, points[..|points| - 1], g);
    }
  }

  /** Row s·G + g of a structure-major table with rows of G entries lies inside the first j rows. */
  lemma RowIndex(s: nat, g: nat, width: nat, j: nat)
    requires s < j && g < width
    ensures s * width + g < j * width
  {
    assert (s + 1) * width <= j * width by {
      assert j * width == (s + 1) * width + (j - s - 1) * width;
    }
  }

  /** The synthesis emits |grid| rows per structure. */
  lemma {:induction false} SpectrumLength<T>(kernel: (T, T, real) -> real, run: Run<T>, j: nat)
    requires Valid(run) && j <= Rows(run.m)
    ensures |SpectrumRows(kernel, run, j)| == j * |run.grid|
  {
    if j > 0 {
      SpectrumLength(kernel, run, j - 1);
      MulStep(j, |run.grid|);
    }
  }

  /** Row s·|grid| + g is grid point g with structure s's intensity there. */
  lemma {:induction false} SpectrumRowAt<T>(kernel: (T, T, real) -> real, run: Run<T>, j: nat, s: nat, g: nat)
    requires Valid(run) && j <= Rows(run.m) && s < j && g < |run.grid|
    ensures s * |run.grid| + g < |SpectrumRows(kernel, run, j)|
    ensures SpectrumRows(kernel, run, j)[s * |run.grid| + g] == (run.grid[g], Intensity(kernel, run, s, run.grid[g]))
  {
    var prev := SpectrumRows(kernel, run, j - 1);
    SpectrumLength(kernel, run, j - 1);
    SpectrumLength(kernel, run, j);
    RowIndex(s, g, |run.grid|, j);
    var index := s * |run.grid| + g;
    if s < j - 1 {
      SpectrumRowAt(kernel, run, j - 1, s, g);
      assert SpectrumRows(kernel, run, j)[index] == prev[index];
    } else {
      assert index == |prev| + g;
      StructureRowAt(kernel, run, s, run.grid, g);
    }
  }

  /**
   * The synthesis emits j × |grid| rows for j structures, structure-major in
   * grid order: row s·|grid| + g is grid point g with structure s's intensity there.
   */
  lemma SpectrumShape<T>(kernel: (T, T, real) -> real, run: Run<T>, j: nat)
    requires Valid(run) && j <= Rows(run.m)
    ensures |SpectrumRows(kernel, run, j)| == j * |run.grid|
    ensures forall s, g :: 0 <= s < j && 0 <= g < |run.grid| ==>
              && s * |run.grid| + g < |SpectrumRows(kernel, run, j)|
              && SpectrumRows(kernel, run, j)[s * |run.grid| + g] == (run.grid[g], Intensity(kernel, run, s, run.grid[g]))
  {
    SpectrumLength(kernel, run, j);
    forall s, g | 0 <= s < j && 0 <= g < |run.grid|
      ensures s * |run.grid| + g < |SpectrumRows(kernel, run, j)|
      ensures SpectrumRows(kernel, run, j)[s * |run.grid| + g] == (run.grid[g], Intensity(kernel, run, s, run.grid[g]))
    {
      SpectrumRowAt(kernel, run, j, s, g);
    }
  }

  /** Outside the arithmetic mode every row's intensity is 0.0. */
  lemma {:induction false} SilentMode<T>(kernel: (T, T, real) -> real, run: Run<T>, j: nat)
    requires Valid(run) && j <= Rows(run.m) && !run.arithmetic
    ensures forall t :: 0 <= t < |SpectrumRows(kernel, run, j)| ==> SpectrumRows(kernel, run, j)[t].1 == 0.0
  {
    if j > 0 {
      SilentMode(kernel, run, j - 1);
      var prev := SpectrumRows(kernel, run, j - 1);
      var rows := SpectrumRows(kernel, run, j);
      forall t | 0 <= t < |rows|
        ensures rows[t].1 == 0.0
      {
        if t < |prev| {
          assert rows[t] == prev[t];
        } else {
          StructureRowAt(kernel, run, j - 1, run.grid, t - |prev|);
        }
      }
    }
  }

  /** A structure's rows carry exactly its points as wavenumbers. */
  lemma StructureWavenumbers<T>(kernel: (T, T, real) -> real, run: Run<T>, j: nat, points: seq<real>)
    requires Valid(run) && j < Rows(run.m)
    ensures Wavenumbers(StructureRows(kernel, run, j, points)) == points
  {
    forall g | 0 <= g < |points|
      ensures Wavenumbers(StructureRows(kernel, run, j, points))[g] == points[g]
    {
      StructureRowAt(kernel, run, j, points, g);
    }
  }

  /** Feeding a dict values it already holds adds no key. */
  lemma {:induction false} DistinctAbsorbs(a: seq<real>, b: seq<real>)
    requires forall x :: x in b ==> x in a
    ensures Distinct(a + b) == Distinct(a)
    decreases |b|
  {
    if b == [] {
      assert a + b == a;
    } else {
      var init := b[..|b| - 1];
      var last := b[|b| - 1];
      assert (a + b)[..|a + b| - 1] == a + init;
      assert (a + b)[|a + b| - 1] == last;
      assert last in b;
      assert last in Distinct(a + init) by {
        DistinctAbsorbs(a, init);
        assert last in a;
      }
      DistinctAbsorbs(a, init);
    }
  }

  /** A second pass over values whose keys a dict already holds adds no key. */
  lemma AbsorbRepeat(a: seq<real>, grid: seq<real>)
    requires Distinct(a) == Distinct(grid)
    ensures Distinct(a + grid) == Distinct(a)
  {
    forall x | x in grid
      ensures x in a
    {
      assert x in Distinct(grid);
    }
    DistinctAbsorbs(a, grid);
  }

  /** The wavenumbers of the first j structures' rows are those of the first j - 1 followed by the grid. */
  lemma SpectrumWavenumbers<T>(kernel: (T, T, real) -> real, run: Run<T>, j: nat)
    requires Valid(run) && 0 < j <= Rows(run.m)
    ensures Wavenumbers(SpectrumRows(kernel, run, j)) == Wavenumbers(SpectrumRows(kernel, run, j - 1)) + run.grid
  {
    var prev := SpectrumRows(kernel, run, j - 1);
    var block := StructureRows(kernel, run, j - 1, run.grid);
    assert Wavenumbers(prev + block) == Wavenumbers(prev) + Wavenumbers(block);
    StructureWavenumbers(kernel, run, j - 1, run.grid);
  }

  /**
   * The dictionary keys are the distinct grid values in first-seen order when
   * there is at least one structure, and there are none otherwise.
   */
  lemma {:induction false} SpectrumKeys<T>(kernel: (T, T, real) -> real, run: Run<T>, j: nat)
    requires Valid(run) && j <= Rows(run.m)
    ensures Distinct(Wavenumbers(SpectrumRows(kernel, run, j))) == if j > 0 then Distinct(run.grid) else []
  {
    if j > 0 {
      SpectrumWavenumbers(kernel, run, j);
      var before := Wavenumbers(SpectrumRows(kernel, run, j - 1));
      if j == 1 {
        assert before + run.grid == run.grid;
      } else {
        SpectrumKeys(kernel, run, j - 1);
        AbsorbRepeat(before, run.grid);
      }
    }
  }

  lemma {:induction false} TotalAppend(a: seq<(real, real)>, b: seq<(real, real)>, k: real)
    ensures Total(a + b, k) == Total(a, k) + Total(b, k)
    decreases |b|
  {
    if b == [] {
      assert a + b == a;
    } else {
      assert (a + b)[..|a + b| - 1] == a + b[..|b| - 1];
      TotalAppend(a, b[..|b| - 1], k);
    }
  }

  lemma {:induction false} CountAppend(a: seq<(real, real)>, b: seq<(real, real)>, k: real)
    ensures Count(a + b, k) == Count(a, k) + Count(b, k)
    decreases |b|
  {
    if b == [] {
      assert a + b == a;
    } else {
      assert (a + b)[..|a + b| - 1] == a + b[..|b| - 1];
      CountAppend(a, b[..|b| - 1], k);
    }
  }

  /** x added to itself o times. */
  function Times(o: nat, x: real): real
  {
    if o == 0 then 0.0 else Times(o - 1, x) + x
  }

  lemma {:induction false} TimesAdd(o: nat, a: real, b: real)
    ensures Times(o, a) + Times(o, b) == Times(o, a + b)
  {
    if o > 0 {
      TimesAdd(o - 1, a, b);
    }
  }

  /** Times is multiplication by a count. */
  lemma {:induction false} TimesProduct(o: nat, x: real)
    ensures Times(o, x) == (o as real) * x
  {
    if o > 0 {
      TimesProduct(o - 1, x);
      assert ((o - 1) as real) * x + x == (o as real) * x;
    }
  }

  /** Over one structure, wavenumber k totals its intensity once per point equal to k. */
  lemma {:induction false} StructureTotal<T>(kernel: (T, T, real) -> real, run: Run<T>, j: nat, points: seq<real>, k: real)
    requires Valid(run) && j < Rows(run.m)
    ensures Total(StructureRows(kernel, run, j, points), k) == Times(Occurrences(points, k), Intensity(kernel, run, j, k))
    ensures Count(StructureRows(kernel, run, j, points), k) == Occurrences(points, k)
    decreases |points|
  {
    if points != [] {
      var init := points[..|points| - 1];
      StructureTotal(kernel, run, j, init, k);
      var rows := StructureRows(kernel, run, j, points);
      assert rows[..|rows| - 1] == StructureRows(kernel, run, j, init);
    }
  }

  /**
   * Over the first j structures, wavenumber k totals the sum of their
   * intensities at k once per grid position holding k.
   */
  lemma {:induction false} SpectrumTotals<T>(kernel: (T, T, real) -> real, run: Run<T>, j: nat, k: real)
    requires Valid(run) && j <= Rows(run.m)
    ensures Total(SpectrumRows(kernel, run, j), k) == Times(Occurrences(run.grid, k), IntensitySum(kernel, run, j, k))
  {
    if j > 0 {
      SpectrumTotals(kernel, run, j - 1, k);
      var prev := SpectrumRows(kernel, run, j - 1);
      var block := StructureRows(kernel, run, j - 1, run.grid);
      assert SpectrumRows(kernel, run, j) == prev + block;
      TotalAppend(prev, block, k);
      StructureTotal(kernel, run, j - 1, run.grid, k);
      TimesAdd(Occurrences(run.grid, k), IntensitySum(kernel, run, j - 1, k), Intensity(kernel, run, j - 1, k));
      assert IntensitySum(kernel, run, j, k) == IntensitySum(kernel, run, j - 1, k) + Intensity(kernel, run, j - 1, k);
    } else {
      TimesProduct(Occurrences(run.grid, k), 0.0);
    }
  }

  /** Over the first j structures, wavenumber k is carried by j rows per grid position holding it. */
  lemma {:induction false} SpectrumCounts<T>(kernel: (T, T, real) -> real, run: Run<T>, j: nat, k: real)
    requires Valid(run) && j <= Rows(run.m)
    ensures Count(SpectrumRows(kernel, run, j), k) == j * Occurrences(run.grid, k)
  {
    if j > 0 {
      SpectrumCounts(kernel, run, j - 1, k);
      var prev := SpectrumRows(kernel, run, j - 1);
      var block := StructureRows(kernel, run, j - 1, run.grid);
      CountAppend(prev, block, k);
      StructureTotal(kernel, run, j - 1, run.grid, k);
      assert SpectrumRows(kernel, run, j) == prev + block;
      MulStep(j, Occurrences(run.grid, k));
    }
  }

  lemma MulStep(j: nat, o: nat)
    requires j > 0
    ensures (j - 1) * o + o == j * o
  {
  }

  lemma MulPositive(a: nat, b: nat)
    requires a >= 1 && b >= 1
    ensures a * b >= 1
  {
  }

  /**
   * The average the arithmetic mode ends with at wavenumber k: each grid
   * position holding k adds the intensities of all structures there, so a
   * wavenumber listed twice in the grid is counted twice; the sum is then divided by m.
   */
  lemma CompoundedAverage<T>(kernel: (T, T, real) -> real, run: Run<T>, k: real)
    requires Valid(run) && run.m > 0 && run.arithmetic
    ensures Averaged(run, SpectrumRows(kernel, run, Rows(run.m)), k)
            == Times(Occurrences(run.grid, k), IntensitySum(kernel, run, Rows(run.m), k)) / (run.m as real)
  {
    SpectrumTotals(kernel, run, Rows(run.m), k);
  }

  /** A value xs holds occurs in it at least once. */
  lemma {:induction false} OccursOnce(xs: seq<real>, k: real)
    requires k in xs
    ensures Occurrences(xs, k) >= 1
    decreases |xs|
  {
    if xs[|xs| - 1] != k {
      var init := xs[..|xs| - 1];
      assert k in init by {
        var t :| 0 <= t < |xs| && xs[t] == k;
        assert init[t] == k;
      }
      OccursOnce(init, k);
    }
  }

  // Dispersion

  /** The (wavenumber, mean) pairs in key order: medias_spectrum. */
  function Means(keys: seq<real>, average: map<real, real>): seq<(real, real)>
    requires forall t :: 0 <= t < |keys| ==> keys[t] in average
  {
    seq(|keys|, t requires 0 <= t < |keys| => (keys[t], average[keys[t]]))
  }

  /**
   * Every key the synthesis hands to the dispersion scan is carried by
   * m rows per grid position holding it, so its count is at least 1.
   */
  lemma DispersionCounts<T>(kernel: (T, T, real) -> real, run: Run<T>, k: real)
    requires Valid(run) && k in Distinct(Wavenumbers(SpectrumRows(kernel, run, Rows(run.m))))
    ensures run.m > 0
    ensures Count(SpectrumRows(kernel, run, Rows(run.m)), k) == Rows(run.m) * Occurrences(run.grid, k)
    ensures Count(SpectrumRows(kernel, run, Rows(run.m)), k) >= 1
  {
    SpectrumKeys(kernel, run, Rows(run.m));
    assert k in run.grid;
    OccursOnce(run.grid, k);
    SpectrumCounts(kernel, run, Rows(run.m), k);
    MulPositive(Rows(run.m), Occurrences(run.grid, k));
  }

  /** For one mean: its wavenumber, the squared deviations added up, and how many rows were counted. */
  datatype Spread = Spread(wavenumber: real, squares: real, count: nat)

  /** The scan of calcula_dp_erro: for each mean, one pass over all rows. */
  method Dispersion(medias: seq<(real, real)>, rows: seq<(real, real)>) returns (spreads: seq<Spread>)
    ensures |spreads| == |medias|
    ensures forall t :: 0 <= t < |medias| ==>
              spreads[t] == Spread(medias[t].0, Deviation(rows, medias[t].0, medias[t].1), Count(rows, medias[t].0))
  {
    spreads := [];
    var t := 0;
    while t < |medias|
      invariant t <= |medias|
      invariant |spreads| == t
      invariant forall s :: 0 <= s < t ==>
                  spreads[s] == Spread(medias[s].0, Deviation(rows, medias[s].0, medias[s].1), Count(rows, medias[s].0))
    {
      var (k, mean) := medias[t];
      var count := 0;
      var squares := 0.0;
      var u := 0;
      while u < |rows|
        invariant u <= |rows|
        invariant squares == Deviation(rows[..u], k, mean)
        invariant count == Count(rows[..u], k)
      {
        assert rows[..u + 1][..u] == rows[..u];
        if rows[u].0 == k {
          squares := squares + (mean - rows[u].1) * (mean - rows[u].1);
          count := count + 1;
        }
        u := u + 1;
      }
      assert rows[..|rows|] == rows;
      spreads := spreads + [Spread(k, squares, count)];
      t := t + 1;
    }
  }

  /**
   * fit_gaussian after input.dat is read: the synthesis and the averages,
   * then medias_spectrum built from the dictionary in key order and handed
   * to calcula_dp_erro with all the rows. Every key is counted m times per
   * grid position holding it, so no count is zero.
   */
  method Fit<T>(kernel: (T, T, real) -> real, run: Run<T>)
    returns (rows: seq<(real, real)>, keys: seq<real>, average: map<real, real>, spreads: seq<Spread>)
    requires Valid(run)
    ensures rows == SpectrumRows(kernel, run, Rows(run.m))
    ensures keys == Distinct(Wavenumbers(rows))
    ensures forall k :: k in average <==> k in keys
    ensures forall k :: k in average ==> run.m > 0 && average[k] == Averaged(run, rows, k)
    ensures |spreads| == |keys|
    ensures forall t :: 0 <= t < |keys| ==>
              && keys[t] in average
              && spreads[t].wavenumber == keys[t]
              && spreads[t].squares == Deviation(rows, keys[t], average[keys[t]])
              && spreads[t].squares >= 0.0
              && spreads[t].count == Rows(run.m) * Occurrences(run.grid, keys[t])
              && spreads[t].count >= 1
  {
    rows, keys, average := Synthesize(kernel, run);
    assert forall t :: 0 <= t < |keys| ==> keys[t] in keys;
    var medias := Means(keys, average);
    spreads := Dispersion(medias, rows);
    forall t | 0 <= t < |keys|
      ensures spreads[t].count == Rows(run.m) * Occurrences(run.grid, keys[t]) && spreads[t].count >= 1
    {
      assert keys[t] in keys;
      DispersionCounts(kernel, run, keys[t]);
    }
  }
}
