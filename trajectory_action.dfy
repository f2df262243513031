/**
 * The trajectory action of bdld/actions/trajectory_action.py: a fixed buffer of
 * `writeStride` rows, each holding the time and the positions of all particles
 * at one step, written row `(step - 1) mod writeStride` at every step and
 * flushed to the per-particle files on multiples of `writeStride`.
 * File output itself is not modelled; `Write` keeps only its effect on
 * `lastWrite`.
 */
module TrajectoryAction {
  import opened Wrappers

  /** The positions of all particles at one step: one vector per particle. */
  type Snapshot = seq<seq<real>>

  /** A snapshot of `nParticles` positions of dimension `nDim`. */
  predicate Shaped(s: Snapshot, nParticles: nat, nDim: nat)
  {
    |s| == nParticles && forall p :: 0 <= p < |s| ==> |s[p]| == nDim
  }

  /** Python's `x or d` on an optional integer: `None` and 0 both give the default. */
  function OrDefault(x: Option<int>, d: int): (r: int)
    ensures (x == None || x == Some(0)) ==> r == d
    ensures x.Some? && x.value != 0 ==> r == x.value
  {
    if x.Some? && x.value != 0 then x.value else d
  }

  // ---------------------------------------------------------------------------
  // File names
  // ---------------------------------------------------------------------------

  function DigitChar(d: nat): char
    requires d < 10
  {
    (48 + d) as char
  }

  function DigitValue(c: char): nat
  {
    if '0' <= c <= '9' then c as int - 48 else 0
  }

  /** `str(n)`: the decimal digits of `n`, most significant first. */
  function DecimalString(n: nat): (s: string)
    ensures |s| >= 1 && forall k :: 0 <= k < |s| ==> '0' <= s[k] <= '9'
  {
    if n < 10 then [DigitChar(n)] else DecimalString(n / 10) + [DigitChar(n % 10)]
  }

  /** `int(s)` on a string of decimal digits. */
  function ParseDecimal(s: string): nat
  {
    if s == [] then 0 else ParseDecimal(s[..|s| - 1]) * 10 + DigitValue(s[|s| - 1])
  }

  /** Reading back the digits of `n` gives `n`. */
  lemma {:induction false} ParseDecimalString(n: nat)
    ensures ParseDecimal(DecimalString(n)) == n
  {
    var s := DecimalString(n);
    if n < 10 {
      assert s[..|s| - 1] == [];
    } else {
      assert s[..|s| - 1] == DecimalString(n / 10);
      ParseDecimalString(n / 10);
    }
  }

  /** The file names `f"{base}.{i}"` for i in range(n). */
  function TrajFilenames(base: string, n: nat): (names: seq<string>)
    ensures |names| == n
  {
    seq(n, i requires 0 <= i => base + "." + DecimalString(i))
  }

  /** The i-th file name is the base, a dot, and a suffix that reads back as i. */
  lemma FilenameSuffix(base: string, n: nat, i: nat)
    requires i < n
    ensures TrajFilenames(base, n)[i][..|base| + 1] == base + "."
    ensures ParseDecimal(TrajFilenames(base, n)[i][|base| + 1..]) == i
  {
    var name := TrajFilenames(base, n)[i];
    assert name[|base| + 1..] == DecimalString(i);
    ParseDecimalString(i);
  }

  /** No two particles share a trajectory file. */
  lemma FilenamesDistinct(base: string, n: nat, i: nat, j: nat)
    requires i < n && j < n && i != j
    ensures TrajFilenames(base, n)[i] != TrajFilenames(base, n)[j]
  {
    FilenameSuffix(base, n, i);
    FilenameSuffix(base, n, j);
  }

  // ---------------------------------------------------------------------------
  // The ring buffer
  // ---------------------------------------------------------------------------

  /** The row `run(step)` writes: Python's `(step % writeStride) - 1`, where the index
      -1 names the last row. */
  function RowOf(step: int, writeStride: nat): (row: nat)
    requires writeStride > 0
    ensures row < writeStride
  {
    var index := step % writeStride - 1;
    if index < 0 then index + writeStride else index
  }

  /** A positive multiple of a positive `m` is at least `m`. */
  lemma {:induction false} MultipleAtLeast(d: int, m: int)
    requires d >= 1 && m > 0
    ensures d * m >= m
    decreases d
  {
    if d > 1 {
      MultipleAtLeast(d - 1, m);
      assert d * m == (d - 1) * m + m;
    }
  }

  /** A multiple of `m` strictly between `-m` and `m` is zero. */
  lemma SmallMultiple(d: int, m: int)
    requires m > 0 && -m < d * m < m
    ensures d == 0
  {
    if d > 0 {
      MultipleAtLeast(d, m);
    } else if d < 0 {
      MultipleAtLeast(-d, m);
    }
  }

  /** The remainder is determined by any decomposition `a == q * m + r` with `0 <= r < m`. */
  lemma ModUnique(a: int, m: int, q: int, r: int)
    requires 0 <= r < m && a == q * m + r
    ensures a % m == r
  {
    var d := q - a / m;
    assert d * m == q * m - (a / m) * m;
    SmallMultiple(d, m);
  }

  /** The row of a step is the previous step modulo the buffer size: saving starts at
      step 1 in row 0, and a multiple of the buffer size fills the last row. */
  lemma RowIsPreviousStep(step: int, writeStride: nat)
    requires writeStride > 0
    ensures RowOf(step, writeStride) == (step - 1) % writeStride
    ensures step % writeStride == 0 ==> RowOf(step, writeStride) == writeStride - 1
  {
    var q := step / writeStride;
    var r := step % writeStride;
    if r == 0 {
      ModUnique(step - 1, writeStride, q - 1, writeStride - 1);
    } else {
      ModUnique(step - 1, writeStride, q, r - 1);
    }
  }

  /** Consecutive steps fill consecutive rows, wrapping around after the last. */
  lemma RowOfNextStep(step: int, writeStride: nat)
    requires writeStride > 0
    ensures RowOf(step + 1, writeStride)
         == if RowOf(step, writeStride) == writeStride - 1 then 0 else RowOf(step, writeStride) + 1
  {
    RowIsPreviousStep(step, writeStride);
    RowIsPreviousStep(step + 1, writeStride);
    var q := (step - 1) / writeStride;
    var r := (step - 1) % writeStride;
    if r == writeStride - 1 {
      ModUnique(step, writeStride, q + 1, 0);
    } else {
      ModUnique(step, writeStride, q, r + 1);
    }
  }

  /** The exception the constructor raises: numpy refuses a buffer of negative size. */
  datatype TrajError = NegativeWriteStride

  class TrajectoryAction {
    const nParticles: nat
    const nDim: nat
    /** The time step of the dynamics, `ld.dt`. */
    const dt: real
    /** Every how many steps a point goes to file; kept for the file output only. */
    const stride: int
    const writeStride: nat
    const filenames: Option<seq<string>>
    /** Row r holds the snapshot of the step stored there; shape writeStride x n x d. */
    const traj: array<Snapshot>
    /** Row r holds the time of that step; the trailing unit axis is dropped. */
    const times: array<real>
    var lastWrite: int

    ghost predicate Valid()
      reads this, traj
    {
      && writeStride > 0
      && traj.Length == writeStride && times.Length == writeStride
      && (forall r :: 0 <= r < traj.Length ==> Shaped(traj[r], nParticles, nDim))
      && (filenames.Some? ==> |filenames.value| == nParticles)
    }

    /** `if self.filenames:` in `write`: a name list that is set and not empty. Files are
        written exactly when a base name was given and there is at least one particle. */
    function HasFiles(): (r: bool)
      requires Valid()
      reads this, traj
      ensures r <==> filenames.Some? && nParticles > 0
    {
      filenames.Some? && |filenames.value| > 0
    }

    /** The raising constructor: a negative `writeStride` is a buffer shape numpy
        refuses; otherwise the constructor below. */
    static method Create(nParticles: nat, nDim: nat, dt: real, stride: Option<int>,
                         filename: Option<string>, writeStride: Option<int>)
      returns (r: Result<TrajectoryAction, TrajError>)
      ensures (writeStride.Some? && writeStride.value < 0) <==> r == Failure(NegativeWriteStride)
      ensures r.Success? ==>
                && fresh(r.value) && fresh(r.value.traj) && fresh(r.value.times) && r.value.Valid()
                && r.value.nParticles == nParticles && r.value.nDim == nDim && r.value.dt == dt
                && r.value.stride == OrDefault(stride, 1)
                && r.value.writeStride == OrDefault(writeStride, 100)
                && r.value.lastWrite == 0
                && r.value.filenames
                   == if Truthy(filename) then Some(TrajFilenames(filename.value, nParticles)) else None
    {
      if writeStride.Some? && writeStride.value < 0 {
        return Failure(NegativeWriteStride);
      }
      var t := new TrajectoryAction(nParticles, nDim, dt, stride, filename, writeStride);
      return Success(t);
    }

    /** `stride` defaults to 1 and `writeStride` to 100. The buffer contents start
        unspecified, here all zero. */
    constructor (nParticles: nat, nDim: nat, dt: real, stride: Option<int>,
                 filename: Option<string>, writeStride: Option<int>)
      requires writeStride.None? || writeStride.value >= 0
      ensures Valid() && fresh(traj) && fresh(times)
      ensures this.nParticles == nParticles && this.nDim == nDim && this.dt == dt
      ensures this.stride == OrDefault(stride, 1)
      ensures this.writeStride == OrDefault(writeStride, 100)
      ensures lastWrite == 0
      ensures filenames == if Truthy(filename) then Some(TrajFilenames(filename.value, nParticles)) else None
    {
      this.nParticles := nParticles;
      this.nDim := nDim;
      this.dt := dt;
      this.stride := OrDefault(stride, 1);
      var rows := OrDefault(writeStride, 100);
      this.writeStride := rows;
      var blank: Snapshot := seq(nParticles, _ => seq(nDim, _ => 0.0));
      traj := new Snapshot[rows](_ => blank);
      times := new real[rows](_ => 0.0);
      lastWrite := 0;
      filenames := if Truthy(filename) then Some(TrajFilenames(filename.value, nParticles)) else None;
    }

    /** Store the snapshot and time of `step` in its row and flush on a multiple of
        `writeStride`. Only that row of either buffer changes. */
    method Run(step: int, positions: Snapshot) returns (flushed: bool)
      requires Valid() && Shaped(positions, nParticles, nDim)
      modifies this, traj, times
      ensures Valid()
      ensures traj[..] == old(traj[..])[RowOf(step, writeStride) := positions]
      ensures times[..] == old(times[..])[RowOf(step, writeStride) := step as real * dt]
      ensures flushed <==> step % writeStride == 0
      ensures lastWrite == if flushed && HasFiles() then step else old(lastWrite)
    {
      var row := RowOf(step, writeStride);
      times[row] := step as real * dt;
      traj[row] := positions;
      flushed := step % writeStride == 0;
      if flushed {
        Write(step);
      }
    }

    /** `write(step)`: with no file names it does nothing; otherwise the unwritten rows
        go to the files and `lastWrite` becomes `step`. */
    method Write(step: int)
      requires Valid()
      modifies this
      ensures Valid()
      ensures lastWrite == if HasFiles() then step else old(lastWrite)
    {
      if HasFiles() {
        // the per-file loop of `write` sets `last_write` on each of its iterations
        lastWrite := step;
      }
    }

    /** `final_run(step)`: write whatever is left. */
    method FinalRun(step: int)
      requires Valid()
      modifies this
      ensures Valid()
      ensures lastWrite == if HasFiles() then step else old(lastWrite)
    {
      Write(step);
    }
  }

  /** Only the row of the current step differs after a run. */
  lemma RunTouchesOneRow(before: seq<Snapshot>, step: int, writeStride: nat, positions: Snapshot, r: nat)
    requires writeStride > 0 && |before| == writeStride
    requires r < writeStride && r != (step - 1) % writeStride
    ensures before[RowOf(step, writeStride) := positions][r] == before[r]
  {
    RowIsPreviousStep(step, writeStride);
  }
}
