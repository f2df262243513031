/**
 * The simulation driver of bdld/bdld.py: parameter checks, the global step counter
 * that schedules birth-death across repeated runs, the per-particle trajectory
 * lists, and the guarded hand-over of trajectory points to a histogram.
 *
 * The Langevin integrator, the birth-death step and the histogram are abstract:
 * the positions of all particles after each step are an input, a birth-death step
 * is recorded by its step number, and the histogram is recorded as the sequence of
 * points it has been given.
 */
module Bdld {
  import opened Wrappers

  /** The position of one particle. */
  type Position = seq<real>

  /** The exceptions the driver raises. */
  datatype DriverError =
    | BandwidthDimMismatch    // setup: one bandwidth per dimension is needed
    | NonPositiveBandwidth    // setup: every bandwidth must be positive
    | HistoBinsDimMismatch    // init_histo: one bin count per dimension
    | HistoRangesDimMismatch  // init_histo: one range per dimension
    | NoParticles             // init_histo: the default stride divides by the particle count
    | TrajFileCountMismatch   // init_traj_files: one file per particle
    | NoHistogram             // add_traj_to_histo, save_fes: no histogram yet
    | MissingHistoStride      // run: `i % None` once init_histo failed half-way
    | ZeroHistoStride         // run: `i % 0` with an explicit stride of 0
    | EmptyTrajectory         // add_traj_to_histo: stacking no positions at all

  /** The checks of `setup`: with birth-death switched on, one positive bandwidth
      per dimension is required; with it off nothing is checked. */
  function SetupCheck(bdStride: int, nDim: nat, bw: seq<real>): (e: Option<DriverError>)
    ensures e == None <==> bdStride == 0 || (|bw| == nDim && forall k :: 0 <= k < |bw| ==> bw[k] > 0.0)
    ensures bdStride != 0 && |bw| != nDim ==> e == Some(BandwidthDimMismatch)
    ensures bdStride != 0 && |bw| == nDim && (exists k :: 0 <= k < |bw| && bw[k] <= 0.0)
            ==> e == Some(NonPositiveBandwidth)
  {
    if bdStride == 0 then None
    else if nDim != |bw| then Some(BandwidthDimMismatch)
    else if exists k :: 0 <= k < |bw| && bw[k] <= 0.0 then Some(NonPositiveBandwidth)
    else None
  }

  // ---------------------------------------------------------------------------
  // Birth-death scheduling
  // ---------------------------------------------------------------------------

  /** The global steps among `first .. first + count - 1` on which birth-death fires. */
  function FiringSteps(first: int, count: nat, stride: int): (steps: seq<int>)
    requires stride != 0
    ensures |steps| <= count
    ensures forall k :: 0 <= k < |steps| ==> first <= steps[k] < first + count && steps[k] % stride == 0
  {
    if count == 0 then []
    else FiringSteps(first, count - 1, stride)
         + (if (first + count - 1) % stride == 0 then [first + count - 1] else [])
  }

  /** Birth-death fires exactly on the visited steps that are multiples of the stride. */
  lemma {:induction false} FiringStepsMembers(first: int, count: nat, stride: int, i: int)
    requires stride != 0
    ensures i in FiringSteps(first, count, stride) <==> first <= i < first + count && i % stride == 0
  {
    if count > 0 {
      FiringStepsMembers(first, count - 1, stride, i);
    }
  }

  /** The firing steps come in increasing order, each once. */
  lemma {:induction false} FiringStepsIncreasing(first: int, count: nat, stride: int)
    requires stride != 0
    ensures forall a, b :: 0 <= a < b < |FiringSteps(first, count, stride)|
              ==> FiringSteps(first, count, stride)[a] < FiringSteps(first, count, stride)[b]
  {
    if count > 0 {
      var front := FiringSteps(first, count - 1, stride);
      FiringStepsIncreasing(first, count - 1, stride);
      forall a | 0 <= a < |front|
        ensures front[a] < first + count - 1
      {
        FiringStepsMembers(first, count - 1, stride, front[a]);
      }
    }
  }

  /** Running `a` steps and then `b` steps fires on the same global steps as running
      `a + b` steps at once: the counter carries over between runs. */
  lemma {:induction false} FiringStepsSplit(first: int, a: nat, b: nat, stride: int)
    requires stride != 0
    ensures FiringSteps(first, a, stride) + FiringSteps(first + a, b, stride)
         == FiringSteps(first, a + b, stride)
  {
    if b > 0 {
      FiringStepsSplit(first, a, b - 1, stride);
      assert first + a + b - 1 == first + (a + b) - 1;
    }
  }

  /** With a stride of 10, running 6 steps and then 7 fires birth-death only once, on
      the 4th step of the second run (global step 10). */
  lemma RepeatedRunsExample()
    ensures FiringSteps(1, 6, 10) == []
    ensures FiringSteps(7, 7, 10) == [10] && 7 + 3 == 10
  {
    FiringStepsSplit(7, 3, 4, 10);
  }

  // ---------------------------------------------------------------------------
  // Trajectory lists
  // ---------------------------------------------------------------------------

  /** The number of stored positions over all particles, summed list by list.
      It is kept apart from `Flatten` as an independent count that `Flatten`'s
      length is checked against. */
  function TotalLength(traj: seq<seq<Position>>): nat
  {
    if traj == [] then 0 else TotalLength(traj[..|traj| - 1]) + |traj[|traj| - 1]|
  }

  /** `[pos for part in traj for pos in part]`: all positions, particle by particle. */
  function Flatten(traj: seq<seq<Position>>): (all: seq<Position>)
    ensures |all| == TotalLength(traj)
  {
    if traj == [] then [] else Flatten(traj[..|traj| - 1]) + traj[|traj| - 1]
  }

  /** No positions are stored exactly when every particle's list is empty. */
  lemma {:induction false} TotalLengthZero(traj: seq<seq<Position>>)
    ensures TotalLength(traj) == 0 <==> forall j :: 0 <= j < |traj| ==> traj[j] == []
  {
    if traj != [] {
      var front := traj[..|traj| - 1];
      TotalLengthZero(front);
      assert forall j :: 0 <= j < |front| ==> front[j] == traj[j];
    }
  }

  /** One empty list per particle. */
  function Cleared(n: nat): (traj: seq<seq<Position>>)
    ensures |traj| == n
  {
    seq(n, _ => [])
  }

  lemma {:induction false} ClearedIsEmpty(n: nat)
    ensures TotalLength(Cleared(n)) == 0 && Flatten(Cleared(n)) == []
  {
    TotalLengthZero(Cleared(n));
  }

  /** Every particle's list extended by that particle's new position. */
  function AppendSnapshot(traj: seq<seq<Position>>, snap: seq<Position>): (r: seq<seq<Position>>)
    requires |snap| == |traj|
    ensures |r| == |traj|
  {
    seq(|traj|, j requires 0 <= j < |traj| => traj[j] + [snap[j]])
  }

  /** Appending a snapshot stores exactly its positions in addition. */
  lemma {:induction false} AppendSnapshotContents(traj: seq<seq<Position>>, snap: seq<Position>)
    requires |snap| == |traj|
    ensures multiset(Flatten(AppendSnapshot(traj, snap))) == multiset(Flatten(traj)) + multiset(snap)
  {
    if traj != [] {
      var n := |traj|;
      assert AppendSnapshot(traj, snap)[..n - 1] == AppendSnapshot(traj[..n - 1], snap[..n - 1]);
      AppendSnapshotContents(traj[..n - 1], snap[..n - 1]);
      assert snap == snap[..n - 1] + [snap[n - 1]];
    }
  }

  /** Particle j's positions in the first `n` snapshots. */
  function Column(snaps: seq<seq<Position>>, j: nat, n: nat): (col: seq<Position>)
    requires n <= |snaps| && forall k :: 0 <= k < n ==> j < |snaps[k]|
    ensures |col| == n
  {
    seq(n, k requires 0 <= k < n => snaps[k][j])
  }

  // ---------------------------------------------------------------------------
  // The run loop as a function of its inputs
  // ---------------------------------------------------------------------------

  /** What `run` consults: the birth-death stride (birth-death exists exactly when it
      is not 0), whether a histogram is set, and its stride. */
  datatype Schedule = Schedule(bdStride: int, hasHisto: bool, histoStride: Option<int>)

  /** The driver's evolving state: trajectory lists, the points given to the histogram,
      the steps birth-death fired on, and the exception raised, if any. */
  datatype Progress = Progress(traj: seq<seq<Position>>, binned: seq<Position>,
                               bdSteps: seq<int>, err: Option<DriverError>)

  /** `add_traj_to_histo` past its guard: stack all stored positions, give them to the
      histogram and clear the lists; with nothing stored the stacking raises. */
  function AddToHisto(p: Progress): (r: Progress)
    ensures |r.traj| == |p.traj|
  {
    if Flatten(p.traj) == [] then p.(err := Some(EmptyTrajectory))
    else p.(traj := Cleared(|p.traj|), binned := p.binned + Flatten(p.traj))
  }

  /** The first half of global step `i` of `run`: birth-death on a multiple of its
      stride, then each particle's new position appended to its list. */
  function Advance(s: Schedule, p: Progress, i: int, snap: seq<Position>): (r: Progress)
    requires |snap| == |p.traj|
    ensures |r.traj| == |p.traj|
  {
    p.(bdSteps := if s.bdStride != 0 && i % s.bdStride == 0 then p.bdSteps + [i] else p.bdSteps,
       traj := AppendSnapshot(p.traj, snap))
  }

  /** The second half: with a histogram, `i % histoStride` is evaluated (raising for a
      missing or zero stride) and on a multiple the stored positions are flushed. */
  function HistoCheck(s: Schedule, q: Progress, i: int): (r: Progress)
    ensures |r.traj| == |q.traj|
  {
    if !s.hasHisto then q
    else if s.histoStride.None? then q.(err := Some(MissingHistoStride))
    else if s.histoStride.value == 0 then q.(err := Some(ZeroHistoStride))
    else if i % s.histoStride.value == 0 then AddToHisto(q)
    else q
  }

  /** Global step `i` of `run` after the integrator moved the particles to `snap`. */
  function Step(s: Schedule, p: Progress, i: int, snap: seq<Position>): (r: Progress)
    requires |snap| == |p.traj|
    ensures |r.traj| == |p.traj|
  {
    if p.err.Some? then p else HistoCheck(s, Advance(s, p, i, snap), i)
  }

  /** One snapshot of `n` positions per step. */
  predicate SnapshotsFit(snaps: seq<seq<Position>>, n: nat)
  {
    forall k :: 0 <= k < |snaps| ==> |snaps[k]| == n
  }

  /** The first `n` steps `first, first + 1, ...`, one per snapshot, from state `p`. */
  function Simulate(s: Schedule, p: Progress, first: int, snaps: seq<seq<Position>>, n: nat): (r: Progress)
    requires SnapshotsFit(snaps, |p.traj|) && n <= |snaps|
    ensures |r.traj| == |p.traj|
    ensures p.err.Some? ==> r == p
  {
    if n == 0 then p
    else Step(s, Simulate(s, p, first, snaps, n - 1), first + n - 1, snaps[n - 1])
  }

  /** Once a step has raised, the later steps do not happen. */
  lemma {:induction false} SimulateErrorStays(s: Schedule, p: Progress, first: int,
                                              snaps: seq<seq<Position>>, m: nat, n: nat)
    requires SnapshotsFit(snaps, |p.traj|) && m <= n <= |snaps|
    requires Simulate(s, p, first, snaps, m).err.Some?
    ensures Simulate(s, p, first, snaps, n) == Simulate(s, p, first, snaps, m)
    decreases n
  {
    if m < n {
      SimulateErrorStays(s, p, first, snaps, m, n - 1);
    }
  }

  /** A run that does not raise fires birth-death on the steps `FiringSteps` names,
      and never without birth-death. */
  lemma {:induction false} SimulateBdSteps(s: Schedule, p: Progress, first: int, snaps: seq<seq<Position>>, n: nat)
    requires SnapshotsFit(snaps, |p.traj|) && n <= |snaps|
    requires Simulate(s, p, first, snaps, n).err == None
    ensures s.bdStride == 0 ==> Simulate(s, p, first, snaps, n).bdSteps == p.bdSteps
    ensures s.bdStride != 0 ==>
              Simulate(s, p, first, snaps, n).bdSteps == p.bdSteps + FiringSteps(first, n, s.bdStride)
    decreases n
  {
    if n > 0 {
      SimulateBdSteps(s, p, first, snaps, n - 1);
    }
  }

  /** On a step that is a multiple of a nonzero histogram stride, the lists, with that
      step's positions appended, are emptied into the histogram. */
  lemma SimulateFlushes(s: Schedule, p: Progress, first: int, snaps: seq<seq<Position>>, n: nat)
    requires SnapshotsFit(snaps, |p.traj|) && 0 < n <= |snaps| && |p.traj| > 0
    requires s.hasHisto && s.histoStride.Some? && s.histoStride.value != 0
    requires (first + n - 1) % s.histoStride.value == 0
    requires Simulate(s, p, first, snaps, n - 1).err == None
    ensures Simulate(s, p, first, snaps, n).err == None
    ensures Simulate(s, p, first, snaps, n).traj == Cleared(|p.traj|)
    ensures Simulate(s, p, first, snaps, n).binned
            == Simulate(s, p, first, snaps, n - 1).binned
               + Flatten(AppendSnapshot(Simulate(s, p, first, snaps, n - 1).traj, snaps[n - 1]))
  {
    var q := Simulate(s, p, first, snaps, n - 1);
    AppendSnapshotContents(q.traj, snaps[n - 1]);
    assert snaps[n - 1][0] in multiset(Flatten(AppendSnapshot(q.traj, snaps[n - 1])));
  }

  /** With a histogram but no usable stride, a run of at least one step raises on its
      first step: `MissingHistoStride` without a stride, `ZeroHistoStride` for 0. */
  lemma {:induction false} SimulateRaisesWithoutStride(s: Schedule, p: Progress, first: int,
                                                       snaps: seq<seq<Position>>, n: nat)
    requires SnapshotsFit(snaps, |p.traj|) && 0 < n <= |snaps| && p.err == None
    requires s.hasHisto && (s.histoStride.None? || s.histoStride.value == 0)
    ensures Simulate(s, p, first, snaps, n).err
            == Some(if s.histoStride.None? then MissingHistoStride else ZeroHistoStride)
    decreases n
  {
    if n > 1 {
      SimulateRaisesWithoutStride(s, p, first, snaps, n - 1);
    }
  }

  /** Global step `i` neither raises nor flushes: no histogram, or a nonzero stride
      that `i` is not a multiple of. */
  predicate NoFlush(s: Schedule, i: int)
  {
    !s.hasHisto || (s.histoStride.Some? && s.histoStride.value != 0 && i % s.histoStride.value != 0)
  }

  /** While no visited step flushes, nothing raises, nothing reaches the histogram and
      every step appends each particle's new position to its own list. */
  lemma {:induction false} SimulateNoFlush(s: Schedule, p: Progress, first: int, snaps: seq<seq<Position>>, n: nat)
    requires SnapshotsFit(snaps, |p.traj|) && n <= |snaps| && p.err == None
    requires forall t :: first <= t < first + n ==> NoFlush(s, t)
    ensures Simulate(s, p, first, snaps, n).err == None
    ensures Simulate(s, p, first, snaps, n).binned == p.binned
    ensures forall j :: 0 <= j < |p.traj|
              ==> Simulate(s, p, first, snaps, n).traj[j] == p.traj[j] + Column(snaps, j, n)
    decreases n
  {
    if n > 0 {
      SimulateNoFlush(s, p, first, snaps, n - 1);
      assert NoFlush(s, first + n - 1);
      var r := Simulate(s, p, first, snaps, n);
      forall j | 0 <= j < |p.traj|
        ensures r.traj[j] == p.traj[j] + Column(snaps, j, n)
      {
        assert Column(snaps, j, n) == Column(snaps, j, n - 1) + [snaps[n - 1][j]];
      }
    }
  }

  /** Every position the driver has seen and kept: those given to the histogram and
      those still stored. */
  function Seen(p: Progress): multiset<Position>
  {
    multiset(p.binned) + Stored(p.traj)
  }

  /** The positions stored over all particles' lists, gathered list by list.
      `StoredFlatten` shows it is `multiset(Flatten(traj))`; the conservation
      proofs use this form because it unfolds one list at a time, where the
      multiset of a concatenation would have to be split at every step. */
  function Stored(traj: seq<seq<Position>>): multiset<Position>
  {
    if traj == [] then multiset{} else Stored(traj[..|traj| - 1]) + multiset(traj[|traj| - 1])
  }

  lemma {:induction false} StoredFlatten(traj: seq<seq<Position>>)
    ensures Stored(traj) == multiset(Flatten(traj))
  {
    if traj != [] {
      StoredFlatten(traj[..|traj| - 1]);
    }
  }

  /** All positions of the first `n` snapshots. */
  function Produced(snaps: seq<seq<Position>>, n: nat): multiset<Position>
    requires n <= |snaps|
  {
    if n == 0 then multiset{} else Produced(snaps, n - 1) + multiset(snaps[n - 1])
  }

  /** Advancing adds exactly the new positions to those seen. */
  lemma AdvanceConserves(s: Schedule, p: Progress, i: int, snap: seq<Position>)
    requires |snap| == |p.traj|
    ensures Seen(Advance(s, p, i, snap)) == Seen(p) + multiset(snap)
    ensures Advance(s, p, i, snap).binned == p.binned
  {
    AppendSnapshotContents(p.traj, snap);
    StoredFlatten(p.traj);
    StoredFlatten(AppendSnapshot(p.traj, snap));
  }

  /** A flush that does not raise moves positions from the lists to the histogram. */
  lemma HistoCheckConserves(s: Schedule, q: Progress, i: int)
    requires HistoCheck(s, q, i).err == None
    ensures Seen(HistoCheck(s, q, i)) == Seen(q)
    ensures q.binned <= HistoCheck(s, q, i).binned
  {
    ClearedIsEmpty(|q.traj|);
    StoredFlatten(q.traj);
    StoredFlatten(Cleared(|q.traj|));
  }

  /** One step adds the new positions to those seen and loses none. */
  lemma StepConserves(s: Schedule, q: Progress, i: int, snap: seq<Position>, r: Progress)
    requires |snap| == |q.traj| && q.err == None
    requires r == Step(s, q, i, snap) && r.err == None
    ensures Seen(r) == Seen(q) + multiset(snap)
    ensures q.binned <= r.binned
  {
    AdvanceConserves(s, q, i, snap);
    HistoCheckConserves(s, Advance(s, q, i, snap), i);
  }

  /** The last of `n > 0` steps, and that it ran on a state that had not raised. */
  lemma SimulateLast(s: Schedule, p: Progress, first: int, snaps: seq<seq<Position>>, n: nat)
    requires SnapshotsFit(snaps, |p.traj|) && 0 < n <= |snaps|
    requires Simulate(s, p, first, snaps, n).err == None
    ensures Simulate(s, p, first, snaps, n - 1).err == None
    ensures |snaps[n - 1]| == |Simulate(s, p, first, snaps, n - 1).traj|
    ensures Simulate(s, p, first, snaps, n)
         == Step(s, Simulate(s, p, first, snaps, n - 1), first + n - 1, snaps[n - 1])
  {
  }

  /** No position is lost: every position a step produces is afterwards either still
      stored or in the histogram. */
  lemma {:induction false} SimulateConserves(s: Schedule, p: Progress, first: int, snaps: seq<seq<Position>>, n: nat)
    requires SnapshotsFit(snaps, |p.traj|) && n <= |snaps|
    requires Simulate(s, p, first, snaps, n).err == None
    ensures Seen(Simulate(s, p, first, snaps, n)) == Seen(p) + Produced(snaps, n)
    decreases n
  {
    if n > 0 {
      var q := Simulate(s, p, first, snaps, n - 1);
      var r := Simulate(s, p, first, snaps, n);
      SimulateLast(s, p, first, snaps, n);
      SimulateConserves(s, p, first, snaps, n - 1);
      StepConserves(s, q, first + n - 1, snaps[n - 1], r);
      assert Seen(r) == Seen(p) + (Produced(snaps, n - 1) + multiset(snaps[n - 1]));
    }
  }

  /** The histogram's points only ever grow at their end. */
  lemma {:induction false} SimulateBinnedGrows(s: Schedule, p: Progress, first: int,
                                               snaps: seq<seq<Position>>, n: nat)
    requires SnapshotsFit(snaps, |p.traj|) && n <= |snaps|
    requires Simulate(s, p, first, snaps, n).err == None
    ensures p.binned <= Simulate(s, p, first, snaps, n).binned
    decreases n
  {
    if n > 0 {
      var q := Simulate(s, p, first, snaps, n - 1);
      var r := Simulate(s, p, first, snaps, n);
      SimulateLast(s, p, first, snaps, n);
      SimulateBinnedGrows(s, p, first, snaps, n - 1);
      StepConserves(s, q, first + n - 1, snaps[n - 1], r);
      assert p.binned <= q.binned <= r.binned;
    }
  }

  // ---------------------------------------------------------------------------
  // The driver
  // ---------------------------------------------------------------------------

  class BirthDeathLangevinDynamics {
    const nDim: nat
    const nParticles: nat
    const bdStride: int
    const bdBw: seq<real>
    /** Whether `setup` created the birth-death instance. */
    const hasBd: bool
    var traj: seq<seq<Position>>
    var trajFilenames: seq<string>
    var totalSteps: int
    /** Whether a histogram has been initialised. */
    var hasHisto: bool
    var histoStride: Option<int>
    /** Every point handed to the current histogram, in order. */
    var binned: seq<Position>

    ghost predicate Valid()
      reads this
    {
      |traj| == nParticles && hasBd == (bdStride != 0)
    }

    function Sched(): Schedule
      reads this
    {
      Schedule(bdStride, hasHisto, histoStride)
    }

    function State(): Progress
      reads this
    {
      Progress(traj, binned, [], None)
    }

    /** `__init__` followed by `setup`: the checks of `SetupCheck`, then one
        trajectory list per particle holding its starting position. */
    static method Create(nDim: nat, bdStride: int, bdBw: seq<real>, start: seq<Position>)
      returns (r: Result<BirthDeathLangevinDynamics, DriverError>)
      ensures SetupCheck(bdStride, nDim, bdBw).Some? ==> r == Failure(SetupCheck(bdStride, nDim, bdBw).value)
      ensures SetupCheck(bdStride, nDim, bdBw) == None ==>
                (&& r.Success? && fresh(r.value) && r.value.Valid()
                 && r.value.nDim == nDim && r.value.nParticles == |start|
                 && r.value.bdStride == bdStride && r.value.bdBw == bdBw
                 && r.value.hasBd == (bdStride != 0)
                 && r.value.traj == seq(|start|, j requires 0 <= j < |start| => [start[j]])
                 && r.value.trajFilenames == [] && r.value.totalSteps == 0
                 && !r.value.hasHisto && r.value.histoStride == Some(0) && r.value.binned == [])
    {
      var e := SetupCheck(bdStride, nDim, bdBw);
      if e.Some? {
        return Failure(e.value);
      }
      var d := new BirthDeathLangevinDynamics(nDim, bdStride, bdBw, start);
      return Success(d);
    }

    constructor (nDim: nat, bdStride: int, bdBw: seq<real>, start: seq<Position>)
      ensures Valid()
      ensures this.nDim == nDim && nParticles == |start| && this.bdStride == bdStride && this.bdBw == bdBw
      ensures hasBd == (bdStride != 0)
      ensures traj == seq(|start|, j requires 0 <= j < |start| => [start[j]])
      ensures trajFilenames == [] && totalSteps == 0
      ensures !hasHisto && histoStride == Some(0) && binned == []
    {
      this.nDim := nDim;
      nParticles := |start|;
      this.bdStride := bdStride;
      this.bdBw := bdBw;
      hasBd := bdStride != 0;
      traj := seq(|start|, j requires 0 <= j < |start| => [start[j]]);
      trajFilenames := [];
      totalSteps := 0;
      hasHisto := false;
      histoStride := Some(0);
      binned := [];
    }

    /** `init_histo`: check one bin count and one range per dimension, then start an
        empty histogram; without a stride the default is 1000000 // nParticles,
        which raises for no particles after the histogram was already set. */
    method InitHisto(nBins: seq<int>, ranges: seq<(real, real)>, stride: Option<int>)
      returns (e: Option<DriverError>)
      requires Valid()
      modifies this
      ensures Valid()
      ensures traj == old(traj) && trajFilenames == old(trajFilenames) && totalSteps == old(totalSteps)
      ensures |nBins| != nDim ==> e == Some(HistoBinsDimMismatch)
      ensures |nBins| == nDim && |ranges| != nDim ==> e == Some(HistoRangesDimMismatch)
      ensures e == Some(HistoBinsDimMismatch) || e == Some(HistoRangesDimMismatch)
              ==> hasHisto == old(hasHisto) && histoStride == old(histoStride) && binned == old(binned)
      ensures |nBins| == nDim && |ranges| == nDim ==>
                (&& hasHisto && binned == []
                 && (stride.Some? ==> e == None && histoStride == stride)
                 && (stride.None? && nParticles == 0 ==> e == Some(NoParticles) && histoStride == None)
                 && (stride.None? && nParticles > 0 ==> e == None && histoStride == Some(1000000 / nParticles)))
    {
      if nDim != |nBins| {
        return Some(HistoBinsDimMismatch);
      }
      if nDim != |ranges| {
        return Some(HistoRangesDimMismatch);
      }
      hasHisto := true;
      binned := [];
      histoStride := stride;
      if histoStride.None? {
        if nParticles == 0 {
          return Some(NoParticles);
        }
        histoStride := Some(1000000 / nParticles);
      }
      return None;
    }

    /** `init_traj_files`: one file per particle, or it raises; the headers are I/O. */
    method InitTrajFiles(filenames: seq<string>) returns (e: Option<DriverError>)
      requires Valid()
      modifies this
      ensures Valid()
      ensures traj == old(traj) && totalSteps == old(totalSteps) && binned == old(binned)
      ensures hasHisto == old(hasHisto) && histoStride == old(histoStride)
      ensures e == None <==> |filenames| == nParticles
      ensures e != None ==> e == Some(TrajFileCountMismatch) && trajFilenames == old(trajFilenames)
      ensures e == None ==> trajFilenames == filenames
    {
      if |filenames| != nParticles {
        return Some(TrajFileCountMismatch);
      }
      trajFilenames := filenames;
      return None;
    }

    /** `save_traj`: the file appends are I/O; with `clear` each particle's list
        is emptied, otherwise nothing changes. */
    method SaveTraj(clear: bool)
      requires Valid()
      modifies this
      ensures Valid()
      ensures clear ==> traj == Cleared(nParticles)
      ensures !clear ==> traj == old(traj)
      ensures trajFilenames == old(trajFilenames) && totalSteps == old(totalSteps) && binned == old(binned)
      ensures hasHisto == old(hasHisto) && histoStride == old(histoStride)
    {
      if clear {
        traj := seq(nParticles, _ => []);
      }
    }

    /** `add_traj_to_histo`: raises without a histogram, otherwise `AddToHisto`. */
    method AddTrajToHisto() returns (e: Option<DriverError>)
      requires Valid()
      modifies this
      ensures Valid()
      ensures !old(hasHisto) ==> e == Some(NoHistogram) && traj == old(traj) && binned == old(binned)
      ensures old(hasHisto) ==> var q := AddToHisto(old(State()));
                                traj == q.traj && binned == q.binned && e == q.err
      ensures trajFilenames == old(trajFilenames) && totalSteps == old(totalSteps)
      ensures hasHisto == old(hasHisto) && histoStride == old(histoStride)
    {
      if !hasHisto {
        return Some(NoHistogram);
      }
      var comb := Flatten(traj);
      if comb == [] {
        return Some(EmptyTrajectory);
      }
      binned := binned + comb;
      SaveTraj(true);
      return None;
    }

    /** `save_fes` up to the free-energy computation: raises without a histogram,
        otherwise first hands any stored positions to it, so that afterwards the
        histogram holds every point and the lists are empty. */
    method SaveFes() returns (e: Option<DriverError>)
      requires Valid()
      modifies this
      ensures Valid()
      ensures e == None <==> old(hasHisto)
      ensures e != None ==> e == Some(NoHistogram) && traj == old(traj) && binned == old(binned)
      ensures e == None ==> binned == old(binned) + Flatten(old(traj)) && TotalLength(traj) == 0
      ensures trajFilenames == old(trajFilenames) && totalSteps == old(totalSteps)
      ensures hasHisto == old(hasHisto) && histoStride == old(histoStride)
    {
      if !hasHisto {
        return Some(NoHistogram);
      }
      TotalLengthZero(traj);
      if exists j :: 0 <= j < |traj| && traj[j] != [] {
        e := AddTrajToHisto();
        ClearedIsEmpty(nParticles);
      } else {
        assert Flatten(traj) == [];
        e := None;
      }
    }

    /** `for j, p in enumerate(particles): traj[j].append(p.pos)`. */
    method AppendPositions(snap: seq<Position>)
      requires Valid() && |snap| == nParticles
      modifies this
      ensures Valid()
      ensures traj == AppendSnapshot(old(traj), snap)
      ensures trajFilenames == old(trajFilenames) && totalSteps == old(totalSteps) && binned == old(binned)
      ensures hasHisto == old(hasHisto) && histoStride == old(histoStride)
    {
      var j := 0;
      while j < nParticles
        invariant 0 <= j <= nParticles && |traj| == nParticles
        invariant forall m :: 0 <= m < j ==> traj[m] == old(traj)[m] + [snap[m]]
        invariant forall m :: j <= m < nParticles ==> traj[m] == old(traj)[m]
        invariant trajFilenames == old(trajFilenames) && totalSteps == old(totalSteps) && binned == old(binned)
        invariant hasHisto == old(hasHisto) && histoStride == old(histoStride)
      {
        traj := traj[j := traj[j] + [snap[j]]];
        j := j + 1;
      }
    }

    /** `run(numSteps)`: global steps `totalSteps + 1 ..` one per snapshot (none for
        a negative count), each as `Step` describes; the result lists the steps
        birth-death fired on. The counter grows by `numSteps`, negative or not, unless
        a step raised. */
    method Run(numSteps: int, snapshots: seq<seq<Position>>) returns (r: Result<seq<int>, DriverError>)
      requires Valid()
      requires |snapshots| == (if numSteps > 0 then numSteps else 0)
      requires SnapshotsFit(snapshots, nParticles)
      modifies this
      ensures Valid()
      ensures var p := Simulate(old(Sched()), old(State()), old(totalSteps) + 1, snapshots, |snapshots|);
              && traj == p.traj && binned == p.binned
              && (p.err == None ==> r == Success(p.bdSteps) && totalSteps == old(totalSteps) + numSteps)
              && (p.err != None ==> r == Failure(p.err.value) && totalSteps == old(totalSteps))
      ensures trajFilenames == old(trajFilenames)
      ensures hasHisto == old(hasHisto) && histoStride == old(histoStride)
    {
      ghost var s := Sched();
      ghost var p0 := State();
      var first := totalSteps + 1;
      var fired: seq<int> := [];
      var k := 0;
      while k < |snapshots|
        invariant 0 <= k <= |snapshots| && Valid()
        invariant Simulate(s, p0, first, snapshots, k) == Progress(traj, binned, fired, None)
        invariant trajFilenames == old(trajFilenames) && totalSteps == old(totalSteps)
        invariant hasHisto == old(hasHisto) && histoStride == old(histoStride)
      {
        var i := first + k;
        if hasBd && i % bdStride == 0 {
          fired := fired + [i];
        }
        AppendPositions(snapshots[k]);
        if hasHisto {
          if histoStride.None? {
            SimulateErrorStays(s, p0, first, snapshots, k + 1, |snapshots|);
            return Failure(MissingHistoStride);
          }
          if histoStride.value == 0 {
            SimulateErrorStays(s, p0, first, snapshots, k + 1, |snapshots|);
            return Failure(ZeroHistoStride);
          }
          if i % histoStride.value == 0 {
            var e := AddTrajToHisto();
            if e.Some? {
              SimulateErrorStays(s, p0, first, snapshots, k + 1, |snapshots|);
              return Failure(e.value);
            }
          }
        }
        k := k + 1;
      }
      totalSteps := totalSteps + numSteps;
      return Success(fired);
    }
  }
}
