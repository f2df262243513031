# bdld: birth-death Langevin dynamics, discrete core

A Dafny model of the sequential, index-level logic of `bdld`, a Python package
that samples a potential with Langevin dynamics walkers and periodically
duplicates and kills walkers according to a birth-death rate `beta`.

Five modules, one per concern:

- `Wrappers` (`wrappers.dfy`): `Option` for Python's `None`, `Result` for an
  operation that may raise.
- `BirthDeathEvents` (`birth_death_events.dfy`): the pure logic of one
  birth-death selection.
  - `RandomParticle`: the partner choice that shifts past the excluded index.
  - Attempt counting.
  - Event candidates (`rand <= prob`) and the shuffle, given as a permutation.
  - The walk over the shuffled candidates that builds the `(dup, kill)` pairs.
  - Applying those pairs one after the other to a particle list.
- `BirthDeath` (`birth_death.dfy`): the birth-death action.
  - Its constructor checks and defaults.
  - The `Stats` counters, with `reset` and the ratios they report.
  - The class over the shared particle `array`, whose selection loop and
    event loop are imperative methods proved against the functions of
    `BirthDeathEvents`.
- `TrajectoryAction` (`trajectory_action.dfy`): the fixed-size ring buffer of
  trajectory rows.
  - Row `(step % writeStride) - 1`, where Python's `-1` is the last row.
  - The flush on multiples of `writeStride`.
  - The per-particle file names and `lastWrite`.
- `Bdld` (`bdld.dfy`): the simulation driver `BirthDeathLangevinDynamics`.
  - The checks of `setup`, `init_histo` and `init_traj_files`.
  - The global step counter that schedules birth-death across repeated
    `run` calls.
  - The per-particle trajectory lists.
  - The guarded hand-over of stored positions to the histogram.

The driver's `run` is proved against `Simulate`, a function of the schedule,
the starting state and the snapshots. The lemmas about `Simulate` state:

- which global steps birth-death fires on (`FiringSteps`);
- that an exception stops the run;
- that while no visited step flushes, every list grows by exactly its particle's new
  positions;
- that no position is ever lost: each is still stored or has been given to
  the histogram, whose points only grow at their end.

Randomness is replaced by explicit inputs:

- `rand`: the per-particle uniforms;
- `perm`: the order `shuffle` chooses;
- `draws`: the integer draws, the k-th of which is used by the k-th pair built.

`beta` and the event probabilities are inputs too. A draw range that is empty
(`rng.integers(0)`, fewer than two particles) raises in numpy. The model
returns `EmptyDrawRange` in that case.

Two behaviours of the code are worth stating, since a reader might expect
otherwise:

- `rate_factor or 1.0` (bdld/actions/birth_death.py:71) treats 0 like `None`:
  a rate factor of 0 selects the default 1.0 (`RateFactorNeverZero`).
- The kill indices of one call need not be distinct. The duplication branch
  picks its kill target without consulting the kill list, although the comment
  at bdld/actions/birth_death.py:161 says "prevent killing twice".
  `KillTargetsMayRepeat` exhibits two candidates with beta < 0 that both kill
  particle 2. Nothing in the model claims disjointness.

## Model

| member | source | states |
|---|---|---|
| BirthDeathEvents.RandomParticle | bdld/actions/birth_death.py:197-200 | the partner of `excl` lies in [0, numPart) and is never `excl` |
| BirthDeathEvents.PartnerDraw | bdld/actions/birth_death.py:197-200 | the draw that selects a given partner lies in [0, numPart - 1) |
| BirthDeathEvents.PartnerDrawInvertsRandomParticle | bdld/actions/birth_death.py:197-200 | recovering the draw from the partner gives back the draw |
| BirthDeathEvents.RandomParticleInvertsPartnerDraw | bdld/actions/birth_death.py:197-200 | the draw recovered from a partner selects that partner |
| BirthDeathEvents.RandomParticleInjective | bdld/actions/birth_death.py:197-200 | different draws give different partners |
| BirthDeathEvents.RandomParticleOnto | bdld/actions/birth_death.py:197-200 | every other particle is the partner of some draw: with injectivity a bijection, so a uniform draw gives a uniform partner |
| BirthDeathEvents.CountPositive | bdld/actions/birth_death.py:143 | the kill attempts of one call never exceed the particle count |
| BirthDeathEvents.CountNonPositive | bdld/actions/birth_death.py:145 | the duplication attempts of one call never exceed the particle count |
| BirthDeathEvents.AttemptsSplit | bdld/actions/birth_death.py:143-145 | kill attempts (beta > 0) plus duplication attempts (beta <= 0, so beta == 0 included) are exactly the particle count |
| BirthDeathEvents.NoPositiveNoKillAttempts | bdld/actions/birth_death.py:143-145 | with no positive beta every attempt is a duplication attempt |
| BirthDeathEvents.Candidates | bdld/actions/birth_death.py:149-151 | the candidates are exactly the indices with `rand[i] <= prob[i]`, strictly increasing, so each appears once |
| BirthDeathEvents.Shuffled | bdld/actions/birth_death.py:152 | the shuffle keeps the length and only yields candidates |
| BirthDeathEvents.PermutationCovers | bdld/actions/birth_death.py:152 | a permutation of m positions names every position (pigeonhole) |
| BirthDeathEvents.ShuffleIsPermutation | bdld/actions/birth_death.py:152 | shuffling distinct elements keeps exactly the same elements, each once |
| BirthDeathEvents.ShuffledCandidates | bdld/actions/birth_death.py:149-152 | the shuffled candidates are exactly the indices with `rand[i] <= prob[i]`, without repetition |
| BirthDeathEvents.Visit | bdld/actions/birth_death.py:154-163 | one candidate adds at most one pair to the lists, and exactly as many to the accepted counts |
| BirthDeathEvents.VisitBySign | bdld/actions/birth_death.py:155-163 | a reached candidate not queued for death, with a partner available: beta > 0 makes it the kill index with `random_particle` of it as dup and raises only the kill count; beta < 0 makes it the dup index with `random_particle` of it as kill and raises only the duplication count |
| BirthDeathEvents.Walked | bdld/actions/birth_death.py:153-163 | both lists have equal length, which is the number of accepted kills plus duplications and at most the visits |
| BirthDeathEvents.WalkedPairsValid | bdld/actions/birth_death.py:153-163 | every pair names two different particles in range |
| BirthDeathEvents.WalkedNext | bdld/actions/birth_death.py:153-163 | one more candidate is one more visit of the loop body |
| BirthDeathEvents.VisitExtends | bdld/actions/birth_death.py:153-163 | a visit only appends to the lists and keeps a failure |
| BirthDeathEvents.VisitSkips | bdld/actions/birth_death.py:154-163 | a candidate already queued for death, or with beta == 0, changes no list and no counter |
| BirthDeathEvents.VisitKillsPositive | bdld/actions/birth_death.py:155-158 | a visit of a beta > 0 candidate that does not raise leaves it in the kill list |
| BirthDeathEvents.VisitDupsNegative | bdld/actions/birth_death.py:159-162 | a visit of a beta < 0 candidate not queued for death that does not raise leaves it in the duplication list |
| BirthDeathEvents.WalkedExtends | bdld/actions/birth_death.py:153-163 | later visits only append to both lists, and a failure persists |
| BirthDeathEvents.WalkedFailureStays | bdld/actions/birth_death.py:153-163 | once `random_particle` has raised, the rest of the candidates change nothing |
| BirthDeathEvents.WalkedEventOrigin | bdld/actions/birth_death.py:155-163 | every pair comes from one visited candidate: with beta > 0 it is the kill index, with beta < 0 the dup index, and the partner is `random_particle` of it with that pair's own draw |
| BirthDeathEvents.WalkedKillsPositive | bdld/actions/birth_death.py:154-158 | every visited candidate with beta > 0 ends in the kill list, whether it was skipped or killed itself |
| BirthDeathEvents.WalkedDupsNegative | bdld/actions/birth_death.py:154-163 | every visited candidate with beta < 0 not queued for death when reached ends in the duplication list |
| BirthDeathEvents.WalkedFails | bdld/actions/birth_death.py:153-163 | the walk raises if and only if there are fewer than two particles and a candidate with nonzero beta is reached |
| BirthDeathEvents.WalkedSucceeds | bdld/actions/birth_death.py:153-163 | with at least two particles the walk never raises |
| BirthDeathEvents.KillTargetsMayRepeat | bdld/actions/birth_death.py:159-162 | two beta < 0 candidates can draw the same kill target, so kill indices are not disjoint |
| BirthDeathEvents.Zip | bdld/actions/birth_death.py:165 | pair k is (dup k, kill k), one pair per list entry |
| BirthDeathEvents.ZipInRange | bdld/actions/birth_death.py:165 | the returned pairs of valid lists name slots of the particle list |
| BirthDeathEvents.ApplyEvents | bdld/actions/birth_death.py:116-117 | applying events keeps the particle count |
| BirthDeathEvents.ApplyEventsUntouched | bdld/actions/birth_death.py:116-117 | a slot no event names as kill keeps its particle |
| BirthDeathEvents.ApplyEventsCopies | bdld/actions/birth_death.py:116-117 | every slot afterwards holds a copy of some particle from before |
| BirthDeathEvents.ApplyEventsLast | bdld/actions/birth_death.py:116-117 | the last event's kill slot holds what its dup slot held just before it |
| BirthDeath.OrDefault | bdld/actions/birth_death.py:71 | `x or d` on an optional float: None and 0.0 give the default, any other value is kept |
| BirthDeath.Configure | bdld/actions/birth_death.py:64-105 | kt == 0 raises; a truthy variant without equilibrium density raises; an unknown variant raises with its name, each if and only if; it succeeds exactly when none of these applies, and then stride, dt = md_dt * stride, 1/kt, the defaulted rate factor and the variant are set |
| BirthDeath.RateFactorNeverZero | bdld/actions/birth_death.py:71 | a configured action never has rate factor 0 |
| BirthDeath.Percent | bdld/actions/birth_death.py:293-300 | `100 * count / attempts`, NaN exactly when there were no attempts, within [0, 100] when count <= attempts |
| BirthDeath.Ratio | bdld/actions/birth_death.py:301-308 | `num / den`, NaN exactly when den == 0, never negative |
| BirthDeath.Stats.constructor | bdld/actions/birth_death.py:239-246 | all four counters start at zero |
| BirthDeath.Stats.Reset | bdld/actions/birth_death.py:265-270 | all four counters are zero |
| BirthDeath.Stats.Report | bdld/actions/birth_death.py:272-308 | with a file the record of the step and the four counters, else the summary: dup and kill percentages `100 * count / attempts`, the success ratio `dupCount / killCount` and the attempt ratio `dupAttempts / killAttempts`, each NaN exactly when its denominator is zero |
| BirthDeath.Stats.Print | bdld/actions/birth_death.py:272-325 | reports the counters as they were; zeroes them exactly when `reset` is set |
| BirthDeath.SelectionWalk | bdld/actions/birth_death.py:147-165 | the walk over the shuffled candidates yields equal-length lists; every pair names two different particles, so the returned events name slots of the list |
| BirthDeath.BirthDeath.Create | bdld/actions/birth_death.py:35-74 | fails with the error of `Configure`, else a fresh action with zeroed statistics |
| BirthDeath.BirthDeath.constructor | bdld/actions/birth_death.py:64-74 | the fields and fresh zeroed statistics |
| BirthDeath.BirthDeath.CalculateBirthDeath | bdld/actions/birth_death.py:130-165 | attempts grow by the counts of beta > 0 and beta <= 0 (together the particle count), accepted counts by those of the walk, and the result is the walk's pairs or `EmptyDrawRange` |
| BirthDeath.BirthDeath.WalkCandidates | bdld/actions/birth_death.py:153-165 | the loop computes exactly the walk, its counters and its pairs, or raises as the walk does |
| BirthDeath.BirthDeath.Run | bdld/actions/birth_death.py:109-123 | stride 0 raises; off the stride nothing changes; on the stride the counters grow as in `CalculateBirthDeath` and the particle array becomes `ApplyEvents` of the pairs, or is untouched if selection raises; it succeeds exactly when the stride is nonzero and no selection raised; the report is made on a multiple of a nonzero statistics stride |
| BirthDeath.BirthDeath.ApplyAll | bdld/actions/birth_death.py:116-117 | the array after the loop is `ApplyEvents` of the array before |
| BirthDeath.BirthDeath.FinalRun | bdld/actions/birth_death.py:125-128 | reports exactly when no statistics stride was set |
| TrajectoryAction.OrDefault | bdld/actions/trajectory_action.py:44-45 | `x or d` on an optional integer: None and 0 give the default |
| TrajectoryAction.DecimalString | bdld/actions/trajectory_action.py:52 | `str(i)` is a non-empty string of decimal digits |
| TrajectoryAction.ParseDecimalString | bdld/actions/trajectory_action.py:52 | reading the digits back gives the number |
| TrajectoryAction.TrajFilenames | bdld/actions/trajectory_action.py:51-52 | one file name per particle |
| TrajectoryAction.FilenameSuffix | bdld/actions/trajectory_action.py:52 | name i is the base, a dot, and a suffix that reads back as i |
| TrajectoryAction.FilenamesDistinct | bdld/actions/trajectory_action.py:52 | no two particles share a file |
| TrajectoryAction.RowOf | bdld/actions/trajectory_action.py:69 | the row index lies in [0, writeStride) |
| TrajectoryAction.RowIsPreviousStep | bdld/actions/trajectory_action.py:69 | the row is `(step - 1) mod writeStride`; a multiple of writeStride writes the last row |
| TrajectoryAction.RowOfNextStep | bdld/actions/trajectory_action.py:69 | consecutive steps fill consecutive rows, wrapping after the last |
| TrajectoryAction.RunTouchesOneRow | bdld/actions/trajectory_action.py:69-71 | every row other than `(step - 1) mod writeStride` is unchanged by a run |
| TrajectoryAction.TrajectoryAction.Create | bdld/actions/trajectory_action.py:24-48 | a negative write stride raises, exactly; otherwise the fields and buffers of the constructor |
| TrajectoryAction.TrajectoryAction.constructor | bdld/actions/trajectory_action.py:41-57 | strides default to 1 and 100 for None or 0; buffers of writeStride rows of nParticles x nDim; file names `base.i` exactly when the base is truthy |
| TrajectoryAction.TrajectoryAction.HasFiles | bdld/actions/trajectory_action.py:92 | `write` reaches the files exactly when a base name was given and there is at least one particle |
| TrajectoryAction.TrajectoryAction.Run | bdld/actions/trajectory_action.py:61-74 | only the step's row of both buffers changes, to the positions and `step * dt`; a flush happens exactly on multiples of writeStride |
| TrajectoryAction.TrajectoryAction.Write | bdld/actions/trajectory_action.py:80-107 | without file names nothing changes; with them `lastWrite` becomes `step` |
| TrajectoryAction.TrajectoryAction.FinalRun | bdld/actions/trajectory_action.py:76-78 | a final write |
| Bdld.SetupCheck | bdld/bdld.py:57-67 | with birth-death on, a bandwidth count other than nDim raises, then a bandwidth <= 0 raises; it passes if and only if birth-death is off or all bandwidths are positive and match nDim |
| Bdld.FiringSteps | bdld/bdld.py:183-186 | at most one firing per visited step, each a visited multiple of the stride |
| Bdld.FiringStepsMembers | bdld/bdld.py:183-186 | birth-death fires on a visited step if and only if it is a multiple of the stride |
| Bdld.FiringStepsIncreasing | bdld/bdld.py:183-186 | the firing steps come in increasing order |
| Bdld.FiringStepsSplit | bdld/bdld.py:176-191 | running a steps and then b steps fires on the same global steps as running a + b steps |
| Bdld.RepeatedRunsExample | bdld/bdld.py:176-179 | stride 10, 6 steps then 7: the first run never fires, the second fires once, on its 4th step |
| Bdld.Flatten | bdld/bdld.py:166 | the flattened trajectory has all stored positions |
| Bdld.TotalLengthZero | bdld/bdld.py:238 | nothing is stored if and only if every particle's list is empty |
| Bdld.Cleared | bdld/bdld.py:227 | one list per particle |
| Bdld.ClearedIsEmpty | bdld/bdld.py:227 | cleared lists store nothing |
| Bdld.AppendSnapshot | bdld/bdld.py:187-188 | one list per particle still |
| Bdld.AppendSnapshotContents | bdld/bdld.py:187-188 | appending a snapshot stores exactly its positions in addition |
| Bdld.Column | bdld/bdld.py:187-188 | one position per step |
| Bdld.AddToHisto | bdld/bdld.py:164-168 | the flush keeps one list per particle |
| Bdld.Advance | bdld/bdld.py:183-188 | a step keeps one list per particle |
| Bdld.HistoCheck | bdld/bdld.py:189-190 | the histogram check keeps one list per particle; its effect over a run is stated by `SimulateFlushes` and `SimulateRaisesWithoutStride` |
| Bdld.Step | bdld/bdld.py:183-190 | one global step keeps one list per particle |
| Bdld.Simulate | bdld/bdld.py:183-190 | the steps keep one list per particle, and a state that has raised stays as it is |
| Bdld.SimulateErrorStays | bdld/bdld.py:183-190 | once a step raised, no later step happens |
| Bdld.SimulateBdSteps | bdld/bdld.py:183-186 | a run that does not raise fires birth-death on exactly `FiringSteps` of the visited global steps, and never without birth-death |
| Bdld.SimulateFlushes | bdld/bdld.py:187-190 | on a multiple of a nonzero histogram stride the step does not raise (there is at least one particle), the lists with that step's positions appended go to the end of the histogram, and the lists are left empty |
| Bdld.SimulateRaisesWithoutStride | bdld/bdld.py:189-190 | with a histogram but a missing or zero stride, every run of at least one step raises, with the error of `%` by None or by 0 |
| Bdld.SimulateNoFlush | bdld/bdld.py:183-190 | while no visited step flushes (no histogram, or a nonzero stride no visited step is a multiple of) nothing raises, the histogram gets nothing, and each list grows by exactly its particle's positions, one per step |
| Bdld.AdvanceConserves | bdld/bdld.py:187-188 | appending adds exactly the new positions to those seen |
| Bdld.HistoCheckConserves | bdld/bdld.py:189-190 | a flush that does not raise moves positions from the lists to the histogram, losing and adding none |
| Bdld.StepConserves | bdld/bdld.py:183-190 | a step adds exactly its positions to those seen and only appends to the histogram |
| Bdld.SimulateConserves | bdld/bdld.py:183-190 | after a run that does not raise, the stored and histogrammed positions are those before plus all positions produced |
| Bdld.SimulateBinnedGrows | bdld/bdld.py:166-168 | the histogram's points only grow at their end |
| Bdld.BirthDeathLangevinDynamics.Create | bdld/bdld.py:32-70 | fails with the error of `SetupCheck`; otherwise one list per particle holding its start position, no histogram, step counter 0 |
| Bdld.BirthDeathLangevinDynamics.constructor | bdld/bdld.py:41-53 | the fields and one single-position list per particle |
| Bdld.BirthDeathLangevinDynamics.InitHisto | bdld/bdld.py:114-139 | bin and range counts other than nDim raise and change nothing; otherwise an empty histogram with the given stride, or `1000000 // nParticles`, which raises for no particles after the histogram was set |
| Bdld.BirthDeathLangevinDynamics.InitTrajFiles | bdld/bdld.py:141-157 | raises if and only if the file count differs from the particle count; otherwise the names are kept |
| Bdld.BirthDeathLangevinDynamics.SaveTraj | bdld/bdld.py:216-227 | with `clear` one empty list per particle, otherwise nothing changes |
| Bdld.BirthDeathLangevinDynamics.AddTrajToHisto | bdld/bdld.py:159-168 | raises without a histogram; otherwise the flush of `AddToHisto` |
| Bdld.BirthDeathLangevinDynamics.SaveFes | bdld/bdld.py:229-239 | raises if and only if there is no histogram; otherwise the histogram has every stored position appended and the lists are empty |
| Bdld.BirthDeathLangevinDynamics.AppendPositions | bdld/bdld.py:187-188 | each particle's list gets its new position at the end |
| Bdld.BirthDeathLangevinDynamics.Run | bdld/bdld.py:170-191 | lists, histogram and fired steps are those of `Simulate` over the global steps after the counter; the counter grows by `numSteps` unless a step raised |

## Left out

- Beta and the event probabilities are inputs. This leaves out `calc_betas`,
  `walker_density`, the kernels, `dens_kernel_convolution`,
  `calc_additive_correction`, `nd_trapz` and the unused `walker_density_grid`.
  They are floating-point log, exp and Gaussian numerics over a grid class
  that is not part of this model.
- Python floats are modelled as exact reals, so rounding, overflow to inf and
  NaN arithmetic are not modelled. This affects `Percent`, `Ratio`, the
  `dt` of `Configure` and its `invKt * kt == 1.0`.
- The random generator is replaced by explicit inputs. The model fixes one
  consumption order: the k-th integer draw belongs to the k-th pair built.
  That is the order in which `random_particle` calls happen.
  `rng.random` and `rng.shuffle` become the `rand` and `perm` inputs.
- Output is left out. This covers the statistics file and its header, the
  printed summary and the `print` calls of the constructor. `Report` returns
  the values that would be written or printed.
- The trajectory file writes are left out: `get_valid_data` is not part of
  this model, and neither are `initialize_file` or `np.savetxt`. `Write` keeps
  only its effect on `lastWrite`, and `stride` and `write_fmt` serve only
  these writes.
- The driver's file headers (`generate_fileheader`), `save_analysis_grid`,
  `plot_fes` and the free-energy computation of `save_fes` are left out. They
  are plotting, file I/O and histogram numerics.
- The Langevin integrator, the birth-death instance called from the driver and
  the histogram are abstract:
  - the integrator's result is the snapshot sequence given to `Run`;
  - a birth-death step is recorded by its global step number;
  - the histogram is the sequence of points given to it, and it counts as set
    once `init_histo` has created it.
- `setup_bd` and `bd_prob_density` are left out. The driver calls a
  `BirthDeath` signature and a `.step()` that do not match the birth-death
  action modelled here, and the density is float grid sizing.
  `BirthDeathLangevinDynamics.Create` keeps only the checks of `setup` and the
  `hasBd` flag.
- `copy.deepcopy` of a particle is a value copy of an immutable record.
- bin/kernel_convolution.py and bdld/histogram.py are not part of this model.
  The first is a command-line script, the second a wrapper of numpy's
  histogramming.
- The seed, `kt` other than its zero check, and the correction grids are
  stored or needed only by the numerics above.
