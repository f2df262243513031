/**
 * The birth-death action of bdld/actions/birth_death.py: construction-time
 * configuration checks, the statistics counters, one selection call and the
 * step that applies its events to the particle list shared with the dynamics.
 * Beta and the event probabilities come from floating-point kernel density
 * numerics and are inputs here; only their sign and the `rand <= prob`
 * comparison enter the model.
 */
module BirthDeath {
  import opened Wrappers
  import opened BirthDeathEvents

  /** The closed set of corrections to the original algorithm. */
  datatype CorrectionVariant = NoCorrection | Additive | Multiplicative

  /** The exceptions the action raises. */
  datatype BdError =
    | ZeroKt                      // `1 / kt` with kt == 0
    | MissingEqDensity            // a correction variant without an equilibrium density
    | UnknownVariant(name: string)
    | ZeroStride                  // `step % stride` with stride == 0
    | EmptyDrawRange              // `rng.integers(0)`: a partner is needed among fewer than two particles

  /** The settings fixed at construction. */
  datatype Config = Config(
    stride: int, dt: real, kt: real, invKt: real, rateFac: real, variant: CorrectionVariant)

  /** Python's `x or d` on an optional float: `None` and 0.0 both give the default. */
  function OrDefault(x: Option<real>, d: real): (r: real)
    ensures (x == None || x == Some(0.0)) ==> r == d
    ensures x.Some? && x.value != 0.0 ==> r == x.value
  {
    if x.Some? && x.value != 0.0 then x.value else d
  }

  /** The checks and defaults of the constructor, in the order it performs them. */
  function Configure(
    mdDt: real, stride: int, kt: real, rateFactor: Option<real>,
    correctionVariant: Option<string>, hasEqDensity: bool): (r: Result<Config, BdError>)
    ensures kt == 0.0 <==> r == Failure(ZeroKt)
    ensures r == Failure(MissingEqDensity)
        <==> kt != 0.0 && Truthy(correctionVariant) && !hasEqDensity
    ensures r.Failure? && r.error.UnknownVariant?
        <==> kt != 0.0 && Truthy(correctionVariant) && hasEqDensity
             && correctionVariant.value != "additive" && correctionVariant.value != "multiplicative"
    ensures r.Success? <==>
              kt != 0.0
              && (!Truthy(correctionVariant)
                  || (hasEqDensity
                      && (correctionVariant.value == "additive"
                          || correctionVariant.value == "multiplicative")))
    ensures r.Failure? && r.error.UnknownVariant? ==> r.error.name == correctionVariant.value
    ensures r.Success? ==>
              && r.value.stride == stride
              && r.value.dt == mdDt * stride as real
              && r.value.kt == kt && r.value.invKt * kt == 1.0
              && r.value.rateFac == OrDefault(rateFactor, 1.0)
              && (r.value.variant == NoCorrection <==> !Truthy(correctionVariant))
              && (r.value.variant == Additive <==> correctionVariant == Some("additive"))
              && (r.value.variant == Multiplicative <==> correctionVariant == Some("multiplicative"))
  {
    if kt == 0.0 then Failure(ZeroKt)
    else
      var cfg := Config(stride, mdDt * stride as real, kt, 1.0 / kt, OrDefault(rateFactor, 1.0), NoCorrection);
      if !Truthy(correctionVariant) then Success(cfg)
      else if !hasEqDensity then Failure(MissingEqDensity)
      else if correctionVariant.value == "additive" then Success(cfg.(variant := Additive))
      else if correctionVariant.value == "multiplicative" then Success(cfg.(variant := Multiplicative))
      else Failure(UnknownVariant(correctionVariant.value))
  }

  /** A successfully configured action never has a zero rate factor: passing 0 does
      not switch the events off, it selects the default 1.0. */
  lemma RateFactorNeverZero(
    mdDt: real, stride: int, kt: real, rateFactor: Option<real>,
    correctionVariant: Option<string>, hasEqDensity: bool)
    requires Configure(mdDt, stride, kt, rateFactor, correctionVariant, hasEqDensity).Success?
    ensures Configure(mdDt, stride, kt, rateFactor, correctionVariant, hasEqDensity).value.rateFac != 0.0
  {
  }

  // ---------------------------------------------------------------------------
  // Statistics
  // ---------------------------------------------------------------------------

  /** `100 * count / attempts`, or `None` (NaN) when nothing was attempted. */
  function Percent(count: nat, attempts: nat): (r: Option<real>)
    ensures r.None? <==> attempts == 0
    ensures r.Some? ==> r.value * attempts as real == 100.0 * count as real
    ensures r.Some? && count <= attempts ==> 0.0 <= r.value <= 100.0
  {
    if attempts == 0 then None else Some(100.0 * count as real / attempts as real)
  }

  /** `num / den`, or `None` (NaN) when the denominator is zero. */
  function Ratio(num: nat, den: nat): (r: Option<real>)
    ensures r.None? <==> den == 0
    ensures r.Some? ==> r.value * den as real == num as real && r.value >= 0.0
  {
    if den == 0 then None else Some(num as real / den as real)
  }

  /** What one report produces: the raw record appended to the statistics file,
      or the percentages and ratios of the printed summary. */
  datatype StatsReport =
    | Record(step: int, dupSucc: nat, dupAttempts: nat, killSucc: nat, killAttempts: nat)
    | Summary(dupPerc: Option<real>, killPerc: Option<real>,
              ratioSucc: Option<real>, ratioAttempts: Option<real>)

  /** The counters of accepted and attempted events. */
  class Stats {
    var dupCount: nat
    var dupAttempts: nat
    var killCount: nat
    var killAttempts: nat
    const toFile: bool

    /** All counters start at zero; `toFile` is whether a statistics file name was given. */
    constructor (toFile: bool)
      ensures dupCount == 0 && dupAttempts == 0 && killCount == 0 && killAttempts == 0
      ensures this.toFile == toFile
    {
      dupCount, dupAttempts, killCount, killAttempts := 0, 0, 0, 0;
      this.toFile := toFile;
    }

    method Reset()
      modifies this
      ensures dupCount == 0 && dupAttempts == 0 && killCount == 0 && killAttempts == 0
    {
      dupCount := 0;
      dupAttempts := 0;
      killCount := 0;
      killAttempts := 0;
    }

    /** The report of the current counters, computed without changing them. */
    function Report(step: int): (r: StatsReport)
      reads this
      ensures toFile <==> r.Record?
      ensures r.Summary? ==>
                && (r.killPerc.None? <==> killAttempts == 0)
                && (r.dupPerc.None? <==> dupAttempts == 0)
                && (r.ratioSucc.None? <==> killCount == 0)
                && (r.ratioAttempts.None? <==> killAttempts == 0)
    ensures r.Record? ==> r == Record(step, dupCount, dupAttempts, killCount, killAttempts)
    ensures r.Summary? ==>
              && (r.dupPerc.Some? ==> r.dupPerc.value * dupAttempts as real == 100.0 * dupCount as real)
              && (r.killPerc.Some? ==> r.killPerc.value * killAttempts as real == 100.0 * killCount as real)
              && (r.ratioSucc.Some? ==> r.ratioSucc.value * killCount as real == dupCount as real)
              && (r.ratioAttempts.Some? ==> r.ratioAttempts.value * killAttempts as real == dupAttempts as real)
    {
      if toFile then Record(step, dupCount, dupAttempts, killCount, killAttempts)
      else Summary(Percent(dupCount, dupAttempts), Percent(killCount, killAttempts),
                   Ratio(dupCount, killCount), Ratio(dupAttempts, killAttempts))
    }

    /** Report the counters and zero them if `reset` is set. */
    method Print(step: int, reset: bool) returns (r: StatsReport)
      modifies this
      ensures r == old(Report(step))
      ensures reset ==> dupCount == 0 && dupAttempts == 0 && killCount == 0 && killAttempts == 0
      ensures !reset ==> dupCount == old(dupCount) && dupAttempts == old(dupAttempts)
                         && killCount == old(killCount) && killAttempts == old(killAttempts)
    {
      r := Report(step);
      if reset {
        Reset();
      }
    }
  }

  // ---------------------------------------------------------------------------
  // The action
  // ---------------------------------------------------------------------------

  /** The inputs that stand for beta and the random draws of one selection call. */
  predicate SelectionInputs(n: nat, beta: seq<real>, prob: seq<real>, rand: seq<real>,
                            perm: seq<nat>, draws: seq<nat>)
  {
    && |beta| == n && |prob| == n && |rand| == n
    && IsPermutation(perm, |Candidates(rand, prob)|)
    && |perm| <= |draws| && DrawsFit(draws, n)
  }

  /** The walk of one selection call over the shuffled candidates. */
  function SelectionWalk(beta: seq<real>, prob: seq<real>, rand: seq<real>,
                         perm: seq<nat>, draws: seq<nat>): (w: Walk)
    requires SelectionInputs(|beta|, beta, prob, rand, perm, draws)
    ensures |w.kills| == |w.dups| == w.killCount + w.dupCount
    ensures forall k :: 0 <= k < |w.kills| ==> PairValid(w, k, |beta|)
    ensures EventsInRange(Zip(w.dups, w.kills), |beta|)
  {
    var order := Shuffled(Candidates(rand, prob), perm);
    WalkedPairsValid(order, beta, draws, |order|);
    ZipInRange(Walked(order, beta, draws, |order|), |beta|);
    Walked(order, beta, draws, |order|)
  }

  class BirthDeath {
    /** The particle list shared with the dynamics. */
    const particles: array<Particle>
    const config: Config
    /** `stats_stride`, with 0 for `None`. */
    const statsStride: int
    const stats: Stats

    /** The raising constructor: the checks of `Configure`, then the fields. */
    static method Create(
      particles: array<Particle>, mdDt: real, stride: int, kt: real,
      rateFactor: Option<real>, correctionVariant: Option<string>, hasEqDensity: bool,
      statsStride: Option<int>, statsFilename: Option<string>)
      returns (r: Result<BirthDeath, BdError>)
      ensures var c := Configure(mdDt, stride, kt, rateFactor, correctionVariant, hasEqDensity);
              && (c.Failure? ==> r == Failure(c.error))
              && (c.Success? ==>
                    (&& r.Success? && fresh(r.value) && fresh(r.value.stats)
                     && r.value.particles == particles && r.value.config == c.value
                     && r.value.statsStride == (if statsStride.Some? then statsStride.value else 0)
                     && r.value.stats.toFile == Truthy(statsFilename)
                     && r.value.stats.dupCount == 0 && r.value.stats.dupAttempts == 0
                     && r.value.stats.killCount == 0 && r.value.stats.killAttempts == 0))
    {
      var c := Configure(mdDt, stride, kt, rateFactor, correctionVariant, hasEqDensity);
      if c.Failure? {
        return Failure(c.error);
      }
      var bd := new BirthDeath(particles, c.value,
                               if statsStride.Some? then statsStride.value else 0,
                               Truthy(statsFilename));
      return Success(bd);
    }

    constructor (particles: array<Particle>, config: Config, statsStride: int, statsToFile: bool)
      ensures this.particles == particles && this.config == config && this.statsStride == statsStride
      ensures fresh(stats) && stats.toFile == statsToFile
      ensures stats.dupCount == 0 && stats.dupAttempts == 0 && stats.killCount == 0 && stats.killAttempts == 0
    {
      this.particles := particles;
      this.config := config;
      this.statsStride := statsStride;
      stats := new Stats(statsToFile);
    }

    /** One selection call. The attempts are counted over all particles before any
        event is drawn; the events and the accepted counts are those of the walk over
        the shuffled candidates, and a walk that needs a partner among fewer than two
        particles raises after the attempts were counted. */
    method CalculateBirthDeath(beta: seq<real>, prob: seq<real>, rand: seq<real>,
                               perm: seq<nat>, draws: seq<nat>)
      returns (r: Result<seq<Event>, BdError>)
      requires SelectionInputs(particles.Length, beta, prob, rand, perm, draws)
      modifies stats
      ensures var w := SelectionWalk(beta, prob, rand, perm, draws);
              && stats.killAttempts == old(stats.killAttempts) + CountPositive(beta)
              && stats.dupAttempts == old(stats.dupAttempts) + (|beta| - CountPositive(beta))
              && stats.killCount == old(stats.killCount) + w.killCount
              && stats.dupCount == old(stats.dupCount) + w.dupCount
              && (w.failed ==> r == Failure(EmptyDrawRange))
              && (!w.failed ==> r == Success(Zip(w.dups, w.kills)))
    {
      var numPart := particles.Length;
      var currKillAttempts := CountPositive(beta);
      stats.killAttempts := stats.killAttempts + currKillAttempts;
      stats.dupAttempts := stats.dupAttempts + (numPart - currKillAttempts);
      var eventParticles := Shuffled(Candidates(rand, prob), perm);
      r := WalkCandidates(eventParticles, beta, draws);
    }

    /** The loop of `calculate_birth_death` over the shuffled candidates `order`:
        skip those already queued for death, and build one pair per candidate with
        nonzero beta, counting it as a kill or a duplication. */
    method WalkCandidates(order: seq<nat>, beta: seq<real>, draws: seq<nat>)
      returns (r: Result<seq<Event>, BdError>)
      requires |beta| == particles.Length
      requires WalkInputs(order, beta, draws)
      modifies stats
      ensures var w := Walked(order, beta, draws, |order|);
              && stats.killAttempts == old(stats.killAttempts)
              && stats.dupAttempts == old(stats.dupAttempts)
              && stats.killCount == old(stats.killCount) + w.killCount
              && stats.dupCount == old(stats.dupCount) + w.dupCount
              && (w.failed ==> r == Failure(EmptyDrawRange))
              && (!w.failed ==> r == Success(Zip(w.dups, w.kills)))
    {
      var numPart := particles.Length;
      var dupList: seq<nat> := [];
      var killList: seq<nat> := [];
      var next := 0;  // position of the next integer draw in the stream
      ghost var w := Walked(order, beta, draws, 0);
      var k := 0;
      while k < |order|
        invariant 0 <= k <= |order|
        invariant w == Walked(order, beta, draws, k)
        invariant !w.failed && dupList == w.dups && killList == w.kills && next == |killList|
        invariant stats.killCount == old(stats.killCount) + w.killCount
        invariant stats.dupCount == old(stats.dupCount) + w.dupCount
        invariant stats.killAttempts == old(stats.killAttempts)
        invariant stats.dupAttempts == old(stats.dupAttempts)
      {
        var i := order[k];
        WalkedNext(order, beta, draws, k);
        if i !in killList {
          if beta[i] > 0.0 {
            killList := killList + [i];
            if numPart < 2 {
              // `random_particle` draws from the empty range [0, numPart - 1) and raises
              WalkedFailureStays(order, beta, draws, k + 1, |order|);
              return Failure(EmptyDrawRange);
            }
            dupList := dupList + [RandomParticle(numPart, i, draws[next])];
            next := next + 1;
            stats.killCount := stats.killCount + 1;
            assert Visit(w, i, beta[i], numPart, draws)
                == Walk(dupList, killList, w.dupCount, w.killCount + 1, false);
          } else if beta[i] < 0.0 {
            dupList := dupList + [i];
            if numPart < 2 {
              WalkedFailureStays(order, beta, draws, k + 1, |order|);
              return Failure(EmptyDrawRange);
            }
            killList := killList + [RandomParticle(numPart, i, draws[next])];
            next := next + 1;
            stats.dupCount := stats.dupCount + 1;
            assert Visit(w, i, beta[i], numPart, draws)
                == Walk(dupList, killList, w.dupCount + 1, w.killCount, false);
          } else {
            assert Visit(w, i, beta[i], numPart, draws) == w;
          }
        } else {
          assert Visit(w, i, beta[i], numPart, draws) == w;
        }
        w := Visit(w, i, beta[i], numPart, draws);
        k := k + 1;
      }
      return Success(Zip(dupList, killList));
    }

    /** `run(step)`: on a multiple of the stride, select the events and apply them in
        order; then report the statistics on a multiple of the statistics stride. */
    method Run(step: int, beta: seq<real>, prob: seq<real>, rand: seq<real>,
               perm: seq<nat>, draws: seq<nat>)
      returns (r: Result<Option<StatsReport>, BdError>)
      requires SelectionInputs(particles.Length, beta, prob, rand, perm, draws)
      modifies particles, stats
      ensures config.stride == 0 ==>
                r == Failure(ZeroStride) && particles[..] == old(particles[..])
                && stats.killCount == old(stats.killCount) && stats.dupCount == old(stats.dupCount)
                && stats.killAttempts == old(stats.killAttempts) && stats.dupAttempts == old(stats.dupAttempts)
      ensures config.stride != 0 && step % config.stride != 0 ==>
                particles[..] == old(particles[..])
                && stats.killCount == old(stats.killCount) && stats.dupCount == old(stats.dupCount)
                && stats.killAttempts == old(stats.killAttempts) && stats.dupAttempts == old(stats.dupAttempts)
      ensures config.stride != 0 && step % config.stride == 0 ==>
                var w := SelectionWalk(beta, prob, rand, perm, draws);
                && stats.killAttempts == old(stats.killAttempts) + CountPositive(beta)
                && stats.dupAttempts == old(stats.dupAttempts) + (|beta| - CountPositive(beta))
                && stats.killCount == old(stats.killCount) + w.killCount
                && stats.dupCount == old(stats.dupCount) + w.dupCount
                && (w.failed ==> r == Failure(EmptyDrawRange) && particles[..] == old(particles[..]))
                && (!w.failed ==> particles[..] == ApplyEvents(old(particles[..]), Zip(w.dups, w.kills)))
      ensures r.Success? <==>
                config.stride != 0
                && !(step % config.stride == 0 && SelectionWalk(beta, prob, rand, perm, draws).failed)
      ensures r.Success? ==>
                r.value == (if statsStride != 0 && step % statsStride == 0
                            then Some(stats.Report(step)) else None)
    {
      if config.stride == 0 {
        return Failure(ZeroStride);
      }
      if step % config.stride == 0 {
        var selected := CalculateBirthDeath(beta, prob, rand, perm, draws);
        if selected.Failure? {
          return Failure(selected.error);
        }
        ApplyAll(selected.value);
      }
      if statsStride != 0 && step % statsStride == 0 {
        var report := stats.Print(step, false);
        return Success(Some(report));
      }
      return Success(None);
    }

    /** The loop of `run` that applies the events in list order, each overwriting the
        particle to kill with a copy of the one to duplicate. */
    method ApplyAll(events: seq<Event>)
      requires EventsInRange(events, particles.Length)
      modifies particles
      ensures particles[..] == ApplyEvents(old(particles[..]), events)
    {
      var k := 0;
      while k < |events|
        invariant 0 <= k <= |events|
        invariant particles[..] == ApplyEvents(old(particles[..]), events[..k])
      {
        assert events[..k + 1][..k] == events[..k];
        particles[events[k].kill] := particles[events[k].dup];
        k := k + 1;
      }
      assert events[..k] == events;
    }

    /** `final_run`: report once more when no statistics stride was set. */
    method FinalRun(step: int) returns (r: Option<StatsReport>)
      ensures r == if statsStride == 0 then Some(stats.Report(step)) else None
    {
      if statsStride == 0 {
        var report := stats.Report(step);
        return Some(report);
      }
      return None;
    }
  }
}
