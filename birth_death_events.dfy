/**
 * The index-level logic of the birth-death step (bdld/actions/birth_death.py):
 * partner selection, attempt counting, event candidates, the walk over the
 * shuffled candidates that emits (dup, kill) pairs, and the sequential
 * application of those pairs to the particle list.
 *
 * The random generator is replaced by explicit inputs: `rand` holds the
 * per-particle uniforms, `perm` the order chosen by the shuffle and `draws`
 * the integer draws, the k-th of which is consumed by the k-th event.
 */
module BirthDeathEvents {

  /** A walker as the dynamics keeps it; birth-death only ever copies whole records. */
  datatype Particle = Particle(pos: seq<real>, mom: seq<real>, energy: real)

  /** One event: the particle in slot `kill` becomes a copy of the one in slot `dup`. */
  datatype Event = Event(dup: nat, kill: nat)

  // ---------------------------------------------------------------------------
  // random_particle
  // ---------------------------------------------------------------------------

  /** The partner chosen for `excl` from the draw `draw` in [0, numPart - 1):
      draws at or above the excluded index are shifted up by one. */
  function RandomParticle(numPart: nat, excl: nat, draw: nat): (r: nat)
    requires excl < numPart && draw < numPart - 1
    ensures r < numPart && r != excl
  {
    if draw >= excl then draw + 1 else draw
  }

  /** The draw that makes `RandomParticle` choose `partner`. */
  function PartnerDraw(numPart: nat, excl: nat, partner: nat): (d: nat)
    requires excl < numPart && partner < numPart && partner != excl
    ensures d < numPart - 1
  {
    if partner > excl then partner - 1 else partner
  }

  lemma PartnerDrawInvertsRandomParticle(numPart: nat, excl: nat, draw: nat)
    requires excl < numPart && draw < numPart - 1
    ensures PartnerDraw(numPart, excl, RandomParticle(numPart, excl, draw)) == draw
  {
  }

  lemma RandomParticleInvertsPartnerDraw(numPart: nat, excl: nat, partner: nat)
    requires excl < numPart && partner < numPart && partner != excl
    ensures RandomParticle(numPart, excl, PartnerDraw(numPart, excl, partner)) == partner
  {
  }

  /** Different draws give different partners. */
  lemma RandomParticleInjective(numPart: nat, excl: nat, d1: nat, d2: nat)
    requires excl < numPart && d1 < numPart - 1 && d2 < numPart - 1
    requires RandomParticle(numPart, excl, d1) == RandomParticle(numPart, excl, d2)
    ensures d1 == d2
  {
    PartnerDrawInvertsRandomParticle(numPart, excl, d1);
    PartnerDrawInvertsRandomParticle(numPart, excl, d2);
  }

  /** Every other particle is the partner of some draw in [0, numPart - 1); with
      injectivity, the map is a bijection onto the other particles, so a uniform
      draw gives a uniform partner. */
  lemma RandomParticleOnto(numPart: nat, excl: nat, partner: nat)
    requires excl < numPart && partner < numPart && partner != excl
    ensures exists d :: 0 <= d < numPart - 1 && RandomParticle(numPart, excl, d) == partner
  {
    RandomParticleInvertsPartnerDraw(numPart, excl, partner);
  }

  // ---------------------------------------------------------------------------
  // Attempt counting
  // ---------------------------------------------------------------------------

  /** The number of entries with beta > 0 (`np.count_nonzero(beta > 0)`). */
  function CountPositive(beta: seq<real>): (c: nat)
    ensures c <= |beta|
  {
    if beta == [] then 0
    else CountPositive(beta[..|beta| - 1]) + (if beta[|beta| - 1] > 0.0 then 1 else 0)
  }

  /** The number of entries with beta <= 0: the duplication attempts. */
  function CountNonPositive(beta: seq<real>): (c: nat)
    ensures c <= |beta|
  {
    if beta == [] then 0
    else CountNonPositive(beta[..|beta| - 1]) + (if beta[|beta| - 1] <= 0.0 then 1 else 0)
  }

  /** `num_part - count(beta > 0)` is the count of beta <= 0: a particle with beta == 0
      is counted as a duplication attempt, and every particle is counted once. */
  lemma {:induction false} AttemptsSplit(beta: seq<real>)
    ensures CountPositive(beta) + CountNonPositive(beta) == |beta|
  {
    if beta != [] {
      AttemptsSplit(beta[..|beta| - 1]);
    }
  }

  /** No attempt is counted as a kill when no beta is positive. */
  lemma {:induction false} NoPositiveNoKillAttempts(beta: seq<real>)
    requires forall i :: 0 <= i < |beta| ==> beta[i] <= 0.0
    ensures CountPositive(beta) == 0 && CountNonPositive(beta) == |beta|
  {
    if beta != [] {
      NoPositiveNoKillAttempts(beta[..|beta| - 1]);
    }
  }

  // ---------------------------------------------------------------------------
  // Event candidates and the shuffle
  // ---------------------------------------------------------------------------

  /** `np.where(rand <= prob)[0]`: the indices whose draw does not exceed their
      probability, in increasing order. */
  function Candidates(rand: seq<real>, prob: seq<real>): (c: seq<nat>)
    requires |rand| == |prob|
    ensures forall k :: 0 <= k < |c| ==> c[k] < |rand| && rand[c[k]] <= prob[c[k]]
    ensures forall i :: 0 <= i < |rand| && rand[i] <= prob[i] ==> i in c
    ensures forall k, l :: 0 <= k < l < |c| ==> c[k] < c[l]
  {
    if rand == [] then []
    else
      var m := |rand| - 1;
      Candidates(rand[..m], prob[..m]) + (if rand[m] <= prob[m] then [m] else [])
  }

  /** `perm` reorders a list of length `m`: every position is named exactly once. */
  predicate IsPermutation(perm: seq<nat>, m: nat)
  {
    && |perm| == m
    && (forall k :: 0 <= k < m ==> perm[k] < m)
    && (forall k, l :: 0 <= k < l < m ==> perm[k] != perm[l])
  }

  /** `rng.shuffle`: position k of the result holds the element at position perm[k]. */
  function Shuffled(c: seq<nat>, perm: seq<nat>): (s: seq<nat>)
    requires IsPermutation(perm, |c|)
    ensures |s| == |c|
    ensures forall k :: 0 <= k < |s| ==> s[k] in c
  {
    seq(|c|, k requires 0 <= k < |c| => c[perm[k]])
  }

  /** Dropping the position that holds the largest value leaves a permutation of one
      fewer positions. */
  lemma RemoveTop(perm: seq<nat>, m: nat, p: nat)
    requires IsPermutation(perm, m) && p < m && perm[p] == m - 1
    ensures IsPermutation(perm[..p] + perm[p + 1..], m - 1)
  {
    var rest := perm[..p] + perm[p + 1..];
    assert forall k :: 0 <= k < m - 1 ==> rest[k] == (if k < p then perm[k] else perm[k + 1]);
  }

  /** The pigeonhole principle: a permutation names every position. */
  lemma {:induction false} PermutationCovers(perm: seq<nat>, m: nat, t: nat)
    requires IsPermutation(perm, m)
    requires t < m
    ensures t in perm
    decreases m, 1
  {
    TopInPermutation(perm, m);
    if t != m - 1 {
      var p :| 0 <= p < m && perm[p] == m - 1;
      var rest := perm[..p] + perm[p + 1..];
      RemoveTop(perm, m, p);
      PermutationCovers(rest, m - 1, t);
      var q :| 0 <= q < m - 1 && rest[q] == t;
      assert perm[if q < p then q else q + 1] == t;
    }
  }

  /** A permutation of m positions names the last one. */
  lemma {:induction false} TopInPermutation(perm: seq<nat>, m: nat)
    requires IsPermutation(perm, m) && m > 0
    ensures m - 1 in perm
    decreases m, 0
  {
    if m - 1 !in perm {
      var front := perm[..m - 1];
      assert IsPermutation(front, m - 1);
      PermutationCovers(front, m - 1, perm[m - 1]);
      assert false;
    }
  }

  /** The shuffle only reorders the candidates: the same indices, each once. */
  lemma ShuffleIsPermutation(c: seq<nat>, perm: seq<nat>)
    requires IsPermutation(perm, |c|)
    requires forall k, l :: 0 <= k < l < |c| ==> c[k] != c[l]
    ensures |Shuffled(c, perm)| == |c|
    ensures forall j :: j in Shuffled(c, perm) <==> j in c
    ensures forall k, l :: 0 <= k < l < |c| ==> Shuffled(c, perm)[k] != Shuffled(c, perm)[l]
  {
    var s := Shuffled(c, perm);
    forall j | j in c ensures j in s {
      var t :| 0 <= t < |c| && c[t] == j;
      PermutationCovers(perm, |c|, t);
      var k :| 0 <= k < |c| && perm[k] == t;
      assert s[k] == j;
    }
  }

  /** The candidates of one call, taken in shuffled order. */
  lemma ShuffledCandidates(rand: seq<real>, prob: seq<real>, perm: seq<nat>)
    requires |rand| == |prob|
    requires IsPermutation(perm, |Candidates(rand, prob)|)
    ensures forall i :: i in Shuffled(Candidates(rand, prob), perm)
                      <==> 0 <= i < |rand| && rand[i] <= prob[i]
    ensures forall k, l :: 0 <= k < l < |perm| ==>
              Shuffled(Candidates(rand, prob), perm)[k] != Shuffled(Candidates(rand, prob), perm)[l]
  {
    ShuffleIsPermutation(Candidates(rand, prob), perm);
  }

  // ---------------------------------------------------------------------------
  // The walk over the shuffled candidates
  // ---------------------------------------------------------------------------

  /** The draws are integers in [0, numPart - 1); `rng.integers(0)` has no such
      values and raises, which the walk models as `failed`. */
  predicate DrawsFit(draws: seq<nat>, numPart: nat)
  {
    numPart < 2 || forall k :: 0 <= k < |draws| ==> draws[k] < numPart - 1
  }

  /** The local state of `calculate_birth_death`: both lists, the counters it adds
      to the statistics, and whether `random_particle` raised. */
  datatype Walk = Walk(dups: seq<nat>, kills: seq<nat>, dupCount: nat, killCount: nat, failed: bool)

  /** One iteration of the loop over the candidates, for candidate `i` with beta `b`.
      The pair being built uses the draw numbered by the pairs built so far. */
  function Visit(w: Walk, i: nat, b: real, numPart: nat, draws: seq<nat>): (v: Walk)
    requires i < numPart && |w.kills| < |draws| && DrawsFit(draws, numPart)
    ensures |v.kills| <= |w.kills| + 1
    ensures |v.kills| - |w.kills| == |v.dups| - |w.dups|
                             == (v.killCount + v.dupCount) - (w.killCount + w.dupCount)
  {
    if w.failed || i in w.kills then w
    else if b > 0.0 then
      if numPart < 2 then w.(failed := true)
      else w.(kills := w.kills + [i],
              dups := w.dups + [RandomParticle(numPart, i, draws[|w.kills|])],
              killCount := w.killCount + 1)
    else if b < 0.0 then
      if numPart < 2 then w.(failed := true)
      else w.(dups := w.dups + [i],
              kills := w.kills + [RandomParticle(numPart, i, draws[|w.kills|])],
              dupCount := w.dupCount + 1)
    else w
  }

  /** All indices of `order` name particles. */
  predicate InRange(order: seq<nat>, numPart: nat)
  {
    forall k :: 0 <= k < |order| ==> order[k] < numPart
  }

  /** What a walk over `order` needs: indices of particles, and a draw for each visit. */
  predicate WalkInputs(order: seq<nat>, beta: seq<real>, draws: seq<nat>)
  {
    InRange(order, |beta|) && |order| <= |draws| && DrawsFit(draws, |beta|)
  }

  /** The walk after visiting the first `n` indices of `order`, from empty lists. */
  function Walked(order: seq<nat>, beta: seq<real>, draws: seq<nat>, n: nat): (w: Walk)
    requires WalkInputs(order, beta, draws) && n <= |order|
    ensures |w.kills| == |w.dups| == w.killCount + w.dupCount <= n
  {
    if n == 0 then Walk([], [], 0, 0, false)
    else Visit(Walked(order, beta, draws, n - 1), order[n - 1], beta[order[n - 1]], |beta|, draws)
  }

  /** Pair k of the walk names two different particles among numPart. */
  predicate PairValid(w: Walk, k: nat, numPart: nat)
    requires |w.kills| == |w.dups| && k < |w.kills|
  {
    w.kills[k] < numPart && w.dups[k] < numPart && w.dups[k] != w.kills[k]
  }

  /** Every pair names two different particles. */
  lemma {:induction false} WalkedPairsValid(order: seq<nat>, beta: seq<real>, draws: seq<nat>, n: nat)
    requires WalkInputs(order, beta, draws) && n <= |order|
    ensures forall k :: 0 <= k < |Walked(order, beta, draws, n).kills| ==>
              PairValid(Walked(order, beta, draws, n), k, |beta|)
    decreases n
  {
    if n > 0 {
      var p, w := Walked(order, beta, draws, n - 1), Walked(order, beta, draws, n);
      WalkedPairsValid(order, beta, draws, n - 1);
      WalkedNext(order, beta, draws, n - 1);
      VisitExtends(p, order[n - 1], beta[order[n - 1]], |beta|, draws);
      forall k | 0 <= k < |w.kills|
        ensures PairValid(w, k, |beta|)
      {
        if k < |p.kills| {
          assert PairValid(p, k, |beta|);
          assert w.kills[k] == p.kills[k] && w.dups[k] == p.dups[k];
        }
      }
    }
  }

  /** The walk over `n + 1` indices is one more visit after the walk over `n`. */
  lemma WalkedNext(order: seq<nat>, beta: seq<real>, draws: seq<nat>, n: nat)
    requires WalkInputs(order, beta, draws) && n < |order|
    ensures order[n] < |beta| && |Walked(order, beta, draws, n).kills| < |draws|
    ensures Walked(order, beta, draws, n + 1)
         == Visit(Walked(order, beta, draws, n), order[n], beta[order[n]], |beta|, draws)
  {
  }

  /** `list(zip(dup_list, kill_list))`. */
  function Zip(dups: seq<nat>, kills: seq<nat>): (e: seq<Event>)
    requires |dups| == |kills|
    ensures |e| == |kills|
    ensures forall k :: 0 <= k < |e| ==> e[k].dup == dups[k] && e[k].kill == kills[k]
  {
    seq(|kills|, k requires 0 <= k < |kills| => Event(dups[k], kills[k]))
  }

  /** A visit only appends to the lists, and keeps a failure. */
  lemma VisitExtends(w: Walk, i: nat, b: real, numPart: nat, draws: seq<nat>)
    requires i < numPart && |w.kills| < |draws| && DrawsFit(draws, numPart)
    ensures var v := Visit(w, i, b, numPart, draws);
            w.kills <= v.kills && w.dups <= v.dups && (w.failed ==> v.failed)
  {
  }

  /** A candidate already queued for death, or one with beta == 0, changes neither
      list nor counter. */
  lemma VisitSkips(w: Walk, i: nat, b: real, numPart: nat, draws: seq<nat>)
    requires i < numPart && |w.kills| < |draws| && DrawsFit(draws, numPart)
    requires i in w.kills || b == 0.0
    ensures Visit(w, i, b, numPart, draws) == w
  {
  }

  /** A candidate that is reached, not queued for death, with a partner available:
      beta > 0 makes it the kill index of a new pair and raises only the kill count;
      beta < 0 makes it the dup index and raises only the duplication count. */
  lemma VisitBySign(w: Walk, i: nat, b: real, numPart: nat, draws: seq<nat>)
    requires i < numPart && |w.kills| < |draws| && DrawsFit(draws, numPart)
    requires !w.failed && i !in w.kills && numPart >= 2
    ensures var v := Visit(w, i, b, numPart, draws);
            b > 0.0 ==>
              && !v.failed
              && v.kills == w.kills + [i]
              && v.dups == w.dups + [RandomParticle(numPart, i, draws[|w.kills|])]
              && v.killCount == w.killCount + 1 && v.dupCount == w.dupCount
    ensures var v := Visit(w, i, b, numPart, draws);
            b < 0.0 ==>
              && !v.failed
              && v.dups == w.dups + [i]
              && v.kills == w.kills + [RandomParticle(numPart, i, draws[|w.kills|])]
              && v.dupCount == w.dupCount + 1 && v.killCount == w.killCount
  {
  }

  /** A visit that does not fail leaves a candidate with beta > 0 in the kill list. */
  lemma VisitKillsPositive(w: Walk, i: nat, b: real, numPart: nat, draws: seq<nat>, v: Walk)
    requires i < numPart && |w.kills| < |draws| && DrawsFit(draws, numPart)
    requires v == Visit(w, i, b, numPart, draws) && !v.failed && b > 0.0
    ensures i in v.kills
  {
  }

  /** A visit that does not fail leaves a candidate with beta < 0, not yet queued for
      death, in the duplication list. */
  lemma VisitDupsNegative(w: Walk, i: nat, b: real, numPart: nat, draws: seq<nat>, v: Walk)
    requires i < numPart && |w.kills| < |draws| && DrawsFit(draws, numPart)
    requires v == Visit(w, i, b, numPart, draws) && !v.failed && b < 0.0 && i !in w.kills
    ensures i in v.dups
  {
  }

  /** Later visits only append: the lists of a shorter walk survive, and so does a
      failure. */
  lemma {:induction false} WalkedExtends(order: seq<nat>, beta: seq<real>, draws: seq<nat>, m: nat, n: nat)
    requires WalkInputs(order, beta, draws) && m <= n <= |order|
    ensures var p, w := Walked(order, beta, draws, m), Walked(order, beta, draws, n);
            && p.kills <= w.kills && p.dups <= w.dups
            && (p.failed ==> w.failed)
    decreases n
  {
    if m < n {
      WalkedExtends(order, beta, draws, m, n - 1);
      VisitExtends(Walked(order, beta, draws, n - 1), order[n - 1], beta[order[n - 1]], |beta|, draws);
    }
  }

  /** A walk that failed is left as it was by the rest of the order. */
  lemma {:induction false} WalkedFailureStays(order: seq<nat>, beta: seq<real>, draws: seq<nat>, m: nat, n: nat)
    requires WalkInputs(order, beta, draws) && m <= n <= |order|
    requires Walked(order, beta, draws, m).failed
    ensures Walked(order, beta, draws, n) == Walked(order, beta, draws, m)
    decreases n
  {
    if m < n {
      WalkedFailureStays(order, beta, draws, m, n - 1);
    }
  }

  /** Every pair comes from one visited candidate with nonzero beta and the draw of
      its own position: beta > 0 makes the candidate the kill index, beta < 0 the
      dup index, the partner being `random_particle` of it. */
  lemma {:induction false} WalkedEventOrigin(order: seq<nat>, beta: seq<real>, draws: seq<nat>, n: nat, k: nat)
    requires WalkInputs(order, beta, draws) && n <= |order|
    requires k < |Walked(order, beta, draws, n).kills|
    ensures |beta| >= 2 && k < |draws| && draws[k] < |beta| - 1
    ensures var w := Walked(order, beta, draws, n);
            exists t :: 0 <= t < n &&
              ((beta[order[t]] > 0.0 && w.kills[k] == order[t]
                  && w.dups[k] == RandomParticle(|beta|, order[t], draws[k])) ||
               (beta[order[t]] < 0.0 && w.dups[k] == order[t]
                  && w.kills[k] == RandomParticle(|beta|, order[t], draws[k])))
    decreases n
  {
    var p := Walked(order, beta, draws, n - 1);
    var w := Walked(order, beta, draws, n);
    if k < |p.kills| {
      WalkedEventOrigin(order, beta, draws, n - 1, k);
      VisitExtends(p, order[n - 1], beta[order[n - 1]], |beta|, draws);
      assert p.kills[k] == w.kills[k] && p.dups[k] == w.dups[k];
    } else {
      assert k == |p.kills|;
      var t := n - 1;
      assert (beta[order[t]] > 0.0 && w.kills[k] == order[t]
                && w.dups[k] == RandomParticle(|beta|, order[t], draws[k])) ||
             (beta[order[t]] < 0.0 && w.dups[k] == order[t]
                && w.kills[k] == RandomParticle(|beta|, order[t], draws[k]));
    }
  }

  /** Every candidate with beta > 0 ends up in the kill list: either it was already
      chosen as a kill target when reached, or it is killed itself. */
  lemma {:induction false} WalkedKillsPositive(order: seq<nat>, beta: seq<real>, draws: seq<nat>, n: nat, t: nat)
    requires WalkInputs(order, beta, draws) && n <= |order|
    requires t < n && beta[order[t]] > 0.0
    requires !Walked(order, beta, draws, n).failed
    ensures order[t] in Walked(order, beta, draws, n).kills
  {
    var p, v := Walked(order, beta, draws, t), Walked(order, beta, draws, t + 1);
    WalkedExtends(order, beta, draws, t + 1, n);
    assert order[t] in v.kills by {
      WalkedNext(order, beta, draws, t);
      VisitKillsPositive(p, order[t], beta[order[t]], |beta|, draws, v);
    }
  }

  /** Every candidate with beta < 0 that is not yet queued for death when reached
      ends up in the duplication list. */
  lemma {:induction false} WalkedDupsNegative(order: seq<nat>, beta: seq<real>, draws: seq<nat>, n: nat, t: nat)
    requires WalkInputs(order, beta, draws) && n <= |order|
    requires t < n && beta[order[t]] < 0.0
    requires order[t] !in Walked(order, beta, draws, t).kills
    requires !Walked(order, beta, draws, n).failed
    ensures order[t] in Walked(order, beta, draws, n).dups
  {
    var p, v := Walked(order, beta, draws, t), Walked(order, beta, draws, t + 1);
    WalkedExtends(order, beta, draws, t + 1, n);
    assert order[t] in v.dups by {
      WalkedNext(order, beta, draws, t);
      VisitDupsNegative(p, order[t], beta[order[t]], |beta|, draws, v);
    }
  }

  /** The walk raises exactly when fewer than two particles exist and a candidate
      with nonzero beta is reached. */
  lemma {:induction false} WalkedFails(order: seq<nat>, beta: seq<real>, draws: seq<nat>, n: nat)
    requires WalkInputs(order, beta, draws) && n <= |order|
    ensures Walked(order, beta, draws, n).failed
        <==> |beta| < 2 && exists t :: 0 <= t < n && beta[order[t]] != 0.0
    decreases n
  {
    if n > 0 {
      WalkedFails(order, beta, draws, n - 1);
      if |beta| < 2 {
        var p := Walked(order, beta, draws, n - 1);
        assert p.kills == [] by {
          if p.kills != [] {
            WalkedEventOrigin(order, beta, draws, n - 1, 0);
          }
        }
      }
    }
  }

  /** With at least two particles the walk never raises. */
  lemma WalkedSucceeds(order: seq<nat>, beta: seq<real>, draws: seq<nat>, n: nat)
    requires WalkInputs(order, beta, draws) && n <= |order|
    requires |beta| >= 2
    ensures !Walked(order, beta, draws, n).failed
  {
    WalkedFails(order, beta, draws, n);
  }

  /** The kill indices of one call can repeat: two candidates with beta < 0 may draw
      the same kill target, since the duplication branch does not consult the kill list. */
  lemma KillTargetsMayRepeat()
    ensures Walked([0, 1], [-1.0, -1.0, 0.5], [1, 1], 2).kills == [2, 2]
  {
    var beta, draws := [-1.0, -1.0, 0.5], [1, 1];
    var w1 := Walked([0, 1], beta, draws, 1);
    assert w1 == Visit(Walk([], [], 0, 0, false), 0, -1.0, 3, draws);
    assert w1.kills == [2];
    assert Walked([0, 1], beta, draws, 2) == Visit(w1, 1, -1.0, 3, draws);
  }

  // ---------------------------------------------------------------------------
  // Applying the events
  // ---------------------------------------------------------------------------

  /** All events name slots of a list of `n` particles. */
  predicate EventsInRange(events: seq<Event>, n: nat)
  {
    forall k :: 0 <= k < |events| ==> events[k].dup < n && events[k].kill < n
  }

  /** The pairs of a walk whose pairs are all valid name slots of the particle list. */
  lemma ZipInRange(w: Walk, numPart: nat)
    requires |w.kills| == |w.dups|
    requires forall k :: 0 <= k < |w.kills| ==> PairValid(w, k, numPart)
    ensures EventsInRange(Zip(w.dups, w.kills), numPart)
  {
    var e := Zip(w.dups, w.kills);
    forall k | 0 <= k < |e|
      ensures e[k].dup < numPart && e[k].kill < numPart
    {
      assert PairValid(w, k, numPart);
    }
  }

  /** The particle list after applying `events` one after the other, each overwriting
      the kill slot with a copy of the current content of the dup slot. */
  function ApplyEvents(ps: seq<Particle>, events: seq<Event>): (r: seq<Particle>)
    requires EventsInRange(events, |ps|)
    ensures |r| == |ps|
  {
    if events == [] then ps
    else
      var m := |events| - 1;
      var prev := ApplyEvents(ps, events[..m]);
      prev[events[m].kill := prev[events[m].dup]]
  }

  /** A slot that no event names as kill keeps its particle. */
  lemma {:induction false} ApplyEventsUntouched(ps: seq<Particle>, events: seq<Event>, j: nat)
    requires EventsInRange(events, |ps|)
    requires j < |ps| && forall k :: 0 <= k < |events| ==> events[k].kill != j
    ensures ApplyEvents(ps, events)[j] == ps[j]
  {
    if events != [] {
      ApplyEventsUntouched(ps, events[..|events| - 1], j);
    }
  }

  /** Every slot afterwards holds a copy of some particle from before: birth-death
      creates no new states. */
  lemma {:induction false} ApplyEventsCopies(ps: seq<Particle>, events: seq<Event>, j: nat)
    requires EventsInRange(events, |ps|)
    requires j < |ps|
    ensures exists i :: 0 <= i < |ps| && ApplyEvents(ps, events)[j] == ps[i]
  {
    if events != [] {
      var m := |events| - 1;
      var prev := ApplyEvents(ps, events[..m]);
      if j == events[m].kill {
        ApplyEventsCopies(ps, events[..m], events[m].dup);
      } else {
        ApplyEventsCopies(ps, events[..m], j);
      }
    } else {
      assert ApplyEvents(ps, events)[j] == ps[j];
    }
  }

  /** The last event decides the content of its kill slot. */
  lemma ApplyEventsLast(ps: seq<Particle>, events: seq<Event>)
    requires EventsInRange(events, |ps|) && events != []
    ensures var m := |events| - 1;
            ApplyEvents(ps, events)[events[m].kill] == ApplyEvents(ps, events[..m])[events[m].dup]
  {
  }
}
