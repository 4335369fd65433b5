/** The single-site Metropolis trial and the sweep, as transitions of the lattice's
    observable state (grid, running energy, running magnetisation). Randomness is an
    input: each trial carries its two raw site draws and the outcome of the Boltzmann
    comparison. */
module Metropolis {
  import opened Spins
  import opened Hamiltonian

  /** One trial's random inputs: the truncated position draws before `% N`, and whether
      the Boltzmann factor exceeded the uniform draw (consulted only when deltaE >= 0). */
  datatype Trial = Trial(rx: nat, ry: nat, draw: bool)

  /** The lattice's observable state: spins, running energy, running magnetisation. */
  datatype State = State(grid: Grid, energy: real, mag: int)

  /** A site index from a raw position draw: `(int)randPos() % N` always lands in [0, N). */
  function SitePick(raw: nat, n: nat): (k: nat)
    requires n > 0
    ensures k < n
    ensures raw < n ==> k == raw
  {
    raw % n
  }

  /** The Metropolis acceptance rule: a move that lowers the energy is always taken;
      any other move is taken exactly when the Boltzmann comparison succeeded. */
  function FlipCond(deltaE: real, draw: bool): (accept: bool)
    ensures deltaE < 0.0 ==> accept
    ensures deltaE >= 0.0 ==> accept == draw
  {
    if deltaE < 0.0 then true else draw
  }

  /** The running totals agree with the from-scratch recomputation of the grid. */
  ghost predicate Consistent(st: State, n: nat, J: real, muH: real)
  {
    && IsSquare(st.grid, n)
    && IsSpinGrid(st.grid)
    && st.mag == Mag(st.grid)
    && st.energy == Energy(st.grid, n, J, muH)
  }

  /** One trial as the flip performs it: negate the chosen spin, add deltaE to the running
      energy and twice the new spin to the running magnetisation, or change nothing. */
  function Step(st: State, n: nat, J: real, muH: real, t: Trial): (next: State)
    requires n > 0 && IsSquare(st.grid, n)
    ensures IsSquare(next.grid, n)
  {
    var x, y := SitePick(t.rx, n), SitePick(t.ry, n);
    var dE := DeltaE(st.grid, n, J, muH, x, y);
    if FlipCond(dE, t.draw) then
      var g := Flipped(st.grid, x, y);
      State(g, st.energy + dE, st.mag + 2 * g[x][y])
    else
      st
  }

  /** A sequence of trials applied in order. */
  function Run(st: State, n: nat, J: real, muH: real, ts: seq<Trial>): (last: State)
    requires n > 0 && IsSquare(st.grid, n)
    ensures IsSquare(last.grid, n)
  {
    if ts == [] then st else Step(Run(st, n, J, muH, ts[..|ts| - 1]), n, J, muH, ts[|ts| - 1])
  }

  /** A rejected trial leaves grid, energy and magnetisation as they were; an accepted one
      negates exactly the chosen spin. A trial whose deltaE is negative is never rejected. */
  lemma StepOutcome(st: State, n: nat, J: real, muH: real, t: Trial)
    requires n > 0 && IsSquare(st.grid, n)
    ensures var x, y := SitePick(t.rx, n), SitePick(t.ry, n);
            var dE := DeltaE(st.grid, n, J, muH, x, y);
            && (dE < 0.0 || t.draw ==> Step(st, n, J, muH, t).grid == Flipped(st.grid, x, y))
            && (dE >= 0.0 && !t.draw ==> Step(st, n, J, muH, t) == st)
  {
  }

  /** On a 4-by-4 all-up lattice with no field and J = 1, the corner site's four neighbours
      are all +1, so deltaE is 8; a trial whose Boltzmann comparison failed leaves the
      whole state as it was. */
  lemma AlignedCornerRejected(energy: real, mag: int)
    ensures DeltaE(Uniform(4, 1), 4, 1.0, 0.0, 0, 0) == 8.0
    ensures var st := State(Uniform(4, 1), energy, mag);
            Step(st, 4, 1.0, 0.0, Trial(0, 0, false)) == st
  {
  }

  /** A trial keeps the running totals equal to the recomputation, for a fixed J and muH. */
  lemma StepConsistent(st: State, n: nat, J: real, muH: real, t: Trial)
    requires n >= 2 && Consistent(st, n, J, muH)
    ensures Consistent(Step(st, n, J, muH, t), n, J, muH)
  {
    var x, y := SitePick(t.rx, n), SitePick(t.ry, n);
    var dE := DeltaE(st.grid, n, J, muH, x, y);
    if FlipCond(dE, t.draw) {
      FlipKeepsSpins(st.grid, n, x, y);
      FlipMag(st.grid, x, y);
      FlipEnergy(st.grid, n, J, muH, x, y);
    }
  }

  /** Any number of trials keeps the running totals equal to the recomputation. */
  lemma {:induction false} RunConsistent(st: State, n: nat, J: real, muH: real, ts: seq<Trial>)
    requires n >= 2 && Consistent(st, n, J, muH)
    ensures Consistent(Run(st, n, J, muH, ts), n, J, muH)
  {
    if ts != [] {
      RunConsistent(st, n, J, muH, ts[..|ts| - 1]);
      StepConsistent(Run(st, n, J, muH, ts[..|ts| - 1]), n, J, muH, ts[|ts| - 1]);
    }
  }

  /** In a consistent state the magnetisation lies in [-N*N, N*N]. */
  lemma MagBound(st: State, n: nat)
    requires IsSquare(st.grid, n) && IsSpinGrid(st.grid) && st.mag == Mag(st.grid)
    ensures -(n * n) <= st.mag <= n * n
  {
    TotalBound(st.grid, n);
  }
}
