# Ising lattice simulation core, in Dafny

This project models the simulation core of a 2D Ising-model program: an N-by-N periodic lattice of
+1/-1 spins with a running total energy and a running magnetisation. The core has two initialisers
(all spins up, or spins drawn at random), a single-site Metropolis trial, and a sweep of N*N trials.

The central fact is an invariant of this small state machine. The running `energy` and `mag`, which the
program updates incrementally, always equal a from-scratch recomputation over the grid:

- `Mag(g)` is the sum of all spins.
- `Energy(g, n, J, muH)` is `-J * sum over (i, j) of s[i][j] * (s[(i+1)%N][j] + s[i][(j+1)%N]) - muH * Mag(g)`.
  This is the forward-bond (east and south, wrap-around) sum that the random initialiser's scan computes.

The invariant rests on three lemmas:

- `FlipEnergy`: the local formula `deltaE = 2*J*self*neighbours + 2*muH*self` is exactly the change in the
  recomputed energy when one spin is negated. This needs N >= 2.
- `FlipMag`: adding twice the new spin to the magnetisation equals adding new minus old.
- `Fwd`/`Bwd`: every wrap-around index lands in [0, N).

Layout, following the program's structure:

- `spins.dfy` (module `Spins`): the grid as a value (`seq<seq<int>>`), its row and grid sums, and lemmas
  about those sums.
- `hamiltonian.dfy` (module `Hamiltonian`): wrap-around indices, bond terms, `Interaction`, `Mag`,
  `Energy`, the flip's `DeltaE`, and the flip lemmas.
- `metropolis.dfy` (module `Metropolis`): trial inputs, site choice, the acceptance rule, and one trial
  (`Step`) and a run of trials (`Run`) as pure transitions of the observable state.
- `lattice.dfy` (module `Ising`): the lattice record as a class with an `array2<int>` of spins, mutated in
  place by `InitUps`, `InitRand`, `Flip` and `Timestep`. A ghost field `grid` mirrors the array.
  `Valid()` says the spins are +1/-1 and `energy`/`mag` equal `Energy`/`Mag` of the grid.

Modelling decisions:

- Randomness is an input. A `Trial(rx, ry, draw)` carries the two raw position draws (already truncated to
  integers, before `% N`) and the outcome of the Boltzmann comparison. That outcome is consulted only when
  `deltaE >= 0`. The random initialiser takes N*N booleans, row-major, `true` meaning the uniform draw
  fell below one half.
- Energies, `muH` and `tf` are mathematical reals, so the invariant holds exactly.
- `J` is the module constant `1.0`: the program writes the Hamiltonian in units of J. The general lemmas
  (`FlipEnergy`, `FlipInteraction`, `FlipInvolution`, `BondChangeValues`, `AllUpEnergy`, `StepConsistent`,
  `RunConsistent`) are stated for every J. The two scenario lemmas, `SingleSiteDeltaIsWrong` and
  `AlignedCornerRejected`, fix J = 1.
- N is the lattice's constant field `n`, required to be at least 2. The program fixes N = 16.
  `SingleSiteDeltaIsWrong` shows why N = 1 must be excluded: there the four "neighbours" are the site
  itself, and the local formula disagrees with the recomputation.
- In the random initialiser, the full recount (main.cpp:64-76) sits inside the outer row loop, which closes
  at main.cpp:77. So the program recounts after every row, reading rows not yet filled. The model does the
  same: `Recount` runs after each row and reads whatever the grid holds. The pass after the last row
  decides the result. The inner fill loop is the helper method `FillRow`.
- The program's lattice is a plain record with uninitialised spins. The constructor allocates the array
  with zeros, and both initialisers accept any prior contents.

## Model

| member | source | states |
|---|---|---|
| Hamiltonian.Fwd | main.cpp:99 | the forward wrap index `(i+1)%N` lies in [0, N); it is i+1 inside the lattice and 0 at the edge |
| Hamiltonian.Bwd | main.cpp:99 | the backward wrap index `(i-1+N)%N` lies in [0, N); it is i-1 inside the lattice and N-1 at 0 |
| Hamiltonian.WrapInverse | main.cpp:99 | stepping forward then back (or back then forward) returns to the site; for N >= 2 neither step stays on the site |
| Hamiltonian.Bonds | main.cpp:66-74 | the per-site bond grid is N-by-N and holds s[i][j]*(s[(i+1)%N][j] + s[i][(j+1)%N]) at every site |
| Hamiltonian.Neighbours | main.cpp:99 | the sum of the four nearest neighbours of (x, y) with wrap-around, read east/south/west/north in the program's order; the flip lemmas (`FlipInteraction`, `BondChangeValues`) are stated in terms of it |
| Hamiltonian.DeltaE | main.cpp:102 | the flip's energy change 2*J*self*neighbours + 2*muH*self at (x, y); `FlipEnergy` proves it equals the change in the recomputed energy |
| Hamiltonian.Flipped | main.cpp:110 | negating a spin changes exactly cell (x, y), to minus its old value, and keeps the grid's shape |
| Hamiltonian.FlipKeepsSpins | main.cpp:110 | an accepted flip keeps every cell in {+1, -1} and the grid N-by-N |
| Hamiltonian.FlipInvolution | main.cpp:102-110 | flipping the same site twice restores the grid, and the reverse move has exactly the opposite deltaE |
| Hamiltonian.FlipBondsElsewhere | main.cpp:69 | negating (x, y) changes no bond term except those of (x, y), (x-1, y) and (x, y-1) |
| Hamiltonian.FlipBondsAt | main.cpp:69 | the three bond terms that read (x, y) each change by -2*s times the other spins they read |
| Hamiltonian.FlipInteraction | main.cpp:99-102 | for N >= 2, negating spin s changes the recomputed bond sum by exactly -2*s*neighbours |
| Hamiltonian.FlipMag | main.cpp:111 | the magnetisation update "+2 * new spin" equals new minus old, so the recomputed sum follows it |
| Hamiltonian.FlipEnergy | main.cpp:102-109 | for N >= 2 and fixed J and muH, the recomputed energy after negating (x, y) is the energy before plus the local deltaE |
| Hamiltonian.BondChangeValues | main.cpp:99-102 | with +1/-1 spins, the bond part 2*self*neighbours is one of -8, -4, 0, 4, 8, and deltaE is J times it plus 2*muH*self |
| Hamiltonian.AllUpEnergy | main.cpp:49-51 | on the all-up grid the magnetisation is N*N and the recomputed energy is -2*J*N*N - muH*N*N, the closed form the all-up initialiser uses |
| Hamiltonian.SingleSiteDeltaIsWrong | main.cpp:99-102 | on a 1-by-1 lattice, flipping the site changes the recomputed energy by 0 while the local formula gives 8, so the formula needs N >= 2 |
| Metropolis.SitePick | main.cpp:94-95 | the site index taken `% N` from a raw position draw lies in [0, N), and equals the draw when the draw is already below N |
| Metropolis.FlipCond | main.cpp:81-89 | a move with deltaE < 0 is always accepted; any other move is accepted exactly when the Boltzmann comparison succeeded |
| Metropolis.Step | main.cpp:92-113 | one trial as the flip performs it: the site is picked `% N` from each raw draw, deltaE is computed, the acceptance rule decides, and an accepted trial negates the cell, adds deltaE to the energy and twice the new spin to the magnetisation; the result stays N-by-N (`StepOutcome` and `StepConsistent` state its effect) |
| Metropolis.Run | main.cpp:116-120 | the trials of a sequence applied in order, each by `Step`; the result stays N-by-N (`RunConsistent` states that it keeps the totals consistent) |
| Metropolis.StepOutcome | main.cpp:107-112 | an accepted trial replaces the grid by the grid with (x, y) negated; a rejected trial leaves grid, energy and magnetisation unchanged; deltaE < 0 is never rejected |
| Metropolis.AlignedCornerRejected | main.cpp:99-112 | on a 4-by-4 all-up lattice with J = 1 and no field, the corner's deltaE is 8, and a failed Boltzmann comparison leaves the state unchanged |
| Metropolis.StepConsistent | main.cpp:107-112 | one trial keeps the spins +1/-1 and keeps the running energy and magnetisation equal to the recomputation, for fixed J and muH |
| Metropolis.RunConsistent | main.cpp:116-120 | any sequence of trials keeps the running totals equal to the recomputation |
| Metropolis.MagBound | main.cpp:30 | when the running magnetisation equals the sum of +1/-1 spins, it lies in [-N*N, N*N] |
| Ising.SpinOf | main.cpp:58-62 | a cell is set to +1 exactly when the initialiser's draw fell below one half, and to -1 otherwise |
| Ising.FromBits | main.cpp:56-63 | the grid the random fill produces is N-by-N, all +1/-1, and cell (i, j) is set from draw number i*N+j |
| Ising.Lattice.constructor | main.cpp:21-31 | a lattice has an N-by-N array of spins and the given temperature factor and field |
| Ising.Lattice.InitUps | main.cpp:39-52 | after it, every spin is +1, `mag` is N*N, `energy` is -2*J*N*N - muH*N*N, and both equal the recomputation |
| Ising.Lattice.Recount | main.cpp:64-76 | the scan's count is the sum of all spins, and its interaction energy is -J times the forward-bond sum, whatever the grid holds |
| Ising.Lattice.FillRow | main.cpp:57-63 | filling row i sets exactly that row to the spins drawn for it and leaves every other row as it was |
| Ising.Lattice.InitRand | main.cpp:54-77 | after it, the grid is the one the draws give, every spin is +1/-1, and `mag` and `energy` equal the recomputation |
| Ising.Lattice.Flip | main.cpp:92-113 | one trial changes the lattice exactly as `Step` does, and keeps the spins +1/-1 and the running totals equal to the recomputation |
| Ising.Lattice.Timestep | main.cpp:116-120 | a sweep of exactly N*N trials equals `Run` over those trials, keeps the running totals equal to the recomputation, and keeps `mag` in [-N*N, N*N] |

## Left out

- Random number generation (`rand`, `srand`, `RAND_MAX`) is not modelled. Every draw is an explicit input.
- The Boltzmann factor `exp(-deltaE/k_B/T)`, the temperature `T = tf*J/k_B` and `k_B` are not modelled,
  because they involve floating-point `exp` and a random draw. The comparison's outcome is the trial's
  `draw` boolean. `tf` is kept as a field that nothing in the model reads.
- Ising.Lattice.Flip: when deltaE < 0 the program does not consume a uniform draw, but the model's trial
  still carries one `draw` value, which is then ignored. The effect on the random stream is not modelled.
- Floating-point accumulation of `energy` and the float-typed `self` and `neighbours` are not modelled.
  The model uses exact reals and integers, so the invariant holds exactly rather than up to rounding.
- Metropolis.SitePick: the float-to-int cast in the position draw is not modelled. The model takes the
  already truncated draw as a natural number, which may equal N, and reduces it `% N`.
- J is fixed at 1 in the lattice, as in the program. The general flip and consistency lemmas are stated
  for any J; the two scenario lemmas fix J = 1.
- N is a parameter of at least 2 rather than the constant 16.
- Changing `muH` between sweeps is not modelled. That would break the energy invariant, because the
  program does not recompute the energy. The invariant is stated for a fixed `muH`.
- Reading uninitialised memory is not modelled. A new lattice's spins are zeros in the model.
- The experiment drivers, the timing benchmark and `main` are not part of this model. They do file and
  console output, parameter sweeps, wall-clock timing and floating-point averages.
