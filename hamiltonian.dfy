/** The Ising Hamiltonian of a periodic N-by-N lattice: wrap-around neighbour
    indices, the forward-bond recomputation of energy and magnetisation, and the
    local energy change of negating one spin. */
module Hamiltonian {
  import opened Spins

  /** Forward neighbour index with periodic wrap-around, `(i+1)%N`. */
  function Fwd(i: nat, n: nat): (r: nat)
    requires i < n
    ensures r < n
    ensures i + 1 < n ==> r == i + 1
    ensures i + 1 == n ==> r == 0
  {
    (i + 1) % n
  }

  /** Backward neighbour index with periodic wrap-around, `(i-1+N)%N`. */
  function Bwd(i: nat, n: nat): (r: nat)
    requires i < n
    ensures r < n
    ensures 0 < i ==> r == i - 1
    ensures i == 0 ==> r == n - 1
  {
    (i - 1 + n) % n
  }

  /** Stepping forward and back along a periodic axis returns to the start;
      on an axis of at least two sites either step leaves the site. */
  lemma WrapInverse(i: nat, n: nat)
    requires i < n
    ensures Bwd(Fwd(i, n), n) == i && Fwd(Bwd(i, n), n) == i
    ensures n >= 2 ==> Fwd(i, n) != i && Bwd(i, n) != i
  {
  }

  /** The two forward bonds of site (i, j), east and south, as the recomputation sums them. */
  function Bond(g: Grid, n: nat, i: nat, j: nat): int
    requires IsSquare(g, n) && i < n && j < n
  {
    g[i][j] * (g[Fwd(i, n)][j] + g[i][Fwd(j, n)])
  }

  /** The grid of per-site forward bond terms. */
  function Bonds(g: Grid, n: nat): (b: Grid)
    requires IsSquare(g, n)
    ensures IsSquare(b, n)
    ensures forall i, j | 0 <= i < n && 0 <= j < n :: b[i][j] == Bond(g, n, i, j)
  {
    seq(n, i requires 0 <= i < n => seq(n, j requires 0 <= j < n => Bond(g, n, i, j)))
  }

  /** Sum over all sites of s[i][j]*(s[i+1][j] + s[i][j+1]): every bond counted once. */
  function Interaction(g: Grid, n: nat): int
    requires IsSquare(g, n)
  {
    Total(Bonds(g, n))
  }

  /** Magnetisation: the sum of all spins. */
  function Mag(g: Grid): int
  {
    Total(g)
  }

  /** Total energy recomputed from scratch: -J times the bond sum, minus muH times the magnetisation. */
  function Energy(g: Grid, n: nat, J: real, muH: real): real
    requires IsSquare(g, n)
  {
    -J * (Interaction(g, n) as real) - muH * (Mag(g) as real)
  }

  /** Sum of the four nearest neighbours of (x, y), in the order the flip reads them. */
  function Neighbours(g: Grid, n: nat, x: nat, y: nat): int
    requires IsSquare(g, n) && x < n && y < n
  {
    g[Fwd(x, n)][y] + g[x][Fwd(y, n)] + g[Bwd(x, n)][y] + g[x][Bwd(y, n)]
  }

  /** The flip's energy-change formula for a spin `self` with neighbour sum `neighbours`. */
  function LocalDeltaE(J: real, muH: real, self: int, neighbours: int): real
  {
    2.0 * J * (self as real) * (neighbours as real) + 2.0 * muH * (self as real)
  }

  /** The local energy change the flip computes for site (x, y). */
  function DeltaE(g: Grid, n: nat, J: real, muH: real, x: nat, y: nat): real
    requires IsSquare(g, n) && x < n && y < n
  {
    LocalDeltaE(J, muH, g[x][y], Neighbours(g, n, x, y))
  }

  /** The grid with the spin at (x, y) negated and every other cell kept. */
  function Flipped(g: Grid, x: nat, y: nat): (f: Grid)
    requires x < |g| && y < |g[x]|
    ensures |f| == |g| && forall i | 0 <= i < |g| :: |f[i]| == |g[i]|
    ensures f[x][y] == -g[x][y]
    ensures forall i, j | 0 <= i < |g| && 0 <= j < |g[i]| && (i != x || j != y) :: f[i][j] == g[i][j]
  {
    g[x := g[x][y := -g[x][y]]]
  }

  /** Negating a spin keeps the grid a grid of +1/-1 spins. */
  lemma FlipKeepsSpins(g: Grid, n: nat, x: nat, y: nat)
    requires IsSquare(g, n) && IsSpinGrid(g) && x < n && y < n
    ensures IsSquare(Flipped(g, x, y), n) && IsSpinGrid(Flipped(g, x, y))
  {
  }

  /** Flipping the same site twice restores the grid, and the reverse move has the
      opposite energy change. */
  lemma FlipInvolution(g: Grid, n: nat, J: real, muH: real, x: nat, y: nat)
    requires IsSquare(g, n) && x < n && y < n && n >= 2
    ensures Flipped(Flipped(g, x, y), x, y) == g
    ensures DeltaE(Flipped(g, x, y), n, J, muH, x, y) == -DeltaE(g, n, J, muH, x, y)
  {
    var f := Flipped(g, x, y);
    assert Flipped(f, x, y)[x] == g[x];
    WrapInverse(x, n);
    WrapInverse(y, n);
    assert Neighbours(f, n, x, y) == Neighbours(g, n, x, y);
    assert f[x][y] as real == -(g[x][y] as real);
  }

  /** A bond term that does not read cell (x, y) is the same before and after the flip. */
  lemma BondUnchanged(g: Grid, n: nat, x: nat, y: nat, i: nat, j: nat)
    requires IsSquare(g, n) && n >= 2 && x < n && y < n && i < n && j < n
    requires (i, j) != (x, y) && (i, j) != (Bwd(x, n), y) && (i, j) != (x, Bwd(y, n))
    ensures IsSquare(Flipped(g, x, y), n)
    ensures Bond(Flipped(g, x, y), n, i, j) == Bond(g, n, i, j)
  {
    WrapInverse(i, n);
    WrapInverse(j, n);
  }

  /** The bond terms of the flipped grid agree with the old ones except at the three
      sites whose forward bonds touch (x, y): (x, y) itself, (x-1, y) and (x, y-1). */
  lemma FlipBondsElsewhere(g: Grid, n: nat, x: nat, y: nat)
    requires IsSquare(g, n) && n >= 2 && x < n && y < n
    ensures IsSquare(Flipped(g, x, y), n)
    ensures var B, B' := Bonds(g, n), Bonds(Flipped(g, x, y), n);
            var a, b := Bwd(x, n), Bwd(y, n);
            B' == B[x := B[x][y := B'[x][y]]][a := B[a][y := B'[a][y]]][x := B[x][y := B'[x][y]][b := B'[x][b]]]
  {
    var f := Flipped(g, x, y);
    var B, B' := Bonds(g, n), Bonds(f, n);
    var a, b := Bwd(x, n), Bwd(y, n);
    WrapInverse(x, n);
    WrapInverse(y, n);
    var B3 := B[x := B[x][y := B'[x][y]]][a := B[a][y := B'[a][y]]][x := B[x][y := B'[x][y]][b := B'[x][b]]];
    forall i | 0 <= i < n
      ensures B3[i] == B'[i]
    {
      forall j | 0 <= j < n
        ensures B3[i][j] == B'[i][j]
      {
        if (i, j) != (x, y) && (i, j) != (a, y) && (i, j) != (x, b) {
          BondUnchanged(g, n, x, y, i, j);
        }
      }
    }
  }

  /** How the three bond terms that read (x, y) change when its spin s is negated. */
  lemma FlipBondsAt(g: Grid, n: nat, x: nat, y: nat)
    requires IsSquare(g, n) && n >= 2 && x < n && y < n
    ensures IsSquare(Flipped(g, x, y), n)
    ensures var f, s, a, b := Flipped(g, x, y), g[x][y], Bwd(x, n), Bwd(y, n);
            && Bond(f, n, x, y) - Bond(g, n, x, y) == -2 * s * (g[Fwd(x, n)][y] + g[x][Fwd(y, n)])
            && Bond(f, n, a, y) - Bond(g, n, a, y) == -2 * s * g[a][y]
            && Bond(f, n, x, b) - Bond(g, n, x, b) == -2 * s * g[x][b]
  {
  }

  /** Negating spin s at (x, y) changes the bond sum by -2*s*neighbours. Needs n >= 2, so that
      the three bond terms touching (x, y) sit at three distinct sites. */
  lemma FlipInteraction(g: Grid, n: nat, x: nat, y: nat)
    requires IsSquare(g, n) && n >= 2 && x < n && y < n
    ensures IsSquare(Flipped(g, x, y), n)
    ensures Interaction(Flipped(g, x, y), n) == Interaction(g, n) - 2 * g[x][y] * Neighbours(g, n, x, y)
  {
    var f, s := Flipped(g, x, y), g[x][y];
    var a, b := Bwd(x, n), Bwd(y, n);
    WrapInverse(x, n);
    WrapInverse(y, n);
    var B, B' := Bonds(g, n), Bonds(f, n);
    FlipBondsElsewhere(g, n, x, y);
    TotalThreeUpdates(B, x, y, a, b, B'[x][y], B'[a][y], B'[x][b]);
    FlipBondsAt(g, n, x, y);
    var p, q, r, t := g[Fwd(x, n)][y], g[x][Fwd(y, n)], g[a][y], g[x][b];
    Distribute(s, p + q, r, t);
    assert Neighbours(g, n, x, y) == p + q + r + t;
  }

  lemma Distribute(s: int, u: int, v: int, w: int)
    ensures -2 * s * u + -2 * s * v + -2 * s * w == -(2 * s * (u + v + w))
  {
  }

  /** Negating spin s changes the magnetisation by the new spin minus the old, that is
      by twice the new spin. */
  lemma FlipMag(g: Grid, x: nat, y: nat)
    requires x < |g| && y < |g[x]|
    ensures Mag(Flipped(g, x, y)) == Mag(g) + 2 * Flipped(g, x, y)[x][y]
    ensures Mag(Flipped(g, x, y)) - Mag(g) == Flipped(g, x, y)[x][y] - g[x][y]
  {
    TotalUpdate(g, x, y, -g[x][y]);
  }

  /** The local formula is exact: adding DeltaE to the recomputed energy of a grid gives
      the recomputed energy of the grid with (x, y) negated, for a fixed J and muH. */
  lemma FlipEnergy(g: Grid, n: nat, J: real, muH: real, x: nat, y: nat)
    requires IsSquare(g, n) && n >= 2 && x < n && y < n
    ensures IsSquare(Flipped(g, x, y), n)
    ensures Energy(Flipped(g, x, y), n, J, muH) == Energy(g, n, J, muH) + DeltaE(g, n, J, muH, x, y)
  {
    var f := Flipped(g, x, y);
    FlipInteraction(g, n, x, y);
    FlipMag(g, x, y);
    EnergyOfChanges(g, f, n, J, muH, g[x][y], Neighbours(g, n, x, y));
  }

  /** If the bond sum drops by 2*s*nb and the magnetisation by 2*s, the recomputed energy
      rises by the local formula for spin s and neighbour sum nb. */
  lemma EnergyOfChanges(g: Grid, f: Grid, n: nat, J: real, muH: real, s: int, nb: int)
    requires IsSquare(g, n) && IsSquare(f, n)
    requires Interaction(f, n) == Interaction(g, n) - 2 * s * nb && Mag(f) == Mag(g) - 2 * s
    ensures Energy(f, n, J, muH) == Energy(g, n, J, muH) + LocalDeltaE(J, muH, s, nb)
  {
    EnergyShift(J, muH, Interaction(g, n), Mag(g), Interaction(f, n), Mag(f), s, nb);
  }

  /** The real-valued energy after the bond sum drops by 2*s*nb and the magnetisation by 2*s. */
  lemma EnergyShift(J: real, muH: real, I: int, M: int, I': int, M': int, s: int, nb: int)
    requires I' == I - 2 * s * nb && M' == M - 2 * s
    ensures -J * (I' as real) - muH * (M' as real)
            == -J * (I as real) - muH * (M as real) + LocalDeltaE(J, muH, s, nb)
  {
  }

  /** With +1/-1 spins the bond part of the energy change, 2*s*neighbours, is one of
      -8, -4, 0, 4, 8, and DeltaE is J times it plus the field part 2*muH*s. */
  lemma BondChangeValues(g: Grid, n: nat, J: real, muH: real, x: nat, y: nat)
    requires IsSquare(g, n) && IsSpinGrid(g) && x < n && y < n
    ensures 2 * g[x][y] * Neighbours(g, n, x, y) in {-8, -4, 0, 4, 8}
    ensures DeltaE(g, n, J, muH, x, y)
            == J * ((2 * g[x][y] * Neighbours(g, n, x, y)) as real) + 2.0 * muH * (g[x][y] as real)
  {
  }

  /** The closed form used for the all-up lattice agrees with the recomputation:
      every site carries two bonds of -J and a field term of -muH. */
  lemma AllUpEnergy(n: nat, J: real, muH: real)
    ensures Mag(Uniform(n, 1)) == n * n
    ensures Energy(Uniform(n, 1), n, J, muH) == -2.0 * J * (n as real) * (n as real) - muH * (n as real) * (n as real)
  {
    var g := Uniform(n, 1);
    TotalConstant(g, n, 1);
    var B := Bonds(g, n);
    TotalConstant(B, n, 2);
    assert Interaction(g, n) == 2 * (n * n);
    assert (n * n) as real == (n as real) * (n as real);
  }

  /** With a single site the four "neighbours" are the site itself, and the local formula
      disagrees with the recomputation; this is why the model requires N >= 2. */
  lemma SingleSiteDeltaIsWrong()
    ensures Energy(Flipped([[1]], 0, 0), 1, 1.0, 0.0) - Energy([[1]], 1, 1.0, 0.0) == 0.0
    ensures DeltaE([[1]], 1, 1.0, 0.0, 0, 0) == 8.0
  {
  }
}
