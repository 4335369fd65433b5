/** The lattice record and the operations that mutate it in place: the two
    initialisers, the single-site Metropolis flip and the N*N-trial sweep. */
module Ising {
  import opened Spins
  import opened Hamiltonian
  import opened Metropolis

  /** The spin an initialisation draw sets: +1 when the uniform draw fell below one half. */
  function SpinOf(up: bool): (v: int)
    ensures IsSpin(v)
    ensures v == 1 <==> up
  {
    if up then 1 else -1
  }

  /** Row-major position of the draw that initialises cell (i, j). */
  function Site(i: nat, j: nat, n: nat): (k: nat)
    requires i < n && j < n
    ensures k < n * n
  {
    assert i * n + j < (i + 1) * n <= n * n;
    i * n + j
  }

  /** The grid the random initialiser fills from its N*N draws, taken row by row. */
  function FromBits(bits: seq<bool>, n: nat): (g: Grid)
    requires |bits| == n * n
    ensures IsSquare(g, n) && IsSpinGrid(g)
    ensures forall i, j | 0 <= i < n && 0 <= j < n :: g[i][j] == SpinOf(bits[Site(i, j, n)])
  {
    seq(n, i requires 0 <= i < n => seq(n, j requires 0 <= j < n => SpinOf(bits[Site(i, j, n)])))
  }

  /** The exchange energy J: the Hamiltonian is written in units of J, so J is 1. */
  const J: real := 1.0

  class Lattice {
    /** Side length of the lattice (the source fixes it at 16). */
    const n: nat
    /** The N-by-N spins. */
    var arr: array2<int>
    /** The spins as a value, kept equal to the contents of `arr`. */
    ghost var grid: Grid
    /** Temperature as a factor of J/k_B; it only feeds the acceptance draw. */
    var tf: real
    /** Magnetic moment times applied field. */
    var muH: real
    /** Running total energy. */
    var energy: real
    /** Running sum of all spins. */
    var mag: int

    /** `arr` is N-by-N with N >= 2, and `grid` holds exactly its contents. */
    ghost predicate Shaped()
      reads this, arr
    {
      && n >= 2 && arr.Length0 == n && arr.Length1 == n && IsSquare(grid, n)
      && forall i, j | 0 <= i < n && 0 <= j < n :: arr[i, j] == grid[i][j]
    }

    ghost function Snapshot(): State
      reads this
    {
      State(grid, energy, mag)
    }

    /** Every spin is +1 or -1 and the running energy and magnetisation equal the
        from-scratch recomputation for the current J and muH. */
    ghost predicate Valid()
      reads this, arr
    {
      Shaped() && Consistent(Snapshot(), n, J, muH)
    }

    /** A lattice whose spins are not yet initialised (all zero here). */
    constructor (n: nat, tf: real, muH: real)
      requires n >= 2
      ensures Shaped() && fresh(arr)
      ensures this.n == n && this.tf == tf && this.muH == muH
    {
      this.n := n;
      arr := new int[n, n]((i, j) => 0);
      grid := Uniform(n, 0);
      this.tf := tf;
      this.muH := muH;
      energy := 0.0;
      mag := 0;
    }

    /** Sets every spin to +1 and the totals by closed form, which agrees with the recomputation. */
    method InitUps()
      requires Shaped()
      modifies arr, this`grid, this`energy, this`mag
      ensures Valid()
      ensures grid == Uniform(n, 1)
      ensures mag == n * n
      ensures energy == -2.0 * J * (n as real) * (n as real) - muH * (n as real) * (n as real)
    {
      for i := 0 to n
        invariant forall i', j' | 0 <= i' < i && 0 <= j' < n :: arr[i', j'] == 1
      {
        for j := 0 to n
          invariant forall i', j' | 0 <= i' < i && 0 <= j' < n :: arr[i', j'] == 1
          invariant forall j' | 0 <= j' < j :: arr[i, j'] == 1
        {
          arr[i, j] := 1;
        }
      }
      grid := Uniform(n, 1);
      mag := n * n;
      energy := -2.0 * J * (n as real) * (n as real) - muH * (n as real) * (n as real);
      AllUpEnergy(n, J, muH);
      assert energy == Energy(grid, n, J, muH);
    }

    /** The full scan of the random initialiser: sums every site's spin and its forward
        (east and south, wrap-around) bonds. Reads the grid whatever it holds. */
    method Recount() returns (count: int, interenergy: real)
      requires Shaped()
      ensures count == Mag(grid)
      ensures interenergy == -J * (Interaction(grid, n) as real)
    {
      ghost var g := grid;
      ghost var B := Bonds(g, n);
      ghost var bonds := 0;
      count, interenergy := 0, 0.0;
      for i := 0 to n
        invariant count == Total(g[..i])
        invariant bonds == Total(B[..i])
        invariant interenergy == -J * (bonds as real)
      {
        for j := 0 to n
          invariant count == Total(g[..i]) + Sum(g[i][..j])
          invariant bonds == Total(B[..i]) + Sum(B[i][..j])
          invariant interenergy == -J * (bonds as real)
        {
          var self := arr[i, j];
          var term := self * (arr[(i + 1) % n, j] + arr[i, (j + 1) % n]);
          assert B[i][j] == term;
          interenergy := interenergy + -J * (term as real);
          bonds := bonds + term;
          count := count + self;
          assert g[i][..j + 1][..j] == g[i][..j];
          assert B[i][..j + 1][..j] == B[i][..j];
        }
        assert g[..i + 1][..i] == g[..i] && g[i][..n] == g[i];
        assert B[..i + 1][..i] == B[..i] && B[i][..n] == B[i];
      }
      assert g[..n] == g && B[..n] == B;
    }

    /** Fills row after row from the draws; after each row the totals are recomputed by a
        full scan, so the scan after the last row decides the result. */
    method InitRand(bits: seq<bool>)
      requires Shaped() && |bits| == n * n
      modifies arr, this`grid, this`energy, this`mag
      ensures Valid()
      ensures grid == FromBits(bits, n)
    {
      ghost var want := FromBits(bits, n);
      for i := 0 to n
        invariant Shaped()
        invariant forall i' | 0 <= i' < i :: grid[i'] == want[i']
        invariant 0 < i ==> mag == Mag(grid) && energy == Energy(grid, n, J, muH)
      {
        FillRow(i, bits);
        var count, interenergy := Recount();
        energy := interenergy - muH * (count as real);
        mag := count;
        assert energy == -J * (Interaction(grid, n) as real) - muH * (Mag(grid) as real);
      }
      assert grid == want;
    }

    /** The inner loop of the random initialiser: sets each spin of row i from its draw. */
    method FillRow(i: nat, bits: seq<bool>)
      requires Shaped() && i < n && |bits| == n * n
      modifies arr, this`grid
      ensures Shaped()
      ensures grid == old(grid)[i := FromBits(bits, n)[i]]
    {
      ghost var want := FromBits(bits, n);
      ghost var start := grid;
      for j := 0 to n
        invariant Shaped()
        invariant |grid[i]| == n && grid == start[i := grid[i]]
        invariant forall j' | 0 <= j' < j :: grid[i][j'] == want[i][j']
      {
        var v := SpinOf(bits[Site(i, j, n)]);
        arr[i, j] := v;
        grid := grid[i := grid[i][j := v]];
      }
      assert grid[i] == want[i];
    }

    /** One Metropolis trial at the site the draws pick. On acceptance the spin is negated,
        deltaE is added to the energy and twice the new spin to the magnetisation. */
    method Flip(t: Trial)
      requires Valid()
      modifies arr, this`grid, this`energy, this`mag
      ensures Valid()
      ensures Snapshot() == Step(old(Snapshot()), n, J, muH, t)
    {
      ghost var before := Snapshot();
      var x := SitePick(t.rx, n);
      var y := SitePick(t.ry, n);
      var self := arr[x, y];
      var neighbours := arr[(x + 1) % n, y] + arr[x, (y + 1) % n] + arr[(x - 1 + n) % n, y] + arr[x, (y - 1 + n) % n];
      assert neighbours == Neighbours(grid, n, x, y);
      var deltaE := LocalDeltaE(J, muH, self, neighbours);
      assert deltaE == DeltaE(grid, n, J, muH, x, y);
      ghost var next := Step(before, n, J, muH, t);
      StepConsistent(before, n, J, muH, t);
      if FlipCond(deltaE, t.draw) {
        energy := energy + deltaE;
        arr[x, y] := -arr[x, y];
        grid := Flipped(grid, x, y);
        mag := mag + 2 * arr[x, y];
        assert Shaped();
      }
      assert Snapshot() == next;
    }

    /** One sweep: exactly N*N trials in sequence. The running totals stay equal to the
        recomputation and the magnetisation stays within [-N*N, N*N]. */
    method Timestep(trials: seq<Trial>)
      requires Valid() && |trials| == n * n
      modifies arr, this`grid, this`energy, this`mag
      ensures Valid()
      ensures Snapshot() == Run(old(Snapshot()), n, J, muH, trials)
      ensures -(n * n) <= mag <= n * n
    {
      ghost var start := Snapshot();
      for k := 0 to n * n
        invariant Valid()
        invariant Snapshot() == Run(start, n, J, muH, trials[..k])
      {
        ghost var prev := Snapshot();
        Flip(trials[k]);
        assert trials[..k + 1][..k] == trials[..k];
        assert Run(start, n, J, muH, trials[..k + 1]) == Step(prev, n, J, muH, trials[k]);
      }
      assert trials[..n * n] == trials;
      MagBound(State(grid, energy, mag), n);
    }
  }
}
