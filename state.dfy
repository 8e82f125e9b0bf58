/** The structure of src/state.cpp: the unit cell and its atoms as read from a
    geometry file, a 3×3×3 supercell made of the atoms and their 26 periodic
    images, and the matrix of distances between the atoms the analyses look
    at. The Euclidean norm is a parameter. */
module StateModel {
  import opened Wrappers
  import opened Vectors

  /** State::MAX_SIZE_ATOMS_UNITCELL */
  const MaxSizeAtomsUnitcell: nat := 1000000000

  /** 16 GiB, the largest distance matrix calculate_distances allocates. */
  const MemoryLimit: nat := 17179869184

  /** size_t arithmetic wraps modulo 2^64. */
  const Word64: nat := 0x1_0000_0000_0000_0000

  const MemoryError := "This operation requires more than 16GB of memory. For safety reasons, this operation is terminated"

  /** The number of atoms the distance matrix covers: the supercell atoms,
      unless there are more than MaxSizeAtomsUnitcell of them or the structure
      is not periodic, in which case only the unit-cell atoms. */
  function MatrixSize(nrAtoms: nat, nrAtomsSupercell: nat, periodic: bool): nat
  {
    if nrAtomsSupercell > MaxSizeAtomsUnitcell || !periodic then nrAtoms else nrAtomsSupercell
  }

  /** dd * dd * sizeof(float), computed in size_t. */
  function MemSize(dd: nat): nat
  {
    (dd * dd * 4) % Word64
  }

  /** For any matrix size below 2^31 the guard refuses exactly the sizes above
      65536, whose four-byte entries need more than 16 GiB. */
  lemma MemoryGuard(dd: nat)
    requires dd < 0x8000_0000
    ensures MemSize(dd) > MemoryLimit <==> dd > 65536
  {
    SquareBounds(dd);
    ModSmall(dd * dd * 4, Word64);
  }

  lemma SquareBounds(dd: nat)
    requires dd < 0x8000_0000
    ensures dd * dd < 0x4000_0000_0000_0000
    ensures dd > 65536 <==> dd * dd > 0x1_0000_0000
  {
    MulMonotone(dd, dd, 0x7FFF_FFFF, 0x7FFF_FFFF);
    if dd > 65536 {
      MulMonotone(65537, 65537, dd, dd);
    } else {
      MulMonotone(dd, dd, 65536, 65536);
    }
  }

  lemma ModSmall(x: nat, m: nat)
    requires x < m
    ensures x % m == x
  {
  }

  lemma MulMonotone(a: nat, b: nat, c: nat, d: nat)
    requires a <= c && b <= d
    ensures a * b <= c * d
  {
    assert a * b <= c * b;
    assert c * b <= c * d;
  }

  // ---------------------------------------------------------------------
  // The 26 periodic images

  /** The position of (x, y, z) in the nested loops over {-1, 0, 1}. */
  function Code(x: int, y: int, z: int): int
  {
    (x + 1) * 9 + (y + 1) * 3 + (z + 1)
  }

  /** How many images the loops have produced before position c: the centre
      (0, 0, 0), at position 13, is skipped. */
  function ImagesBefore(c: int): int
  {
    if c <= 13 then c else c - 1
  }

  /** The shift of image k, k < 26. */
  function ImageShift(k: nat): (s: (int, int, int))
    requires k < 26
  {
    var j := if k < 13 then k else k + 1;
    (j / 9 - 1, (j / 3) % 3 - 1, j % 3 - 1)
  }

  predicate Unit(v: int) { -1 <= v <= 1 }

  lemma ShiftOfIndex(x: int, y: int, z: int)
    requires Unit(x) && Unit(y) && Unit(z) && !(x == 0 && y == 0 && z == 0)
    ensures 0 <= ImagesBefore(Code(x, y, z)) < 26
    ensures ImageShift(ImagesBefore(Code(x, y, z))) == (x, y, z)
  {
  }

  /** The images are the 26 non-zero shifts with components in {-1, 0, 1},
      in the order of the nested x, y, z loops. */
  lemma ImageShifts(k: nat, k': nat)
    requires k < k' < 26
    ensures var (x, y, z) := ImageShift(k);
      Unit(x) && Unit(y) && Unit(z) && !(x == 0 && y == 0 && z == 0)
    ensures var (x, y, z) := ImageShift(k);
      var (x', y', z') := ImageShift(k');
      Code(x, y, z) < Code(x', y', z')
  {
    CodeOfShift(k);
    CodeOfShift(k');
  }

  /** Image k sits at position k of the loops before the centre, k + 1
      after it. */
  lemma CodeOfShift(k: nat)
    requires k < 26
    ensures var (x, y, z) := ImageShift(k);
      Unit(x) && Unit(y) && Unit(z) && Code(x, y, z) == if k < 13 then k else k + 1
  {
    var j := if k < 13 then k else k + 1;
    assert j == (j / 9) * 9 + ((j / 3) % 3) * 3 + j % 3;
  }

  /** cellᵀ·(x, y, z) for the shift of image k. */
  function Translation(cell: Mat3, k: nat): Vec3
    requires k < 26
  {
    var (x, y, z) := ImageShift(k);
    TransposeApply(cell, Vec3(x as real, y as real, z as real))
  }

  /** Every atom shifted by t. */
  function Shifted(atoms: seq<Vec3>, t: Vec3): (r: seq<Vec3>)
    ensures |r| == |atoms|
  {
    seq(|atoms|, m requires 0 <= m < |atoms| => Plus(atoms[m], t))
  }

  /** The unit-cell atoms followed by the first d images, each holding every
      atom shifted by that image's translation. */
  function SupercellPrefix(cell: Mat3, atoms: seq<Vec3>, d: nat): seq<Vec3>
    requires d <= 26
  {
    if d == 0 then atoms else SupercellPrefix(cell, atoms, d - 1) + Shifted(atoms, Translation(cell, d - 1))
  }

  function Supercell(cell: Mat3, atoms: seq<Vec3>): seq<Vec3>
  {
    SupercellPrefix(cell, atoms, 26)
  }

  lemma {:induction false} PrefixLength(cell: Mat3, atoms: seq<Vec3>, d: nat)
    requires d <= 26
    ensures |SupercellPrefix(cell, atoms, d)| == |atoms| * (d + 1)
  {
    if d > 0 {
      PrefixLength(cell, atoms, d - 1);
      var before, image := SupercellPrefix(cell, atoms, d - 1), Shifted(atoms, Translation(cell, d - 1));
      assert SupercellPrefix(cell, atoms, d) == before + image;
      MulSucc(|atoms|, d);
    }
  }

  lemma MulSucc(n: nat, d: nat)
    ensures n * (d + 1) == n * d + n
  {
  }

  lemma PrefixRoom(n: nat, d: nat)
    requires d < 26
    ensures n * (d + 1) + n <= 27 * n
  {
    MulMonotone(n, d + 2, n, 27);
    assert n * (d + 2) == n * (d + 1) + n;
  }

  lemma {:induction false} PrefixLayout(cell: Mat3, atoms: seq<Vec3>, d: nat, k: nat, m: nat)
    requires k < d <= 26 && m < |atoms|
    ensures |atoms| * (k + 1) + m < |SupercellPrefix(cell, atoms, d)|
    ensures SupercellPrefix(cell, atoms, d)[|atoms| * (k + 1) + m] == Plus(atoms[m], Translation(cell, k))
  {
    PrefixLength(cell, atoms, d - 1);
    PrefixLength(cell, atoms, k);
    var before := SupercellPrefix(cell, atoms, d - 1);
    if k < d - 1 {
      PrefixLayout(cell, atoms, d - 1, k, m);
    }
    assert |atoms| * (k + 1) + m < |atoms| * (k + 2) by {
      assert |atoms| * (k + 2) == |atoms| * (k + 1) + |atoms|;
    }
    if k < d - 1 {
      MulMonotone(|atoms|, k + 2, |atoms|, d);
    }
  }

  /** The layout of the supercell: 27·N atoms, the unit cell first, then at
      position N·(k+1) + m atom m shifted by image k. */
  lemma SupercellLayout(cell: Mat3, atoms: seq<Vec3>, k: nat, m: nat)
    requires k < 26 && m < |atoms|
    ensures |Supercell(cell, atoms)| == 27 * |atoms|
    ensures Supercell(cell, atoms)[m] == atoms[m]
    ensures |atoms| * (k + 1) + m < 27 * |atoms|
    ensures Supercell(cell, atoms)[|atoms| * (k + 1) + m] == Plus(atoms[m], Translation(cell, k))
  {
    PrefixLength(cell, atoms, 26);
    PrefixLayout(cell, atoms, 26, k, m);
    PrefixKeepsAtoms(cell, atoms, 26, m);
  }

  lemma {:induction false} PrefixKeepsAtoms(cell: Mat3, atoms: seq<Vec3>, d: nat, m: nat)
    requires d <= 26 && m < |atoms|
    ensures m < |SupercellPrefix(cell, atoms, d)| && SupercellPrefix(cell, atoms, d)[m] == atoms[m]
  {
    if d > 0 {
      PrefixKeepsAtoms(cell, atoms, d - 1, m);
    }
  }

  /** The distance matrix: the norm of the difference of the positions of
      atoms i <= j, written to (i, j) and to (j, i). */
  function Entry(pos: seq<Vec3>, norm: Vec3 -> real, i: nat, j: nat): real
    requires i < |pos| && j < |pos|
  {
    if i <= j then norm(Minus(pos[i], pos[j])) else norm(Minus(pos[j], pos[i]))
  }

  predicate IsDistanceMatrix(d: seq<seq<real>>, pos: seq<Vec3>, dd: nat, norm: Vec3 -> real)
    requires dd <= |pos|
  {
    && |d| == dd
    && (forall i :: 0 <= i < dd ==> |d[i]| == dd)
    && (forall i, j :: 0 <= i < dd && 0 <= j < dd ==> d[i][j] == Entry(pos, norm, i, j))
  }

  /** A distance matrix is symmetric; its diagonal is the norm of the zero
      vector, so zero for any norm. */
  lemma DistanceMatrixShape(d: seq<seq<real>>, pos: seq<Vec3>, dd: nat, norm: Vec3 -> real)
    requires dd <= |pos| && IsDistanceMatrix(d, pos, dd, norm)
    ensures forall i, j :: 0 <= i < dd && 0 <= j < dd ==> d[i][j] == d[j][i]
    ensures forall i :: 0 <= i < dd ==> d[i][i] == norm(Zero)
  {
    forall i, j | 0 <= i < dd && 0 <= j < dd
      ensures d[i][j] == d[j][i]
    {
      assert d[i][j] == Entry(pos, norm, i, j) && d[j][i] == Entry(pos, norm, j, i);
    }
    forall i | 0 <= i < dd
      ensures d[i][i] == norm(Zero)
    {
      assert d[i][i] == Entry(pos, norm, i, i);
      assert Minus(pos[i], pos[i]) == Zero;
    }
  }

  /** The entry (a, b) has been written once row i has reached column j. */
  predicate Filled(i: nat, j: nat, a: nat, b: nat)
  {
    var lo := if a < b then a else b;
    var hi := if a < b then b else a;
    lo < i || (lo == i && hi < j)
  }

  /** Writing entry (i, j) and its mirror (j, i) extends the written part of
      the distance matrix by one pair. */
  lemma FillStep(d: seq<seq<real>>, pos: seq<Vec3>, norm: Vec3 -> real, dd: nat, i: nat, j: nat)
    requires dd <= |pos| && i <= j < dd
    requires |d| == dd && forall a :: 0 <= a < dd ==> |d[a]| == dd
    requires forall a, b :: 0 <= a < dd && 0 <= b < dd && Filled(i, j, a, b) ==> d[a][b] == Entry(pos, norm, a, b)
    ensures var v := norm(Minus(pos[i], pos[j]));
      var d1 := d[i := d[i][j := v]];
      var d2 := d1[j := d1[j][i := v]];
      && |d2| == dd && (forall a :: 0 <= a < dd ==> |d2[a]| == dd)
      && forall a, b :: 0 <= a < dd && 0 <= b < dd && Filled(i, j + 1, a, b) ==> d2[a][b] == Entry(pos, norm, a, b)
  {
  }

  class State {
    var cell: Mat3
    var supercell: Mat3
    var atoms: seq<Vec3>
    var atomsSupercell: seq<Vec3>
    var elements: seq<string>
    var distances: seq<seq<real>>
    var periodic: bool

    /** A state as the constructor leaves it: 27·N supercell atoms and a square
        distance matrix of the size calculate_distances selects. */
    predicate Ready()
      reads this
    {
      && |atomsSupercell| == 27 * |atoms|
      && var dd := MatrixSize(|atoms|, |atomsSupercell|, periodic);
        && |atoms| <= dd
        && |distances| == dd && forall i :: 0 <= i < dd ==> |distances[i]| == dd
    }

    /** The fields the constructor takes from the geometry reader. */
    constructor (cell: Mat3, atoms: seq<Vec3>, elements: seq<string>, periodic: bool)
      ensures this.cell == cell && this.atoms == atoms && this.elements == elements
      ensures this.periodic == periodic
      ensures atomsSupercell == [] && distances == []
    {
      this.cell := cell;
      this.supercell := cell;
      this.atoms := atoms;
      this.elements := elements;
      this.periodic := periodic;
      this.atomsSupercell := [];
      this.distances := [];
    }

    /** create_supercell: three times the cell, and 27·N atoms laid out as
        Supercell describes. */
    method CreateSupercell()
      modifies this`supercell, this`atomsSupercell
      ensures supercell == ScaleCell(3.0, cell)
      ensures atomsSupercell == Supercell(cell, atoms) && |atomsSupercell| == 27 * |atoms|
    {
      supercell := ScaleCell(3.0, cell);
      CopyUnitCell();
      var row := WriteImages();
      PrefixLength(cell, atoms, 26);
      assert atomsSupercell == atomsSupercell[..row];
    }

    /** The first loop of create_supercell: room for 27·N atoms, the unit cell
        atoms first. */
    method CopyUnitCell()
      modifies this`atomsSupercell
      ensures |atomsSupercell| == 27 * |atoms|
      ensures atomsSupercell[..|atoms|] == SupercellPrefix(cell, atoms, 0)
    {
      var n := |atoms|;
      atomsSupercell := seq(27 * n, _ => Zero);
      for i := 0 to n
        modifies this`atomsSupercell
        invariant |atomsSupercell| == 27 * n
        invariant atomsSupercell[..i] == atoms[..i]
      {
        atomsSupercell := atomsSupercell[i := atoms[i]];
      }
      assert atoms[..n] == atoms;
    }

    /** The nested x, y, z loops of create_supercell: the 26 images in order. */
    method WriteImages() returns (row: nat)
      requires |atomsSupercell| == 27 * |atoms|
      requires atomsSupercell[..|atoms|] == SupercellPrefix(cell, atoms, 0)
      modifies this`atomsSupercell
      ensures row <= |atomsSupercell| == 27 * |atoms|
      ensures atomsSupercell[..row] == SupercellPrefix(cell, atoms, 26)
    {
      row := |atoms|;
      ghost var done: nat := 0;
      for x := -1 to 2
        modifies this`atomsSupercell
        invariant done == ImagesBefore(Code(x, -1, -1)) <= 26
        invariant row <= |atomsSupercell| == 27 * |atoms|
        invariant atomsSupercell[..row] == SupercellPrefix(cell, atoms, done)
      {
        for y := -1 to 2
          modifies this`atomsSupercell
          invariant done == ImagesBefore(Code(x, y, -1)) <= 26
          invariant row <= |atomsSupercell| == 27 * |atoms|
          invariant atomsSupercell[..row] == SupercellPrefix(cell, atoms, done)
        {
          row, done := WriteImagesAlongZ(x, y, row, done);
        }
      }
    }

    /** The z loop of create_supercell for one x and y. */
    method WriteImagesAlongZ(x: int, y: int, row: nat, ghost done: nat) returns (row': nat, ghost done': nat)
      requires Unit(x) && Unit(y) && done == ImagesBefore(Code(x, y, -1)) <= 26
      requires row <= |atomsSupercell| == 27 * |atoms|
      requires atomsSupercell[..row] == SupercellPrefix(cell, atoms, done)
      modifies this`atomsSupercell
      ensures done' == ImagesBefore(Code(x, y, 2)) <= 26
      ensures row' <= |atomsSupercell| == 27 * |atoms|
      ensures atomsSupercell[..row'] == SupercellPrefix(cell, atoms, done')
    {
      row', done' := row, done;
      for z := -1 to 2
        modifies this`atomsSupercell
        invariant done' == ImagesBefore(Code(x, y, z)) <= 26
        invariant row' <= |atomsSupercell| == 27 * |atoms|
        invariant atomsSupercell[..row'] == SupercellPrefix(cell, atoms, done')
      {
        if x == 0 && y == 0 && z == 0 {
          continue;
        }
        ShiftOfIndex(x, y, z);
        var t := TransposeApply(cell, Vec3(x as real, y as real, z as real));
        row' := WriteImage(t, row', done');
        done' := done' + 1;
      }
    }

    /** The innermost loop of create_supercell: every atom shifted by t, from
        position row on. */
    method WriteImage(t: Vec3, row: nat, ghost k: nat) returns (row': nat)
      requires k < 26 && t == Translation(cell, k)
      requires row <= |atomsSupercell| == 27 * |atoms|
      requires atomsSupercell[..row] == SupercellPrefix(cell, atoms, k)
      modifies this`atomsSupercell
      ensures row' <= |atomsSupercell| == 27 * |atoms|
      ensures atomsSupercell[..row'] == SupercellPrefix(cell, atoms, k + 1)
    {
      var n := |atoms|;
      PrefixLength(cell, atoms, k);
      PrefixRoom(n, k);
      ghost var before := SupercellPrefix(cell, atoms, k);
      ghost var block := Shifted(atoms, t);
      row' := row;
      for m := 0 to n
        invariant row' == row + m && row + n <= 27 * n
        invariant |atomsSupercell| == 27 * n
        invariant atomsSupercell[..row'] == before + block[..m]
      {
        atomsSupercell := atomsSupercell[row' := Plus(atoms[m], t)];
        row' := row' + 1;
        assert block[..m + 1] == block[..m] + [block[m]];
      }
      assert block[..n] == block;
    }

    /** calculate_distances: refuses a matrix above 16 GiB and otherwise fills
        the dd×dd matrix, each pair once. */
    method CalculateDistances(norm: Vec3 -> real) returns (r: Outcome<Exception>)
      requires |atomsSupercell| == 27 * |atoms|
      modifies this`distances
      ensures var dd := MatrixSize(|atoms|, |atomsSupercell|, periodic);
        && (r.Fail? <==> MemSize(dd) > MemoryLimit)
        && (r.Fail? ==> r.error == RuntimeError(MemoryError) && distances == old(distances))
        && (r.Pass? ==> dd <= |atomsSupercell| && IsDistanceMatrix(distances, atomsSupercell, dd, norm))
    {
      var dd := MatrixSize(|atoms|, |atomsSupercell|, periodic);
      if MemSize(dd) > MemoryLimit {
        return Fail(RuntimeError(MemoryError));
      }
      var pos := atomsSupercell;
      distances := seq(dd, _ => seq(dd, _ => 0.0));
      for i := 0 to dd
        invariant |distances| == dd && forall a :: 0 <= a < dd ==> |distances[a]| == dd
        invariant forall a, b :: 0 <= a < dd && 0 <= b < dd && Filled(i, i, a, b) ==>
          distances[a][b] == Entry(pos, norm, a, b)
      {
        for j := i to dd
          invariant |distances| == dd && forall a :: 0 <= a < dd ==> |distances[a]| == dd
          invariant forall a, b :: 0 <= a < dd && 0 <= b < dd && Filled(i, j, a, b) ==>
            distances[a][b] == Entry(pos, norm, a, b)
        {
          var dist := norm(Minus(pos[i], pos[j]));
          FillStep(distances, pos, norm, dd, i, j);
          distances := distances[i := distances[i][j := dist]];
          distances := distances[j := distances[j][i := dist]];
        }
      }
      return Pass;
    }
  }

  /** State::State: takes the reader's cell, atoms, elements and periodicity,
      builds the supercell and the distance matrix. */
  method Load(cell: Mat3, atoms: seq<Vec3>, elements: seq<string>, periodic: bool, norm: Vec3 -> real)
    returns (r: Result<State, Exception>)
    ensures var dd := MatrixSize(|atoms|, 27 * |atoms|, periodic);
      && (r.Err? <==> MemSize(dd) > MemoryLimit)
      && (r.Err? ==> r.error == RuntimeError(MemoryError))
      && (r.Ok? ==> && fresh(r.value)
                    && r.value.cell == cell && r.value.atoms == atoms
                    && r.value.elements == elements && r.value.periodic == periodic
                    && r.value.supercell == ScaleCell(3.0, cell)
                    && r.value.atomsSupercell == Supercell(cell, atoms)
                    && |r.value.atomsSupercell| == 27 * |atoms| && r.value.Ready()
                    && IsDistanceMatrix(r.value.distances, r.value.atomsSupercell, dd, norm))
  {
    var st := new State(cell, atoms, elements, periodic);
    st.CreateSupercell();
    var outcome := st.CalculateDistances(norm);
    if outcome.Fail? {
      return Err(outcome.error);
    }
    return Ok(st);
  }
}
