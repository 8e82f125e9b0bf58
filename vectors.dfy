/** Three-component vectors and 3×3 cells (Eigen's Vector3f and the row-major
    MatrixUnitcell of src/math.h), with float taken as real. */
module Vectors {
  datatype Vec3 = Vec3(x: real, y: real, z: real)

  const Zero: Vec3 := Vec3(0.0, 0.0, 0.0)

  function Plus(a: Vec3, b: Vec3): Vec3
  {
    Vec3(a.x + b.x, a.y + b.y, a.z + b.z)
  }

  function Minus(a: Vec3, b: Vec3): Vec3
  {
    Vec3(a.x - b.x, a.y - b.y, a.z - b.z)
  }

  function Times(s: real, a: Vec3): Vec3
  {
    Vec3(s * a.x, s * a.y, s * a.z)
  }

  /** A cell; its rows are the three lattice vectors. */
  datatype Mat3 = Mat3(r0: Vec3, r1: Vec3, r2: Vec3)

  function ScaleCell(s: real, c: Mat3): Mat3
  {
    Mat3(Times(s, c.r0), Times(s, c.r1), Times(s, c.r2))
  }

  /** cell.transpose() * v: the lattice vectors weighted by the components of v. */
  function TransposeApply(c: Mat3, v: Vec3): Vec3
  {
    Plus(Plus(Times(v.x, c.r0), Times(v.y, c.r1)), Times(v.z, c.r2))
  }
}
