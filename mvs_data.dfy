/**
 * The small value types the exporter uses: a 3D point with double
 * coordinates, a 3x3 matrix and an 8-bit RGB colour. Coordinates are modelled
 * as reals; floating-point rounding is not modelled.
 */
module MvsData {

  /** A point or a direction in world space. */
  datatype Point3 = Point3(x: real, y: real, z: real)

  /** A 3x3 matrix, entries in row-major order (m12 is row 1, column 2). */
  datatype Matrix3 = Matrix3(
    m11: real, m12: real, m13: real,
    m21: real, m22: real, m23: real,
    m31: real, m32: real, m33: real)

  /** An unsigned 8-bit colour channel. */
  newtype Byte = b: int | 0 <= b < 256

  /** The colour returned by the jet colour map. */
  datatype Rgb = Rgb(r: Byte, g: Byte, b: Byte)

  const Origin := Point3(0.0, 0.0, 0.0)

  const Identity := Matrix3(1.0, 0.0, 0.0, 0.0, 1.0, 0.0, 0.0, 0.0, 1.0)

  /** Componentwise sum of two points. */
  function Add(p: Point3, q: Point3): Point3
  {
    Point3(p.x + q.x, p.y + q.y, p.z + q.z)
  }

  /** A point scaled by a scalar. */
  function Scale(p: Point3, s: real): Point3
  {
    Point3(p.x * s, p.y * s, p.z * s)
  }

  /** The product of a matrix with the homogeneous pixel coordinate (px, py, 1). */
  function MulHomogeneous(m: Matrix3, px: real, py: real): Point3
  {
    Point3(m.m11 * px + m.m12 * py + m.m13,
           m.m21 * px + m.m22 * py + m.m23,
           m.m31 * px + m.m32 * py + m.m33)
  }
}
