/** Geometric values that cross the subnode's boundary. The 4x4 homogeneous
    radar-to-world matrix is kept opaque except for its translation column,
    which is all the subnode reads from it. */
module Geometry {

  /** A 3-vector of reals: a position, or a linear velocity. */
  datatype Vec3 = Vec3(x: real, y: real, z: real)

  /** A rigid pose: the rotation block is carried along unread (row-major),
      the translation is the sensor's position in the world frame. */
  datatype Pose = Pose(rotation: seq<real>, translation: Vec3)

  /** Absolute value on reals, the model of `fabs`. */
  function Abs(x: real): (r: real)
    ensures r >= 0.0
    ensures r == x || r == -x
  {
    if x < 0.0 then -x else x
  }
}
