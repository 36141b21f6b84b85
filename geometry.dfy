/** Vectors and orientations shared by the scene graph (three.js) and the physics world (cannon-es).
    Coordinates are exact reals: the floating-point rounding of the JavaScript program is not modelled. */
module Geometry {

  datatype Vec3 = Vec3(x: real, y: real, z: real)

  /** A quaternion as cannon-es stores it; (0, 0, 0, 1) is the identity rotation. */
  datatype Quaternion = Quaternion(x: real, y: real, z: real, w: real)

  const IDENTITY: Quaternion := Quaternion(0.0, 0.0, 0.0, 1.0)

  /** A three.js mesh keeps its rotation both as Euler angles and as a quaternion and keeps the two in
      step; the model records whichever form was written last. */
  datatype Orientation = Euler(angles: Vec3) | Rotation(q: Quaternion)

  /** Math.PI, written as the shortest decimal that rounds to the double the program uses. */
  const PI: real := 3.141592653589793
}
