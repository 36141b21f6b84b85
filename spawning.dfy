/** The pose and impulse arithmetic of App.dropDomino. Each Math.random() call is a parameter: the
    seven draws, in the order the program makes them, are collected in a Draws value. */
module Spawning {
  import opened Geometry

  /** Half of the side of the square spawn area (basic.js:124). */
  const FLOOR_SIZE: real := 2.5
  /** Height at which every domino appears. */
  const SPAWN_HEIGHT: real := 5.0
  /** The visible floor mesh is a 7 by 6 plane laid flat, centred on the origin. */
  const FLOOR_WIDTH: real := 7.0
  const FLOOR_DEPTH: real := 6.0

  /** What Math.random() can return. */
  predicate IsDraw(r: real) {
    0.0 <= r < 1.0
  }

  datatype Draws = Draws(x: real, z: real, rotX: real, rotY: real, rotZ: real, forceX: real, forceY: real)
  {
    predicate Valid() {
      IsDraw(x) && IsDraw(z) && IsDraw(rotX) && IsDraw(rotY) && IsDraw(rotZ) && IsDraw(forceX) && IsDraw(forceY)
    }
  }

  /** Position shared by the mesh and the body, Euler rotation of the mesh, impulse given to the body. */
  datatype Spawn = Spawn(position: Vec3, rotation: Vec3, impulse: Vec3)

  /** A horizontal coordinate: lies in [-2.5, 2.5) exactly when the draw is a Math.random() value. */
  function Coordinate(r: real): (c: real)
    ensures IsDraw(r) <==> -FLOOR_SIZE <= c < FLOOR_SIZE
  {
    (r - 0.5) * FLOOR_SIZE * 2.0
  }

  /** A rotation angle: lies in [0, pi), half a turn, exactly when the draw is a Math.random() value. */
  function Angle(r: real): (a: real)
    ensures IsDraw(r) <==> 0.0 <= a < PI
  {
    PI * r
  }

  /** An impulse component: in exact arithmetic, lies in [-0.04, 0.16) exactly when the draw is a
      Math.random() value, so the range is lopsided and much narrower than plus or minus 0.25. */
  function Force(r: real): (f: real)
    ensures IsDraw(r) <==> -0.04 <= f < 0.16
  {
    (r - 0.2) * 0.2
  }

  predicate InRange(s: Spawn) {
    -FLOOR_SIZE <= s.position.x < FLOOR_SIZE && -FLOOR_SIZE <= s.position.z < FLOOR_SIZE &&
    0.0 <= s.rotation.x < PI && 0.0 <= s.rotation.y < PI && 0.0 <= s.rotation.z < PI &&
    -0.04 <= s.impulse.x < 0.16 && -0.04 <= s.impulse.y < 0.16
  }

  /** The pose dropDomino computes from its seven draws. */
  function SpawnPose(d: Draws): (s: Spawn)
    ensures s.position.y == SPAWN_HEIGHT && s.impulse.z == 0.0
    ensures d.Valid() <==> InRange(s)
  {
    Spawn(Vec3(Coordinate(d.x), SPAWN_HEIGHT, Coordinate(d.z)),
          Vec3(Angle(d.rotX), Angle(d.rotY), Angle(d.rotZ)),
          Vec3(Force(d.forceX), Force(d.forceY), 0.0))
  }

  /** Every domino appears above the visible floor, never beyond its edges. */
  lemma SpawnAboveFloor(d: Draws)
    requires d.Valid()
    ensures var p := SpawnPose(d).position;
      -FLOOR_WIDTH / 2.0 < p.x < FLOOR_WIDTH / 2.0 && -FLOOR_DEPTH / 2.0 < p.z < FLOOR_DEPTH / 2.0 && p.y > 0.0
  {
  }
}
