/** The binding to the cannon-es physics world: which bodies were registered, with what parameters
    and impulses, and how many fixed time steps the world has been advanced. How bodies move under
    gravity and collisions is computed by the library and is not part of this model; the poses it
    produces reach the model as inputs. */
module Physics {
  import opened Geometry

  /** Every call of World.step advances the simulation by this fixed time. */
  const TIME_STEP: real := 1.0 / 60.0
  /** The world's gravity, well below the Earth's, for a slow fall. */
  const GRAVITY: Vec3 := Vec3(0.0, -1.1, 0.0)

  /** An impulse and the point argument it was applied with. */
  datatype Kick = Kick(impulse: Vec3, point: Vec3)

  /** A registered body as it was created: the static floor plane, or a dynamic box. */
  datatype Body =
    | StaticPlane(position: Vec3, orientation: Orientation)
    | DynamicBox(position: Vec3, quaternion: Quaternion, halfExtents: Vec3, mass: real, restitution: real,
                 kicks: seq<Kick>)

  class World {
    const gravity: Vec3
    var bodies: seq<Body>
    var steps: nat

    /** initPhysics: an empty world with the program's gravity. */
    constructor ()
      ensures gravity == GRAVITY && bodies == [] && steps == 0
    {
      gravity := GRAVITY;
      bodies := [];
      steps := 0;
    }

    /** addBody: registers one more body; nothing checks for duplicates. */
    method AddBody(b: Body)
      modifies this
      ensures bodies == old(bodies) + [b] && steps == old(steps)
    {
      bodies := bodies + [b];
    }

    /** applyImpulse on the body registered at index i. */
    method ApplyImpulse(i: nat, impulse: Vec3, point: Vec3)
      requires i < |bodies| && bodies[i].DynamicBox?
      modifies this
      ensures bodies == old(bodies)[i := old(bodies)[i].(kicks := old(bodies)[i].kicks + [Kick(impulse, point)])]
      ensures steps == old(steps)
    {
      bodies := bodies[i := bodies[i].(kicks := bodies[i].kicks + [Kick(impulse, point)])];
    }

    /** Simulated time: TIME_STEP per step taken, whatever called the step. */
    ghost function Elapsed(): real
      reads this
    {
      steps as real * TIME_STEP
    }

    /** step(1 / 60): one more fixed time step; no body is added or removed. */
    method Step()
      modifies this
      ensures steps == old(steps) + 1 && bodies == old(bodies)
      ensures Elapsed() == old(Elapsed()) + TIME_STEP
    {
      steps := steps + 1;
    }
  }
}
