/** The per-domino settle watcher of App.animateDominoFall. Each call of its update function steps
    the physics world, copies the body's pose onto the mesh, and then either asks for another frame
    (the mesh is still above the floor) or pins the mesh to height 0 and stops. The body's pose after
    each world step comes from the physics engine and is an input here. */
module Settle {
  import opened Geometry

  /** The pose of a domino's physics body after a world step. */
  datatype BodyPose = BodyPose(position: Vec3, quaternion: Quaternion)

  /** A domino mesh's transform and whether its watcher will run again on the next frame. */
  datatype Watch = Watch(position: Vec3, orientation: Orientation, watching: bool)

  /** One run of the watcher's update function, given the body pose after its world step. The mesh
      takes the body's pose; the watcher keeps going exactly while that pose is above the floor, and
      a watcher that stops leaves its mesh at height exactly 0, so the mesh is never below the floor. */
  function Update(w: Watch, body: BodyPose): (u: Watch)
    requires w.watching
    ensures u.watching <==> body.position.y > 0.0
    ensures u.orientation == Rotation(body.quaternion)
    ensures u.position.x == body.position.x && u.position.z == body.position.z
    ensures u.watching ==> u.position.y == body.position.y
    ensures !u.watching ==> u.position.y == 0.0
    ensures u.position.y >= 0.0
  {
    if body.position.y > 0.0 then Watch(body.position, Rotation(body.quaternion), true)
    else Watch(body.position.(y := 0.0), Rotation(body.quaternion), false)
  }

  /** The watcher over successive frames, frame k supplying the body pose of the k-th update; once
      it has stopped, no later frame reaches it. A mesh that starts at or above the floor stays there,
      and a stopped watcher never starts again. */
  function Run(w: Watch, bodies: seq<BodyPose>): (r: Watch)
    ensures w.position.y >= 0.0 ==> r.position.y >= 0.0
    ensures r.watching ==> w.watching
    ensures !w.watching ==> r == w
    decreases |bodies|
  {
    if !w.watching || bodies == [] then w else Run(Update(w, bodies[0]), bodies[1..])
  }

  /** How many updates, hence how many extra world steps, the watcher performs over the frames. */
  function Updates(w: Watch, bodies: seq<BodyPose>): (n: nat)
    ensures n <= |bodies|
    ensures !w.watching ==> n == 0
    decreases |bodies|
  {
    if !w.watching || bodies == [] then 0 else 1 + Updates(Update(w, bodies[0]), bodies[1..])
  }

  /** A running watcher is still running after the frames exactly when every body pose was above the
      floor; it then performed one update per frame and the mesh shows the last pose. */
  lemma {:induction false} StillFalling(w: Watch, bodies: seq<BodyPose>)
    requires w.watching
    ensures Run(w, bodies).watching <==> forall k :: 0 <= k < |bodies| ==> bodies[k].position.y > 0.0
    ensures Run(w, bodies).watching ==> Updates(w, bodies) == |bodies|
    ensures Run(w, bodies).watching && bodies != [] ==>
      Run(w, bodies).position == bodies[|bodies| - 1].position &&
      Run(w, bodies).orientation == Rotation(bodies[|bodies| - 1].quaternion)
    decreases |bodies|
  {
    if bodies != [] {
      var u := Update(w, bodies[0]);
      if u.watching {
        StillFalling(u, bodies[1..]);
        assert forall k :: 1 <= k < |bodies| ==> bodies[k] == bodies[1..][k - 1];
      }
    }
  }

  /** A running watcher whose first pose at or below the floor is frame k stops there: it has made
      k + 1 updates, the mesh keeps that frame's horizontal position and orientation with height 0,
      and the frames after k have no effect. */
  lemma {:induction false} SettlesAtFirstContact(w: Watch, bodies: seq<BodyPose>, k: nat)
    requires w.watching && k < |bodies|
    requires bodies[k].position.y <= 0.0
    requires forall i :: 0 <= i < k ==> bodies[i].position.y > 0.0
    ensures Run(w, bodies) == Watch(bodies[k].position.(y := 0.0), Rotation(bodies[k].quaternion), false)
    ensures Updates(w, bodies) == k + 1
    decreases k
  {
    var u := Update(w, bodies[0]);
    if k > 0 {
      assert bodies[0].position.y > 0.0;
      assert forall i :: 0 <= i < k - 1 ==> bodies[1..][i] == bodies[i + 1];
      SettlesAtFirstContact(u, bodies[1..], k - 1);
    }
  }

  /** Running over two stretches of frames is running over both in turn. */
  lemma {:induction false} RunAppend(w: Watch, first: seq<BodyPose>, second: seq<BodyPose>)
    ensures Run(w, first + second) == Run(Run(w, first), second)
    ensures Updates(w, first + second) == Updates(w, first) + Updates(Run(w, first), second)
    decreases |first|
  {
    if first == [] {
      assert first + second == second;
    } else if w.watching {
      assert (first + second)[1..] == first[1..] + second;
      RunAppend(Update(w, first[0]), first[1..], second);
    }
  }
}
