/** The App controller: the questionnaire fields it updates on every click of the "next" button,
    the domino meshes it adds to the scene, and the physics world it drives. Rendering, the camera,
    the light and the DOM are outside the model; what the question region shows is kept as a View. */
module Application {
  import opened Geometry
  import opened Spawning
  import opened Questions
  import Questionnaire
  import Settle
  import opened Physics

  /** Width, height and depth of a domino mesh. */
  const DOMINO_SIZE: Vec3 := Vec3(0.1, 0.5, 0.2)
  /** Half extents of a domino's collision box, as the program passes them. */
  const COLLIDER_HALF_EXTENTS: Vec3 := Vec3(0.1, 0.25, 0.1)
  const DOMINO_MASS: real := 1.0
  const DOMINO_RESTITUTION: real := 0.2

  /** The floor's body: a static plane that takes the floor mesh's pose, laid flat at the origin.
      The program copies the mesh's quaternion onto the body; the Euler form here stands for that
      quaternion, the rotation of -pi/2 about the x axis that the floor mesh was given. */
  const FLOOR_BODY: Body := StaticPlane(Vec3(0.0, 0.0, 0.0), Euler(Vec3(-PI / 2.0, 0.0, 0.0)))

  /** The body dropDomino registers for a spawn: at the spawn position, unrotated, with the spawn's
      impulse applied once, the body's position passed as the point. */
  function DominoBody(s: Spawn): Body {
    DynamicBox(s.position, IDENTITY, COLLIDER_HALF_EXTENTS, DOMINO_MASS, DOMINO_RESTITUTION, [Kick(s.impulse, s.position)])
  }

  /** The mesh transform dropDomino sets before the watcher's first update. */
  function Placed(s: Spawn): Settle.Watch {
    Settle.Watch(s.position, Euler(s.rotation), true)
  }

  /** The watcher's first update runs inside dropDomino, before anything is drawn. For a given body
      pose it discards whatever pose the draws placed the mesh at. */
  lemma FirstUpdateOverwritesDraws(d1: Draws, d2: Draws, pose: Settle.BodyPose)
    ensures Settle.Update(Placed(SpawnPose(d1)), pose) == Settle.Update(Placed(SpawnPose(d2)), pose)
  {
  }

  /** The body is registered from the position and impulse draws only: the three rotation draws
      never reach it, and so, by FirstUpdateOverwritesDraws, never reach the screen. */
  lemma RotationDrawsNeverReachBody(d1: Draws, d2: Draws)
    requires d1.x == d2.x && d1.z == d2.z && d1.forceX == d2.forceX && d1.forceY == d2.forceY
    ensures DominoBody(SpawnPose(d1)) == DominoBody(SpawnPose(d2))
  {
  }

  /** A domino mesh together with its settle watcher. */
  class Domino {
    const size: Vec3
    /** The spawn the mesh was created from; its physics body was registered from the same spawn. */
    ghost const spawn: Spawn
    var position: Vec3
    var orientation: Orientation
    var watching: bool

    function State(): Settle.Watch
      reads this
    {
      Settle.Watch(position, orientation, watching)
    }

    /** _createDomino, then the pose dropDomino gives the mesh; its watcher is about to start. */
    constructor (s: Spawn)
      ensures size == DOMINO_SIZE && spawn == s && State() == Placed(s)
    {
      size := DOMINO_SIZE;
      spawn := s;
      position := s.position;
      orientation := Euler(s.rotation);
      watching := true;
    }

    /** The watcher's update function: one world step, then the body's pose onto the mesh, then
        either another frame or the clamp to the floor. */
    method Update(world: World, body: Settle.BodyPose)
      requires watching
      modifies this, world
      ensures State() == Settle.Update(old(State()), body)
      ensures world.steps == old(world.steps) + 1 && world.bodies == old(world.bodies)
    {
      world.Step();
      position := body.position;
      orientation := Rotation(body.quaternion);
      if position.y <= 0.0 {
        position := position.(y := 0.0);
        watching := false;
      }
    }

    /** The watcher's chain of frames: each frame that still finds the watcher scheduled runs one
        update with that frame's body pose. */
    method AnimateFall(world: World, frames: seq<Settle.BodyPose>)
      modifies this, world
      ensures State() == Settle.Run(old(State()), frames)
      ensures world.steps == old(world.steps) + Settle.Updates(old(State()), frames)
      ensures world.bodies == old(world.bodies)
    {
      var i := 0;
      while i < |frames| && watching
        invariant 0 <= i <= |frames|
        invariant Settle.Run(old(State()), frames) == Settle.Run(State(), frames[i..])
        invariant world.steps + Settle.Updates(State(), frames[i..]) == old(world.steps) + Settle.Updates(old(State()), frames)
        invariant world.bodies == old(world.bodies)
      {
        assert frames[i..][1..] == frames[i + 1..];
        Update(world, frames[i]);
        i := i + 1;
      }
    }
  }

  class App {
    const questions: seq<Question>
    const world: World
    var currentQuestionIndex: int
    var display: View
    var nextButtonVisible: bool
    var answerLog: seq<Questionnaire.Answer>
    var dominoes: seq<Domino>
    var frames: nat

    /** The questionnaire state the App's fields hold. */
    function Survey(): Questionnaire.Survey
      reads this
    {
      Questionnaire.Survey(currentQuestionIndex, answerLog, display, nextButtonVisible, |dominoes|)
    }

    /** The scene and the world: the floor body first, then for each domino mesh, in the same
        order, the body registered from the same spawn; every mesh its own object and none of them
        below the floor. */
    ghost predicate SceneValid()
      reads this, world, dominoes
    {
      |world.bodies| == |dominoes| + 1 && world.bodies[0] == FLOOR_BODY &&
      (forall i :: 0 <= i < |dominoes| ==> world.bodies[i + 1] == DominoBody(dominoes[i].spawn)) &&
      (forall i, j :: 0 <= i < j < |dominoes| ==> dominoes[i] != dominoes[j]) &&
      (forall i :: 0 <= i < |dominoes| ==> dominoes[i].position.y >= 0.0)
    }

    ghost predicate Valid()
      reads this, world, dominoes
    {
      Questionnaire.Consistent(questions, Survey()) && SceneValid()
    }

    /** The constructor: the world with its floor, the question table, index 0 and the first
        question shown, with no domino yet. */
    constructor ()
      ensures Valid() && fresh(world)
      ensures questions == InitialQuestions()
      ensures Survey() == Questionnaire.Initial(questions)
      ensures world.bodies == [FLOOR_BODY] && world.steps == 0 && frames == 0
    {
      world := new World();
      questions := InitialQuestions();
      currentQuestionIndex := 0;
      display := Show(InitialQuestions()[0]);
      nextButtonVisible := true;
      answerLog := [];
      dominoes := [];
      frames := 0;
      new;
      world.AddBody(FLOOR_BODY);
    }

    /** nextQuestion, given the text-area contents, the seven random draws of dropDomino and the
        body pose the world produces for the new domino's first update. */
    method NextQuestion(response: string, draws: Draws, firstPose: Settle.BodyPose)
      requires Valid() && nextButtonVisible
      modifies this, world
      ensures Valid()
      ensures Survey() == Questionnaire.Advance(questions, old(Survey()), response)
      ensures frames == old(frames)
      ensures forall d :: d in old(dominoes) ==> d.State() == old(d.State())
      ensures currentQuestionIndex < |questions| ==>
        |dominoes| == |old(dominoes)| + 1 && dominoes[..|old(dominoes)|] == old(dominoes) &&
        fresh(dominoes[|old(dominoes)|]) &&
        dominoes[|old(dominoes)|].State() == Settle.Update(Placed(SpawnPose(draws)), firstPose) &&
        world.bodies == old(world.bodies) + [DominoBody(SpawnPose(draws))] &&
        world.steps == old(world.steps) + 1
      ensures currentQuestionIndex == |questions| ==>
        dominoes == old(dominoes) && world.bodies == old(world.bodies) && world.steps == old(world.steps)
    {
      ghost var next := Questionnaire.Advance(questions, Survey(), response);
      if questions[currentQuestionIndex].OpenEnded? {
        answerLog := answerLog + [Questionnaire.Answer(currentQuestionIndex + 1, response)];
      }
      currentQuestionIndex := currentQuestionIndex + 1;
      if currentQuestionIndex < |questions| {
        display := Show(questions[currentQuestionIndex]);
        DropDomino(draws, firstPose);
      } else {
        display := CompletionMessage;
        nextButtonVisible := false;
      }
      assert Survey() == next;
    }

    /** dropDomino: a new mesh in the scene and a new body in the world at the same spawn position,
        the impulse, and the first run of the new watcher. */
    method DropDomino(draws: Draws, firstPose: Settle.BodyPose)
      requires SceneValid()
      modifies this`dominoes, world
      ensures SceneValid()
      ensures forall d :: d in old(dominoes) ==> d.State() == old(d.State())
      ensures |dominoes| == |old(dominoes)| + 1 && dominoes[..|old(dominoes)|] == old(dominoes)
      ensures fresh(dominoes[|old(dominoes)|]) && dominoes[|old(dominoes)|].spawn == SpawnPose(draws)
      ensures dominoes[|old(dominoes)|].State() == Settle.Update(Placed(SpawnPose(draws)), firstPose)
      ensures world.bodies == old(world.bodies) + [DominoBody(SpawnPose(draws))]
      ensures world.steps == old(world.steps) + 1
    {
      var spawn := SpawnPose(draws);
      var domino := new Domino(spawn);
      dominoes := dominoes + [domino];
      var body := DynamicBox(spawn.position, IDENTITY, COLLIDER_HALF_EXTENTS, DOMINO_MASS, DOMINO_RESTITUTION, []);
      ghost var registered := world.bodies;
      world.AddBody(body);
      world.ApplyImpulse(|world.bodies| - 1, spawn.impulse, spawn.position);
      assert body.kicks + [Kick(spawn.impulse, spawn.position)] == [Kick(spawn.impulse, spawn.position)];
      assert world.bodies == registered + [DominoBody(spawn)];
      domino.Update(world, firstPose);
    }

    /** A later frame's run of domino i's watcher, which is still scheduled. */
    method WatcherFrame(i: nat, pose: Settle.BodyPose)
      requires Valid() && i < |dominoes| && dominoes[i].watching
      modifies world, dominoes[i]
      ensures Valid()
      ensures dominoes[i].State() == Settle.Update(old(dominoes[i].State()), pose)
      ensures forall j :: 0 <= j < |dominoes| && j != i ==> dominoes[j].State() == old(dominoes[j].State())
      ensures world.steps == old(world.steps) + 1 && world.bodies == old(world.bodies)
    {
      dominoes[i].Update(world, pose);
    }

    /** render: one world step, then one frame drawn. */
    method Render()
      requires Valid()
      modifies this`frames, world
      ensures Valid() && frames == old(frames) + 1
      ensures world.steps == old(world.steps) + 1 && world.bodies == old(world.bodies)
    {
      world.Step();
      frames := frames + 1;
    }

    /** The "next" button's click listener; a hidden button cannot be clicked. */
    method OnNextClick(response: string, draws: Draws, firstPose: Settle.BodyPose)
      requires Valid()
      modifies this, world
      ensures Valid()
      ensures Survey() == Questionnaire.Click(questions, old(Survey()), response)
      ensures frames == old(frames)
      ensures forall d :: d in old(dominoes) ==> d.State() == old(d.State())
      ensures !old(nextButtonVisible) ==> unchanged(this, world)
      ensures old(nextButtonVisible) && currentQuestionIndex < |questions| ==>
        |dominoes| == |old(dominoes)| + 1 && dominoes[..|old(dominoes)|] == old(dominoes) &&
        fresh(dominoes[|old(dominoes)|]) &&
        dominoes[|old(dominoes)|].State() == Settle.Update(Placed(SpawnPose(draws)), firstPose) &&
        world.bodies == old(world.bodies) + [DominoBody(SpawnPose(draws))] &&
        world.steps == old(world.steps) + 1
      ensures old(nextButtonVisible) && currentQuestionIndex == |questions| ==>
        dominoes == old(dominoes) && world.bodies == old(world.bodies) && world.steps == old(world.steps)
    {
      if nextButtonVisible {
        NextQuestion(response, draws, firstPose);
      }
    }
  }
}
