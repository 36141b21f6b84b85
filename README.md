# survey_digital: questionnaire, domino spawning and settle watcher

This project models the core of `basic.js`, the single script of a web survey. A visitor answers
nine questions one at a time. Each click on the "next" button records the answer to an open-ended
question on the console. Every click but the last moves to the next question and drops one
physically simulated domino onto a floor. The last click shows the closing message instead and
drops nothing. Each domino has a settle watcher. Once per frame the watcher advances the
physics world, copies the body's pose onto the mesh, and pins the mesh to the floor once the body
reaches height 0.

Modules:

- `Geometry` (geometry.dfy): vectors, quaternions, mesh orientation, `PI`.
- `Spawning` (spawning.dfy): the arithmetic of `dropDomino`. Each `Math.random()` draw is a parameter.
- `Questions` (questions.dfy): the question table as the tagged type
  `MultipleChoice(options) | OpenEnded`, and the kind of view `showQuestion` puts up.
- `Questionnaire` (questionnaire.dfy): the controller as a state machine over values. The state is
  the index, the answer log, the view, whether the button is visible, and the number of dominoes
  dropped. It includes the invariant `Consistent`, `Advance` (`nextQuestion`), `Click` (the button
  listener) and a closed form for a whole session of clicks.
- `Settle` (settle.dfy): one watcher update and a watcher run over successive frames.
- `Physics` (physics.dfy): the cannon-es world as a class. It records the bodies registered, their
  parameters and impulses, and how many 1/60 s steps were taken.
- `Application` (application.dfy): the classes `Domino` (a mesh and its watcher) and `App` (the
  controller). Their methods are proved against the functions of `Questionnaire` and `Settle`.

## Behaviour of the code that the model keeps

- Spawn positions lie in [-2.5, 2.5) on both horizontal axes (basic.js:126-127).
- The comment at basic.js:149 gives the impulse range as -0.25 to 0.25. The arithmetic gives,
  in exact arithmetic, [-0.04, 0.16), and `Spawning.Force` states that range exactly.
- The collider half extents (0.1, 0.25, 0.1) describe a box 0.2 wide. The mesh is 0.1 wide
  (basic.js:144, 158-160). The two constants are kept as written.
- The physics body is created without the mesh's random rotation (basic.js:140-143). The watcher's
  first update runs synchronously inside `dropDomino` and copies the body's pose onto the mesh. So
  the mesh's random rotation never reaches the screen, and its random position does only because
  the body starts at the same point (`FirstUpdateOverwritesDraws`, `RotationDrawsNeverReachBody`).
- Every watcher update steps the whole world (basic.js:169), in addition to the step in `render`.
  Each scheduled watcher therefore adds one more 1/60 s step per frame.
- `nextQuestion` reads `questions[currentQuestionIndex]` without a bounds check. Past the last
  question the only guard is the hidden button (basic.js:118). `Advance` therefore requires a
  visible button. `Click` models the listener: a hidden button receives no clicks, so clicks after
  completion change nothing (`ClicksAfterCompletion`).
- Answers are only written to the console. No answer map is kept. The log is the sequence of
  console lines, each reduced to its question number and the text-area value.
- The source has no "settled" flag. A watcher is either still scheduled for the next frame or
  stopped for good. `watching` records which.

## Model

| member | source | states |
|---|---|---|
| Spawning.Coordinate | basic.js:124-127 | a horizontal spawn coordinate lies in [-2.5, 2.5) exactly when its draw is in [0, 1) |
| Spawning.Angle | basic.js:133-135 | a mesh rotation angle lies in [0, pi), half a turn, exactly when its draw is in [0, 1) |
| Spawning.Force | basic.js:149-150 | in exact arithmetic, an impulse component lies in [-0.04, 0.16) exactly when its draw is in [0, 1) |
| Spawning.SpawnPose | basic.js:124-151 | spawn height is 5 and the impulse has no z component; all seven components are in range exactly when all seven draws are Math.random() values |
| Spawning.SpawnAboveFloor | basic.js:124-130 | every domino appears above the 7 by 6 floor laid flat at basic.js:201-204, inside its edges |
| Questions.InitialQuestions | basic.js:39-78 | nine questions; exactly those at indices 2, 7 and 8 are open-ended; every other one has a non-empty option list, so showQuestion always has something to render |
| Questions.Show | basic.js:80-101 | a text area exactly for an open-ended question, otherwise one radio button per option in order; never the closing message |
| Questionnaire.Initial | basic.js:25-27 | index 0, the first question shown, an empty log, no domino, and the state invariant holds |
| Questionnaire.Advance | basic.js:103-120 | keeps the invariant; the index grows by exactly one; an answer, even an empty one, is logged under number index + 1 exactly when the question left is open-ended; one domino exactly when the new index is below N, otherwise the closing message, the button hidden and no domino |
| Questionnaire.Click | basic.js:234-238 | a click on the hidden button changes nothing; a click on the visible one is exactly nextQuestion (Advance): it logs the answer, moves one question on and drops a domino as Advance states |
| Questionnaire.Run | basic.js:103-120 | after any session of clicks the invariant holds and the index is the number of clicks, capped at N |
| Questionnaire.OpenIndicesExact | basic.js:105-107 | the reference list of open-ended indices holds exactly the open-ended questions already passed |
| Questionnaire.RunClosedForm | basic.js:103-120 | after k <= N clicks the index is k, the log is exactly the open-ended answers in order, the button is visible iff k < N, and k dominoes have fallen, or N - 1 after the N-th click |
| Questionnaire.ClicksAfterCompletion | basic.js:111-119 | the N-th click shows the closing message and every later click leaves the state as it is |
| Questionnaire.SurveySession | basic.js:39-120 | the survey as written ends after nine clicks with eight dominoes and logs answers 3, 8 and 9 |
| Settle.Update | basic.js:167-178 | the mesh takes the body's pose; the watcher goes on exactly while the body is above the floor; a stopped watcher leaves the mesh at height exactly 0; the mesh is never below the floor |
| Settle.Run | basic.js:166-180 | a watcher over frames keeps the mesh at or above the floor, and a stopped watcher never changes or restarts |
| Settle.Updates | basic.js:169 | the watcher steps the world at most once per frame, and never once stopped |
| Settle.StillFalling | basic.js:173-174 | a watcher is still running after the frames exactly when every body pose was above the floor; it then made one update per frame and shows the last pose |
| Settle.SettlesAtFirstContact | basic.js:173-177 | a watcher stops at the first frame whose pose is at or below the floor, after that many updates, with the mesh clamped to height 0 there; later frames have no effect |
| Settle.RunAppend | basic.js:174 | running over two stretches of frames is running over each in turn |
| Physics.World.constructor | basic.js:32-37 | an empty world with gravity (0, -1.1, 0) |
| Physics.World.AddBody | basic.js:146 | appends one body and takes no step |
| Physics.World.ApplyImpulse | basic.js:151 | records the impulse and its point on that body only |
| Physics.World.Step | basic.js:169 | one more step, simulated time grows by exactly 1/60, and the bodies are unchanged |
| Application.FirstUpdateOverwritesDraws | basic.js:130-171 | for a given body pose, the first synchronous update discards the pose the draws placed the mesh at |
| Application.RotationDrawsNeverReachBody | basic.js:140-151 | the body dropDomino registers depends only on the position and impulse draws, never on the rotation draws |
| Application.Domino.constructor | basic.js:157-164 | a mesh of size 0.1 x 0.5 x 0.2 at the spawn position and rotation, with its watcher about to run |
| Application.Domino.Update | basic.js:167-178 | the new mesh state is Settle.Update of the old one; the world takes exactly one step |
| Application.Domino.AnimateFall | basic.js:166-180 | the mesh state after the frames is Settle.Run of the old one; the world takes one step per update |
| Application.App.constructor | basic.js:5-30 | the question table, Questionnaire.Initial, and a world holding only the floor body |
| Application.App.NextQuestion | basic.js:103-120 | the new questionnaire state is Questionnaire.Advance of the old one; on a spawn, exactly one fresh domino and one body at the spawn pose, with one world step; on completion, the scene and the world are untouched; existing dominoes never change |
| Application.App.DropDomino | basic.js:123-155 | one fresh mesh and one body for the same spawn, with the impulse applied once; the first watcher update runs; the i-th mesh stays paired with the body registered after the floor in the same order; no mesh goes below the floor |
| Application.App.WatcherFrame | basic.js:174 | a rescheduled update changes only its own domino, as Settle.Update says, and steps the world once |
| Application.App.Render | basic.js:227-231 | one world step and one frame drawn |
| Application.App.OnNextClick | basic.js:234-238 | the questionnaire follows Questionnaire.Click; a click on the hidden button changes nothing in the App or the world; a click on the visible one acts exactly as nextQuestion: one fresh domino, one paired body and one world step while a question remains, the scene and the world untouched on completion; no frame is drawn and existing dominoes keep their state |

## Left out

- Physics: cannon-es gravity, collisions and restitution are not computed. The body pose after
  each world step is an input to the watcher.
- Physics: `applyImpulse` takes its second argument as a point relative to the centre of mass.
  Passing the body's world position therefore also spins the body. That effect belongs to the
  library and is not modelled; only the arguments are recorded.
- Graphics: three.js rendering, the camera, the light, the floor mesh, the material colour and
  `resize` are not modelled. That includes the unguarded division by the container height at
  basic.js:221.
- DOM: the question prompts, the HTML markup of `showQuestion` and the completion message text are
  not modelled. Only the kind of view and the options are kept. The text-area value is a parameter.
- Scheduling: `requestAnimationFrame` is not modelled. Each callback is a separate method, and the
  order of callbacks within one display frame is left to the caller.
- `Math.random()` draws are parameters, and coordinates are exact reals: floating-point rounding is
  not modelled.
- Console output: each `console.log` line is kept as its question number and response, without
  the surrounding text.
- Whether a domino ever settles: with a box collider resting on the floor plane, the body
  centre normally stays above height 0. Body heights are inputs, so whether a watcher ever stops
  depends on the physics engine.
