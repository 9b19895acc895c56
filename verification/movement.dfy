/** Player movement for one tick: a velocity built from the four movement
    flags and the yaw-rotated forward vector, then the arena bounds check,
    which accepts or rejects the whole step. The forward vector comes from
    trigonometry on the smoothed yaw and is an input here. */
module Movement {
  import opened Entities
  import opened GameSession

  const MoveSpeed: real := 0.2
  const MapSize: real := 100.0

  /** A candidate position is accepted when both horizontal coordinates lie
      strictly within this distance of the origin. */
  const Bound: real := MapSize / 2.0 - 1.0

  /** A vector in the horizontal plane (the y component is always zero). */
  datatype Flat = Flat(x: real, z: real)

  function Scale(k: real, v: Flat): Flat
  {
    Flat(k * v.x, k * v.z)
  }

  function Plus(a: Flat, b: Flat): Flat
  {
    Flat(a.x + b.x, a.z + b.z)
  }

  function Minus(a: Flat, b: Flat): Flat
  {
    Flat(a.x - b.x, a.z - b.z)
  }

  /** The game's "right" basis vector, (forward.z, 0, -forward.x). */
  function RightOf(f: Flat): Flat
  {
    Flat(f.z, -f.x)
  }

  function Abs(r: real): real
  {
    if r < 0.0 then -r else r
  }

  predicate InArena(p: Vec3)
  {
    Abs(p.x) < Bound && Abs(p.z) < Bound
  }

  /** +1, -1 or 0: the net effect of a pair of opposing flags. */
  function Axis(plus: bool, minus: bool): real
  {
    (if plus then 1.0 else 0.0) - (if minus then 1.0 else 0.0)
  }

  /** The velocity as the code computes it. Each pressed flag scales its
      basis vector IN PLACE before adding or subtracting it, so the second
      flag of a pair sees a vector already shrunk by the speed factor. */
  function VelocityAsWritten(c: Controls, forward: Flat): (v: Vec3)
    ensures v.y == 0.0
    ensures c == Released ==> v == Zero
  {
    var f1 := if c.forward then Scale(MoveSpeed, forward) else forward;
    var v1 := if c.forward then f1 else Flat(0.0, 0.0);
    var f2 := if c.backward then Scale(MoveSpeed, f1) else f1;
    var v2 := if c.backward then Minus(v1, f2) else v1;
    var r1 := if c.left then Scale(MoveSpeed, RightOf(forward)) else RightOf(forward);
    var v3 := if c.left then Minus(v2, r1) else v2;
    var r2 := if c.right then Scale(MoveSpeed, r1) else r1;
    var v4 := if c.right then Plus(v3, r2) else v3;
    Vec3(v4.x, 0.0, v4.z)
  }

  /** The velocity the movement code evidently means: each pressed flag
      contributes its basis vector times the movement speed, so opposing
      flags cancel. */
  function Velocity(c: Controls, forward: Flat): (v: Vec3)
    ensures v.y == 0.0
    ensures c == Released ==> v == Zero
    ensures c.forward == c.backward && c.left == c.right ==> v == Zero
  {
    var ahead := Axis(c.forward, c.backward);
    var side := Axis(c.right, c.left);
    var d := Plus(Scale(ahead, forward), Scale(side, RightOf(forward)));
    Vec3(MoveSpeed * d.x, 0.0, MoveSpeed * d.z)
  }

  /** The two velocities agree whenever no pair of opposing flags is held. */
  lemma VelocityAsWrittenAgrees(c: Controls, forward: Flat)
    requires !(c.forward && c.backward) && !(c.left && c.right)
    ensures VelocityAsWritten(c, forward) == Velocity(c, forward)
  {
    var ahead := Axis(c.forward, c.backward);
    var side := Axis(c.right, c.left);
    assert ahead == 1.0 || ahead == 0.0 || ahead == -1.0;
    assert side == 1.0 || side == 0.0 || side == -1.0;
    assert Scale(1.0, forward) == forward && Scale(1.0, RightOf(forward)) == RightOf(forward);
    assert Scale(-1.0, forward) == Flat(-forward.x, -forward.z);
    assert Scale(-1.0, RightOf(forward)) == Flat(-forward.z, forward.x);
    assert Scale(0.0, forward) == Flat(0.0, 0.0) && Scale(0.0, RightOf(forward)) == Flat(0.0, 0.0);
  }

  /** Holding forward and backward together moves the player forward at
      0.16 units per tick where the two keys should cancel. */
  lemma OpposingKeysDoNotCancel(forward: Flat)
    ensures VelocityAsWritten(Controls(true, true, false, false), forward)
              == Vec3(0.16 * forward.x, 0.0, 0.16 * forward.z)
    ensures Velocity(Controls(true, true, false, false), forward) == Zero
  {
  }

  /** The bounds check: a step that would leave the square is dropped as a
      whole (no sliding along a wall), and a player inside stays inside. */
  function Step(p: Vec3, v: Vec3): (r: Vec3)
    ensures InArena(Add(p, v)) ==> r == Add(p, v)
    ensures !InArena(Add(p, v)) ==> r == p
    ensures InArena(p) ==> InArena(r)
  {
    var next := Add(p, v);
    if InArena(next) then next else p
  }

  /** `updateMovement` (position part) for the session, with the velocity
      as the code computes it. */
  function UpdateMovement(s: Session, forward: Flat): (r: Session)
    ensures r == s.(player := r.player)
    ensures s.controls == Released ==> r.player == s.player
    ensures InArena(s.player) ==> InArena(r.player)
  {
    s.(player := Step(s.player, VelocityAsWritten(s.controls, forward)))
  }

  /** `updateMovement` with the evidently intended velocity. */
  function UpdateMovementIntended(s: Session, forward: Flat): (r: Session)
    ensures r == s.(player := r.player)
    ensures s.controls.forward == s.controls.backward && s.controls.left == s.controls.right ==>
              r.player == s.player
    ensures InArena(s.player) ==> InArena(r.player)
  {
    assert Add(s.player, Zero) == s.player;
    s.(player := Step(s.player, Velocity(s.controls, forward)))
  }

  /** The two movement updates differ only when opposing keys are held together. */
  lemma UpdateMovementAgrees(s: Session, forward: Flat)
    requires !(s.controls.forward && s.controls.backward) && !(s.controls.left && s.controls.right)
    ensures UpdateMovement(s, forward) == UpdateMovementIntended(s, forward)
  {
    VelocityAsWrittenAgrees(s.controls, forward);
  }

  /** The key codes `onKeyDown` and `onKeyUp` react to; every other code
      is ignored. */
  datatype Key = KeyW | KeyS | KeyA | KeyD | OtherKey

  /** Whether the flag key `k` drives is set: W forward, S backward, and,
      crossed over, D the flag the code names `moveLeft` and A the one it
      names `moveRight`. */
  predicate Held(c: Controls, k: Key)
  {
    match k
    case KeyW => c.forward
    case KeyS => c.backward
    case KeyD => c.left
    case KeyA => c.right
    case OtherKey => false
  }

  /** `onKeyDown` (`down`) and `onKeyUp` (`!down`): the key's own flag takes
      the new state and every other flag keeps its state. */
  function Press(c: Controls, k: Key, down: bool): (r: Controls)
    ensures k != OtherKey ==> Held(r, k) == down
    ensures forall j: Key | j != k :: Held(r, j) == Held(c, j)
  {
    match k
    case KeyW => c.(forward := down)
    case KeyS => c.(backward := down)
    case KeyD => c.(left := down)
    case KeyA => c.(right := down)
    case OtherKey => c
  }

  /** The four flags are exactly what the four keys hold. */
  lemma HeldDetermines(c: Controls, d: Controls)
    requires Held(c, KeyW) == Held(d, KeyW) && Held(c, KeyS) == Held(d, KeyS)
    requires Held(c, KeyA) == Held(d, KeyA) && Held(c, KeyD) == Held(d, KeyD)
    ensures c == d
  {
  }

  /** Letting go of the four movement keys stops the player, whatever was held. */
  lemma ReleaseAll(c: Controls)
    ensures Press(Press(Press(Press(c, KeyW, false), KeyS, false), KeyA, false), KeyD, false) == Released
  {
  }

  /** Keys on different flags commute. */
  lemma PressCommutes(c: Controls, j: Key, k: Key, a: bool, b: bool)
    requires j != k
    ensures Press(Press(c, j, a), k, b) == Press(Press(c, k, b), j, a)
  {
    var l, r := Press(Press(c, j, a), k, b), Press(Press(c, k, b), j, a);
    HeldDetermines(l, r);
  }

  /** The two crossings cancel: at yaw 0 the camera looks down -z, so
      screen right is +x, and holding D alone moves the player toward +x
      while holding A alone moves them toward -x. */
  lemma SideKeysMatchScreen()
    ensures VelocityAsWritten(Press(Released, KeyD, true), Flat(0.0, -1.0)) == Vec3(MoveSpeed, 0.0, 0.0)
    ensures VelocityAsWritten(Press(Released, KeyA, true), Flat(0.0, -1.0)) == Vec3(-MoveSpeed, 0.0, 0.0)
  {
    assert Press(Released, KeyD, true) == Controls(false, false, true, false);
    assert Press(Released, KeyA, true) == Controls(false, false, false, true);
    SideVelocities();
  }

  lemma SideVelocities()
    ensures VelocityAsWritten(Controls(false, false, true, false), Flat(0.0, -1.0)) == Vec3(MoveSpeed, 0.0, 0.0)
    ensures VelocityAsWritten(Controls(false, false, false, true), Flat(0.0, -1.0)) == Vec3(-MoveSpeed, 0.0, 0.0)
  {
    SideOnly(Flat(0.0, -1.0));
  }

  /** A lone side flag moves the player along the "right" basis vector:
      backwards along it for the flag named `moveLeft`. */
  lemma SideOnly(f: Flat)
    ensures VelocityAsWritten(Controls(false, false, true, false), f) == Vec3(-MoveSpeed * f.z, 0.0, MoveSpeed * f.x)
    ensures VelocityAsWritten(Controls(false, false, false, true), f) == Vec3(MoveSpeed * f.z, 0.0, -MoveSpeed * f.x)
  {
  }

  /** With no flag held the player does not move, wherever they stand. */
  lemma StandingStill(p: Vec3, forward: Flat)
    ensures Step(p, Velocity(Released, forward)) == p
  {
    assert Add(p, Zero) == p;
  }

  /** Holding only the forward key moves the player along the forward
      vector at the movement speed. */
  lemma ForwardOnly(forward: Flat)
    ensures Velocity(Controls(true, false, false, false), forward)
              == Vec3(MoveSpeed * forward.x, 0.0, MoveSpeed * forward.z)
  {
    assert Scale(1.0, forward) == forward;
    assert Scale(0.0, RightOf(forward)) == Flat(0.0, 0.0);
  }

  /** At yaw 0 the forward vector is (0, 0, -1): one tick with W held from
      the start position moves the player 0.2 units toward -z. */
  lemma ForwardFromStart(s: Session)
    requires s.player == PlayerStart && s.controls == Press(Released, KeyW, true)
    ensures UpdateMovement(s, Flat(0.0, -1.0)).player == Vec3(0.0, 1.0, -0.2)
  {
    assert s.controls == Controls(true, false, false, false);
    StepFromStart(VelocityAsWritten(s.controls, Flat(0.0, -1.0)));
  }

  lemma StepFromStart(v: Vec3)
    requires v == VelocityAsWritten(Controls(true, false, false, false), Flat(0.0, -1.0))
    ensures Step(PlayerStart, v) == Vec3(0.0, 1.0, -0.2)
  {
    assert v == Vec3(0.0, 0.0, -0.2);
  }
}
