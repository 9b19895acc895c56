/** The game as a sequence of events: animation frames, spawn-timer
    firings, mouse clicks, the restart button and the difficulty buttons.
    Each frame runs the `animate` body; the geometry a frame needs (the
    forward vector, which bullet touches which enemy, which bullet is out
    of range, which enemy reaches the player) arrives with the frame. */
module Simulation {
  import opened Entities
  import opened Difficulty
  import opened GameSession
  import opened Movement
  import opened Projectiles
  import opened EnemyAI

  /** What the scene graph answers during one frame. */
  datatype Geometry = Geometry(
    forward: Flat,
    hits: (Bullet, nat) -> bool,
    far: Bullet -> bool,
    contact: nat -> bool)

  /** One pass of `animate` as the code runs it: nothing moves once the
      game is over; otherwise movement, then bullets, then enemies. */
  function Tick(s: Session, g: Geometry): (r: Session)
    ensures s.isGameOver ==> r == s
    ensures |r.enemies| <= |s.enemies| && multiset(r.bullets) <= multiset(s.bullets)
    ensures InArena(s.player) ==> InArena(r.player)
    ensures r.difficulty == s.difficulty && r.nextId == s.nextId && r.controls == s.controls
  {
    if s.isGameOver then s
    else UpdateEnemiesAsWritten(UpdateBulletsAsWritten(UpdateMovement(s, g.forward), g.hits, g.far), g.contact)
  }

  /** The same pass built from the corrected parts: opposing keys cancel,
      every hit bullet is destroyed once, and every enemy alive at the start
      of the frame is checked for contact. */
  function TickIntended(s: Session, g: Geometry): (r: Session)
    ensures s.isGameOver ==> r == s
    ensures |r.enemies| <= |s.enemies| && multiset(r.bullets) <= multiset(s.bullets)
    ensures InArena(s.player) ==> InArena(r.player)
    ensures r.difficulty == s.difficulty && r.nextId == s.nextId && r.controls == s.controls
  {
    if s.isGameOver then s
    else UpdateEnemies(UpdateBullets(UpdateMovementIntended(s, g.forward), g.hits, g.far), g.contact)
  }

  /** A frame never brings in an enemy: every enemy left after it was on
      the board before, possibly wounded. */
  lemma TickEnemiesOnlyLeave(s: Session, g: Geometry)
    ensures Ids(Tick(s, g).enemies) <= Ids(s.enemies)
  {
    if !s.isGameOver {
      var shot := UpdateBulletsAsWritten(UpdateMovement(s, g.forward), g.hits, g.far);
      IdsOfSubset(UpdateEnemiesAsWritten(shot, g.contact).enemies, shot.enemies);
    }
  }

  lemma TickIntendedEnemiesOnlyLeave(s: Session, g: Geometry)
    ensures Ids(TickIntended(s, g).enemies) <= Ids(s.enemies)
  {
    if !s.isGameOver {
      var shot := UpdateBullets(UpdateMovementIntended(s, g.forward), g.hits, g.far);
      IdsOfSubset(UpdateEnemies(shot, g.contact).enemies, shot.enemies);
    }
  }

  /** The score and health accounting of a frame as the code runs it:
      every enemy that leaves is either shot, paying 100 points, or
      reaches the player, costing 20 health; nothing else moves either. */
  lemma TickAccounting(s: Session, g: Geometry) returns (kills: nat, hits: nat)
    ensures Tick(s, g).score - s.score == KillScore * kills
    ensures s.health - Tick(s, g).health == ContactDamage * hits
    ensures kills + hits == |s.enemies| - |Tick(s, g).enemies|
  {
    if s.isGameOver {
      kills, hits := 0, 0;
    } else {
      var moved := UpdateMovement(s, g.forward);
      var shot := UpdateBulletsAsWritten(moved, g.hits, g.far);
      var r := UpdateEnemiesAsWritten(shot, g.contact);
      assert Tick(s, g) == r;
      assert r.score == shot.score && moved.score == s.score;
      assert shot.health == s.health && moved.enemies == s.enemies;
      kills := |moved.enemies| - |shot.enemies|;
      hits := |shot.enemies| - |r.enemies|;
    }
  }

  /** The same accounting for the corrected frame. */
  lemma TickIntendedAccounting(s: Session, g: Geometry) returns (kills: nat, hits: nat)
    ensures TickIntended(s, g).score - s.score == KillScore * kills
    ensures s.health - TickIntended(s, g).health == ContactDamage * hits
    ensures kills + hits == |s.enemies| - |TickIntended(s, g).enemies|
  {
    if s.isGameOver {
      kills, hits := 0, 0;
    } else {
      var moved := UpdateMovementIntended(s, g.forward);
      var shot := UpdateBullets(moved, g.hits, g.far);
      var r := UpdateEnemies(shot, g.contact);
      assert TickIntended(s, g) == r;
      assert r.score == shot.score && moved.score == s.score;
      assert shot.health == s.health && moved.enemies == s.enemies;
      UpdateEnemiesCount(shot, g.contact);
      kills := |moved.enemies| - |shot.enemies|;
      hits := Contacts(shot.enemies, g.contact);
    }
  }

  /** A frame of a running game ends it exactly when health falls to zero
      or below, and ending it stops the spawn timer; a frame that does not
      end the game leaves the start flag and the timer alone. */
  lemma TickEndsGame(s: Session, g: Geometry)
    ensures !s.isGameOver && s.health > 0 ==> (Tick(s, g).isGameOver <==> Tick(s, g).health <= 0)
    ensures !Tick(s, g).isGameOver ==>
              Tick(s, g).gameStarted == s.gameStarted && Tick(s, g).spawnTimer == s.spawnTimer
    ensures Tick(s, g).isGameOver && !s.isGameOver ==>
              Tick(s, g).spawnTimer == None && !Tick(s, g).gameStarted
  {
    if !s.isGameOver {
      var shot := UpdateBulletsAsWritten(UpdateMovement(s, g.forward), g.hits, g.far);
      assert shot.health == s.health && !shot.isGameOver;
      assert shot.gameStarted == s.gameStarted && shot.spawnTimer == s.spawnTimer;
    }
  }

  lemma TickIntendedEndsGame(s: Session, g: Geometry)
    ensures !s.isGameOver && s.health > 0 ==> (TickIntended(s, g).isGameOver <==> TickIntended(s, g).health <= 0)
    ensures !TickIntended(s, g).isGameOver ==>
              TickIntended(s, g).gameStarted == s.gameStarted && TickIntended(s, g).spawnTimer == s.spawnTimer
    ensures TickIntended(s, g).isGameOver && !s.isGameOver ==>
              TickIntended(s, g).spawnTimer == None && !TickIntended(s, g).gameStarted
  {
    if !s.isGameOver {
      var shot := UpdateBullets(UpdateMovementIntended(s, g.forward), g.hits, g.far);
      assert shot.health == s.health && !shot.isGameOver;
      assert shot.gameStarted == s.gameStarted && shot.spawnTimer == s.spawnTimer;
    }
  }

  lemma TickKeepsValid(s: Session, g: Geometry)
    requires Valid(s)
    ensures Valid(Tick(s, g))
  {
    if !s.isGameOver {
      var moved := UpdateMovement(s, g.forward);
      UpdateBulletsAsWrittenKeepsValid(moved, g.hits, g.far);
      UpdateEnemiesAsWrittenKeepsValid(UpdateBulletsAsWritten(moved, g.hits, g.far), g.contact);
    }
  }

  lemma TickIntendedKeepsValid(s: Session, g: Geometry)
    requires Valid(s)
    ensures Valid(TickIntended(s, g))
  {
    if !s.isGameOver {
      var moved := UpdateMovementIntended(s, g.forward);
      UpdateBulletsKeepsValid(moved, g.hits, g.far);
      UpdateEnemiesKeepsValid(UpdateBullets(moved, g.hits, g.far), g.contact);
    }
  }

  datatype Event =
    | Frame(g: Geometry)
    | SpawnTimerFires
    | Click(captured: bool)
    | RestartClicked
    | Choose(level: Tier)
    | KeyDown(key: Key)
    | KeyUp(key: Key)

  /** The effect of one event. The restart button lives on the game-over
      screen and the difficulty buttons on the selection screen, which is
      shown at load and after a restart; an event whose screen is not
      shown does nothing. The spawn timer fires only while it runs. The
      keyboard handlers set and clear the movement flags whatever the
      state of the game. */
  function Apply(s: Session, ev: Event): (r: Session)
    ensures r.nextId >= s.nextId
    ensures s.isGameOver && !ev.RestartClicked? ==> r == s.(controls := r.controls)
    ensures !ev.KeyDown? && !ev.KeyUp? && !ev.RestartClicked? ==> r.controls == s.controls
  {
    match ev
    case Frame(g) => Tick(s, g)
    case SpawnTimerFires => if s.spawnTimer.Some? then Spawn(s) else s
    case Click(captured) => Fire(s, captured)
    case RestartClicked => if s.isGameOver then Restart(s) else s
    case Choose(level) => if s.isGameOver then s else SetDifficulty(s, level)
    case KeyDown(k) => s.(controls := Press(s.controls, k, true))
    case KeyUp(k) => s.(controls := Press(s.controls, k, false))
  }

  /** A run of events. Once the game is over, every event except the
      restart button leaves the session as it is, apart from the held
      movement keys. */
  function Run(s: Session, evs: seq<Event>): (r: Session)
    ensures r.nextId >= s.nextId
    ensures s.isGameOver && (forall k | 0 <= k < |evs| :: !evs[k].RestartClicked?) ==> r == s.(controls := r.controls)
    decreases |evs|
  {
    if |evs| == 0 then s else Run(Apply(s, evs[0]), evs[1..])
  }

  /** The invariant every reachable session keeps: distinct identities;
      a finished game has no running spawn timer; a running timer means a
      started game; before the first selection (or after a restart) there
      are no enemies; and while the game is not over, the enemy population
      never exceeds the cap of the chosen tier, and its health is above
      zero, since the hit that brings it to zero ends the game; the player
      is always inside the arena. */
  predicate Coherent(s: Session)
  {
    && Valid(s)
    && (s.isGameOver ==> s.spawnTimer == None && !s.gameStarted)
    && (!s.isGameOver ==> s.health > 0)
    && InArena(s.player)
    && (s.spawnTimer.Some? ==> s.gameStarted)
    && (!s.gameStarted && !s.isGameOver ==> s.enemies == [])
    && (!s.isGameOver ==> |s.enemies| <= MaxEnemies(s.difficulty))
  }

  lemma InitialCoherent()
    ensures Coherent(Initial())
  {
  }

  lemma ApplyKeepsCoherent(s: Session, ev: Event)
    requires Coherent(s)
    ensures Coherent(Apply(s, ev))
  {
    match ev
    case Frame(g) => TickKeepsValid(s, g); TickEndsGame(s, g);
    case SpawnTimerFires =>
    case Click(captured) =>
    case RestartClicked =>
    case Choose(level) =>
    case KeyDown(k) =>
    case KeyUp(k) =>
  }

  /** Every session reachable from the page load is coherent: in particular
      the population of a running game never exceeds its tier's cap. */
  lemma {:induction false} RunKeepsCoherent(s: Session, evs: seq<Event>)
    requires Coherent(s)
    ensures Coherent(Run(s, evs))
    decreases |evs|
  {
    if |evs| > 0 {
      ApplyKeepsCoherent(s, evs[0]);
      RunKeepsCoherent(Apply(s, evs[0]), evs[1..]);
    }
  }

  /** A game ending and being replayed: 20 damage at 10 health ends the
      game with the score kept; restart and a Hard selection then give a
      fresh board with the Hard spawn period and cap. */
  lemma ReplayOnHard(s: Session)
    requires s.score == 450 && s.health == 10 && !s.isGameOver
    ensures var over := TakeDamage(s, ContactDamage);
            && over.isGameOver && over.score == 450 && over.health == -10
            && var again := Apply(Apply(over, RestartClicked), Choose(Hard));
            && again.score == 0 && again.health == StartHealth && !again.isGameOver
            && again.gameStarted && again.enemies == [] && again.bullets == []
            && again.spawnTimer == Some(2000) && MaxEnemies(again.difficulty) == 15
  {
  }
}
