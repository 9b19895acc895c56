/** The game session the browser game keeps in module-level variables, made
    one immutable record, and the state-machine transitions over it:
    damage and game over, restart, difficulty selection, spawning, firing. */
module GameSession {
  import opened Entities
  import opened Difficulty

  const StartHealth: int := 100
  const EnemyHealth: int := 100
  const KillScore: int := 100

  /** Where `createPlayer` and `restartGame` put the player. */
  const PlayerStart: Vec3 := Vec3(0.0, 1.0, 0.0)

  /** `spawnTimer` is the period of the running spawn interval, if one runs;
      `nextId` is the identity the next created enemy or bullet receives. */
  datatype Session = Session(
    score: int,
    health: int,
    isGameOver: bool,
    gameStarted: bool,
    difficulty: Tier,
    spawnTimer: Option<nat>,
    enemies: seq<Enemy>,
    bullets: seq<Bullet>,
    player: Vec3,
    aim: Aim,
    controls: Controls,
    nextId: nat)

  /** The values the script's globals hold when the page loads. */
  function Initial(): (s: Session)
    ensures s.score == 0 && s.health == StartHealth
    ensures !s.isGameOver && !s.gameStarted && s.difficulty == Medium
    ensures s.enemies == [] && s.bullets == [] && s.spawnTimer == None
  {
    Session(0, StartHealth, false, false, Medium, None, [], [], PlayerStart, Level, Released, 0)
  }

  /** Every live object has a distinct identity handed out before `nextId`. */
  predicate Valid(s: Session)
  {
    && UniqueIds(s.enemies)
    && UniqueBullets(s.bullets)
    && (forall e | e in s.enemies :: e.id < s.nextId)
    && (forall b | b in s.bullets :: b.id < s.nextId)
  }

  /** `gameOver`: freeze the session and cancel the spawn timer. */
  function GameOver(s: Session): (r: Session)
    ensures r.isGameOver && !r.gameStarted && r.spawnTimer == None
    ensures r == s.(isGameOver := true, gameStarted := false, spawnTimer := None)
  {
    s.(isGameOver := true, gameStarted := false, spawnTimer := None)
  }

  /** `takeDamage`: the game ends the moment health reaches zero or below;
      nothing stops a session that is already over from taking more. */
  function TakeDamage(s: Session, amount: int): (r: Session)
    ensures r.health == s.health - amount
    ensures r.isGameOver <==> s.isGameOver || r.health <= 0
    ensures !s.isGameOver ==> (r.isGameOver <==> r.health <= 0)
    ensures r.gameStarted <==> s.gameStarted && r.health > 0
    ensures r.spawnTimer == (if r.health <= 0 then None else s.spawnTimer)
    ensures r.score == s.score && r.enemies == s.enemies && r.bullets == s.bullets
    ensures r == s.(health := r.health, isGameOver := r.isGameOver,
                    gameStarted := r.gameStarted, spawnTimer := r.spawnTimer)
  {
    var hurt := s.(health := s.health - amount);
    if hurt.health <= 0 then GameOver(hurt) else hurt
  }

  /** Two hits of non-negative damage end the game exactly when one hit of
      their sum would. */
  lemma TakeDamageAdds(s: Session, a: int, b: int)
    requires b >= 0
    ensures TakeDamage(TakeDamage(s, a), b) == TakeDamage(s, a + b)
  {
  }

  /** `increaseScore`. */
  function IncreaseScore(s: Session, amount: int): (r: Session)
    ensures r.score - s.score == amount
    ensures r == s.(score := r.score)
  {
    s.(score := s.score + amount)
  }

  /** `removeEnemy` applied to the session's list. */
  function Despawn(s: Session, id: nat): (r: Session)
    ensures (forall e | e in s.enemies :: e.id != id) ==> r == s
    ensures (exists j | 0 <= j < |s.enemies| :: s.enemies[j].id == id) ==> |r.enemies| == |s.enemies| - 1
    ensures multiset(r.enemies) <= multiset(s.enemies)
    ensures r == s.(enemies := r.enemies)
  {
    s.(enemies := RemoveEnemy(s.enemies, id))
  }

  /** `restartGame`: back to the difficulty prompt with a fresh board. The
      difficulty, the spawn timer and the identity counter are not touched. */
  function Restart(s: Session): (r: Session)
    ensures r.score == 0 && r.health == StartHealth
    ensures !r.isGameOver && !r.gameStarted
    ensures r.enemies == [] && r.bullets == []
    ensures r.player == PlayerStart && r.aim == Level && r.controls == Released
    ensures r.difficulty == s.difficulty && r.spawnTimer == s.spawnTimer && r.nextId == s.nextId
    ensures Valid(r)
  {
    s.(score := 0, health := StartHealth, isGameOver := false, gameStarted := false,
       enemies := [], bullets := [], player := PlayerStart, aim := Level, controls := Released)
  }

  lemma RestartIdempotent(s: Session)
    ensures Restart(Restart(s)) == Restart(s)
  {
  }

  /** `setDifficulty`: ignored once a game is started; otherwise it records
      the tier, starts the tier's spawn interval and (through `init`)
      re-creates the player at the start position facing forward. It does
      not reset score, health or the entity lists. */
  function SetDifficulty(s: Session, level: Tier): (r: Session)
    ensures s.gameStarted ==> r == s
    ensures !s.gameStarted ==> r.gameStarted && r.difficulty == level
    ensures !s.gameStarted ==> r.spawnTimer == Some(SettingsOf(level).spawnInterval)
    ensures !s.gameStarted ==> r.player == PlayerStart && r.aim.yaw == 0.0
    ensures r.score == s.score && r.health == s.health && r.isGameOver == s.isGameOver
    ensures r.enemies == s.enemies && r.bullets == s.bullets && r.nextId == s.nextId
  {
    if s.gameStarted then s
    else
      s.(difficulty := level, gameStarted := true,
         spawnTimer := Some(SettingsOf(level).spawnInterval),
         player := PlayerStart, aim := s.aim.(yaw := 0.0))
  }

  /** Only the first selection of a game takes effect. */
  lemma FirstSelectionWins(s: Session, a: Tier, b: Tier)
    ensures SetDifficulty(SetDifficulty(s, a), b) == SetDifficulty(s, a)
  {
  }

  /** True when `spawnEnemy` returns without spawning. */
  predicate SpawnBlocked(s: Session)
  {
    s.isGameOver || |s.enemies| >= MaxEnemies(s.difficulty)
  }

  /** `spawnEnemy`: one new full-health enemy with a hidden bar, unless the
      game is over or the tier's cap is reached. Spawning never takes the
      population past the cap. */
  function Spawn(s: Session): (r: Session)
    ensures SpawnBlocked(s) ==> r == s
    ensures !SpawnBlocked(s) ==>
              && r.enemies == s.enemies + [Enemy(s.nextId, EnemyHealth, false)]
              && r == s.(enemies := r.enemies, nextId := s.nextId + 1)
    ensures |s.enemies| <= MaxEnemies(s.difficulty) ==> |r.enemies| <= MaxEnemies(r.difficulty)
    ensures Valid(s) ==> Valid(r)
  {
    if SpawnBlocked(s) then s
    else
      s.(enemies := s.enemies + [Enemy(s.nextId, EnemyHealth, false)], nextId := s.nextId + 1)
  }

  /** The spawn timer firing `n` times in a row. */
  function SpawnTimes(s: Session, n: nat): Session
    decreases n
  {
    if n == 0 then s else SpawnTimes(Spawn(s), n - 1)
  }

  /** In a running game the population climbs by one per timer tick until
      it reaches the tier's cap and then stays there. */
  lemma {:induction false} SpawnSaturates(s: Session, n: nat)
    requires !s.isGameOver && |s.enemies| <= MaxEnemies(s.difficulty)
    ensures |SpawnTimes(s, n).enemies| ==
              if |s.enemies| + n <= MaxEnemies(s.difficulty) then |s.enemies| + n
              else MaxEnemies(s.difficulty)
    decreases n
  {
    if n > 0 {
      SpawnSaturates(Spawn(s), n - 1);
    }
  }

  /** `shoot`: with the pointer captured and the game running, one bullet
      leaves the gun; otherwise nothing happens. */
  function Fire(s: Session, captured: bool): (r: Session)
    ensures s.isGameOver || !captured ==> r == s
    ensures !s.isGameOver && captured ==>
              && r.bullets == s.bullets + [Bullet(s.nextId)]
              && r == s.(bullets := r.bullets, nextId := s.nextId + 1)
    ensures Valid(s) ==> Valid(r)
  {
    if s.isGameOver || !captured then s
    else s.(bullets := s.bullets + [Bullet(s.nextId)], nextId := s.nextId + 1)
  }
}
