# fps-game session core in Dafny

This project models the simulation core of a browser first-person arena
shooter (`logic.js`): the difficulty table, the session state the script
keeps in module-level variables, and the operations that change it.

The session is one immutable `Session` record, and each operation is a
pure function on it:

- damage, game over, score and enemy removal;
- restart and difficulty selection;
- enemy spawning under the tier's cap, and firing;
- one tick of movement with the arena bounds check;
- one tick of bullet travel and hits;
- one tick of enemy contact.

`Simulation` puts these together. `animate` becomes `Tick`, which runs
the three updates exactly as the code has them. `TickIntended` runs the
corrected updates. The page's events (frames, spawn-timer firings, clicks,
the restart and difficulty buttons, key presses and releases) become
`Apply` and `Run`. A reachable-state invariant `Coherent` is proved to
hold across any sequence of events.

Geometry is an input, not a computation. A frame carries four things:

- the yaw-rotated forward vector;
- which bullet touches which enemy (`hits`);
- which bullet has flown out of range (`far`);
- which enemy ends its pursuit step within 1.5 units of the player (`contact`).

The script finds enemies with `indexOf`, which compares object
references. That identity is an explicit `id`, handed out from a counter.

Modules, one per file:

| file | module | covers |
|---|---|---|
| difficulty.dfy | `Difficulty` | `DIFFICULTY_SETTINGS` |
| entities.dfy | `Entities` | value records, `removeEnemy`, `splice` |
| session.dfy | `GameSession` | state, `takeDamage`, `gameOver`, `increaseScore`, `restartGame`, `setDifficulty`, `spawnEnemy`, `shoot` |
| movement.dfy | `Movement` | `updateMovement`, `onKeyDown`, `onKeyUp` |
| projectiles.dfy | `Projectiles` | `updateBullets` |
| enemies.dfy | `EnemyAI` | `updateEnemies` (contact path) |
| simulation.dfy | `Simulation` | `animate`, event handling, reachable-state invariant |

The bodies of the bullet loop, the enemy loop and the movement velocity
contain three defects (see "## Findings"). For each one the model holds
two definitions:

- an as-written version, which `Tick` uses, with a lemma exhibiting the
  discrepancy and lemmas relating it to the corrected version;
- a corrected version, which `TickIntended` uses.

## Model

| member | source | states |
|---|---|---|
| Difficulty.SettingsOf | logic.js:8-24 | every tier has a positive enemy speed, a positive spawn period and a positive cap |
| Difficulty.DifficultyTable | logic.js:8-24 | Easy is 0.02 / 4000 ms / 8 enemies, Medium 0.04 / 3000 / 12, Hard 0.06 / 2000 / 15 |
| Difficulty.HarderTierIsStricter | logic.js:8-24 | a harder tier has a strictly larger cap, a strictly shorter spawn period and strictly faster enemies |
| GameSession.Initial | logic.js:29-35 | at page load: score 0, health 100, not over, not started, medium tier, no timer, no enemies or bullets |
| GameSession.GameOver | logic.js:487-493 | sets the over flag, clears the started flag, cancels the spawn timer, changes nothing else |
| GameSession.TakeDamage | logic.js:456-463 | health drops by the amount; the game ends iff it was already over or health is now at or below 0; the timer stops iff health is at or below 0; nothing else changes |
| GameSession.TakeDamageAdds | logic.js:456-463 | two non-negative hits in a row have the same effect as one hit of their sum |
| GameSession.IncreaseScore | logic.js:472-475 | the score rises by exactly the amount; nothing else changes |
| GameSession.Despawn | logic.js:478-484 | an absent enemy leaves the session unchanged; a present one shortens the list by one; the result is a sub-multiset; only the list changes |
| Entities.IndexOf | logic.js:479 | -1 iff no element has the identity; otherwise a position holding it with no earlier one |
| Entities.RemoveEnemy | logic.js:478-484 | an absent identity leaves the list unchanged; a present one removes exactly one element; the result is a sub-multiset |
| Entities.RemoveEnemyIsRemoveFirst | logic.js:478-484 | the `indexOf` + `splice` removal equals the recursive "drop the first match" reference definition on every list |
| Entities.RemoveEnemyFirstOccurrence | logic.js:478-484 | when position k holds the first occurrence, removal keeps the prefix before k and the suffix after it, in order |
| Entities.RemoveEnemyAt | logic.js:478-484 | with distinct identities, removing the enemy at position k removes exactly position k |
| Entities.RemoveEnemyKeepsOthers | logic.js:478-484 | removal by one identity keeps every enemy with another identity |
| Entities.RemoveEnemyKeepsUnique | logic.js:478-484 | removal keeps identities distinct |
| Entities.Splice | logic.js:283 | `splice(i, 1)` within range removes position i and keeps the prefix and shifted suffix; past the end it changes nothing |
| GameSession.Restart | logic.js:533-563 | score 0, health 100, not over, not started, both lists empty, player at (0,1,0), aim level, flags released; tier, timer and identity counter kept; result is valid |
| GameSession.RestartIdempotent | logic.js:533-563 | restarting twice has the same effect as restarting once |
| GameSession.SetDifficulty | logic.js:571-591 | ignored once a game is started; otherwise records the tier, starts the game and the tier's spawn period, and puts the player at the start facing yaw 0; score, health and lists are untouched |
| GameSession.FirstSelectionWins | logic.js:571-572 | a second selection after the first has no effect |
| GameSession.Spawn | logic.js:302-325 | blocked when over or at the cap; otherwise appends one fresh 100-health enemy with a hidden bar; never takes the population past the cap; preserves validity |
| GameSession.SpawnSaturates | logic.js:302-303 | n firings in a running game give min(count + n, cap) enemies |
| GameSession.Fire | logic.js:245-269 | no effect when over or without pointer lock; otherwise appends one fresh bullet; preserves validity |
| Movement.Press | logic.js:226-242 | a W, S, A or D event sets its own flag to down or up and leaves the other three flags; any other key changes nothing |
| Movement.HeldDetermines | logic.js:38-42 | the four flags are the whole movement state: equal flags mean equal controls |
| Movement.ReleaseAll | logic.js:235-242 | releasing W, S, A and D from any state leaves no flag held |
| Movement.PressCommutes | logic.js:226-242 | events on two different keys have the same effect in either order |
| Movement.Velocity | logic.js:376-384 | vertical component 0; no flag held gives zero velocity; opposing flags cancel |
| Movement.VelocityAsWritten | logic.js:381-384 | vertical component 0; no flag held gives zero velocity |
| Movement.VelocityAsWrittenAgrees | logic.js:381-384 | the as-written and corrected velocities agree whenever no pair of opposing flags is held |
| Movement.OpposingKeysDoNotCancel | logic.js:381-382 | forward plus backward gives 0.16 times the forward vector as written, and zero in the corrected version |
| Movement.SideOnly | logic.js:383-384 | `moveLeft` (key D) alone moves 0.2 along (-forward.z, 0, forward.x) and `moveRight` (key A) alone moves 0.2 the opposite way |
| Movement.SideKeysMatchScreen | logic.js:226-242 | at yaw 0, pressing D from rest moves +0.2 in x (screen right) and pressing A moves -0.2, although D sets the flag named `moveLeft` |
| Movement.Step | logic.js:387-391 | a step landing strictly inside the 49-unit square is taken whole, any other step is dropped whole, and a player inside stays inside |
| Movement.UpdateMovement | logic.js:367-392 | as written: only the position changes; with no flag held it does not; the arena invariant is kept |
| Movement.UpdateMovementIntended | logic.js:367-392 | corrected: only the position changes; with each opposing pair of flags equal it does not; the arena invariant is kept |
| Movement.UpdateMovementAgrees | logic.js:381-384 | the two movement updates coincide whenever no opposing pair of flags is held |
| Movement.StandingStill | logic.js:376-391 | with no flag held the position is unchanged wherever the player stands |
| Movement.ForwardOnly | logic.js:381 | forward alone moves 0.2 along the forward vector |
| Movement.ForwardFromStart | logic.js:228 | after W is pressed from rest, one frame at yaw 0 takes the player from (0,1,0) to (0,1,-0.2) |
| Projectiles.FirstHit | logic.js:278-289 | reports the first enemy in list order that the bullet touches, or none when it touches none |
| Projectiles.Wound | logic.js:280-281 | a hit takes 34 health and shows the bar, keeping the identity |
| Projectiles.ApplyHit | logic.js:278-290 | at or below 0 health the enemy is removed and the score gains 100; otherwise it is wounded in place; score gained is 100 per enemy removed |
| Projectiles.KillRemovesTarget | logic.js:285-288 | a killing hit removes exactly the enemy hit, keeping the others in order |
| Projectiles.ApplyHitKeepsUnique | logic.js:278-290 | a hit keeps enemy identities distinct |
| Projectiles.ThirdHitKills | logic.js:280-288 | a fresh enemy goes to 66, then 32, then is removed with +100 score on the third hit |
| Projectiles.BulletStep | logic.js:273-298 | corrected step: a bullet that hits or is out of range is spliced out once, any other is kept; no hit leaves enemies and score alone; score gained is 100 per enemy removed; identities stay distinct |
| Projectiles.BulletStepWounds | logic.js:278-283 | a bullet whose first hit leaves that enemy above 0 wounds exactly that enemy and scores nothing |
| Projectiles.BulletStepKills | logic.js:278-288 | with distinct identities, a bullet whose first hit brings that enemy to 0 or below removes exactly that enemy, keeping the others in order, for 100 points |
| Projectiles.SweepFrom | logic.js:273-298 | the loop from index n-1 down to 0: 100 score per enemy removed; enemies and bullets only leave; identities stay distinct; every bullet left either sat past index n-1 or is in range |
| Projectiles.UpdateBullets | logic.js:272-299 | corrected tick: score never drops and rises 100 per enemy removed; enemies only leave; bullets only leave; nothing else changes |
| Projectiles.UpdateBulletsSurvivors | logic.js:272-299 | every bullet left was there before and is in range; every in-range bullet that touches no enemy survives |
| Projectiles.SweepKeepsTail | logic.js:273-298 | the sweep never removes a bullet it has not reached |
| Projectiles.SweepKeepsMisses | logic.js:278-297 | every processed in-range bullet that touches no enemy survives |
| Projectiles.UpdateBulletsKeepsValid | logic.js:272-299 | the bullet tick keeps identities distinct and below the counter |
| Projectiles.BulletStepAsWritten | logic.js:274-298 | the code's step leaves bullets before index i alone; what sits from i on came from after i or is bullet i kept in range; enemies and score are those of the corrected step |
| Projectiles.SweepFromAsWritten | logic.js:273-298 | the code's loop from index n-1 down: 100 score per enemy removed; enemies and bullets only leave; every bullet left either sat past index n-1 or is in range |
| Projectiles.UpdateBulletsAsWritten | logic.js:272-299 | the code's tick never lowers the score and gains 100 per enemy removed; enemies and bullets only leave; nothing else changes |
| Projectiles.SweepAsWrittenAgrees | logic.js:273-298 | from sessions that differ only past index n, the code's loop and the corrected loop leave the same enemies and score |
| Projectiles.UpdateBulletsAsWrittenAgrees | logic.js:272-299 | the code's bullet tick leaves the same enemies and score as the corrected one; the defect touches only bullets |
| Projectiles.UpdateBulletsAsWrittenSurvivors | logic.js:272-299 | after the code's bullet tick every bullet left was there before and is in range |
| Projectiles.UpdateBulletsAsWrittenKeepsValid | logic.js:272-299 | the code's bullet tick keeps identities distinct and below the counter |
| Projectiles.HitOutOfRangeDropsNeighbour | logic.js:279-297 | a bullet that hits and is out of range in the same tick makes the code also delete its in-range neighbour; the corrected tick keeps it |
| EnemyAI.Strike | logic.js:439-442 | a contact costs 20 health and removes that enemy; the game ends iff it was over or health is now at or below 0 |
| EnemyAI.Pursue | logic.js:416-442 | corrected loop: health drops 20 per contact; no contact changes nothing; a fatal contact ends the game and stops the timer; enemies only leave |
| EnemyAI.UpdateEnemies | logic.js:413-452 | corrected tick: health drops 20 per enemy in contact; the game ends iff a contact brings health to 0 or below; score and bullets are untouched |
| EnemyAI.CullShrinks | logic.js:416-442 | the enemy list the corrected loop leaves (`Cull`) is a sub-multiset of the list it started from |
| EnemyAI.CullCount | logic.js:416-442 | while every identity still to visit is held at least as often in the list, the corrected loop removes exactly one enemy per contact |
| EnemyAI.UpdateEnemiesCount | logic.js:416-442 | on every list, repeated identities included, the corrected tick removes exactly as many enemies as are in contact |
| EnemyAI.CullRemovesContacts | logic.js:416-442 | with distinct identities, the loop removes exactly the enemies in contact, keeping the others in order |
| EnemyAI.UpdateEnemiesRemovesContacts | logic.js:416-442 | the enemies left are exactly those not in contact, in order, and the health lost is 20 per enemy removed |
| EnemyAI.UpdateEnemiesKeepsValid | logic.js:416-442 | the contact tick keeps identities distinct and below the counter |
| EnemyAI.ForEachFrom | logic.js:416-442 | the code's loop loses 20 health per enemy removed, never lengthens the list, and changes nothing when it removes nobody |
| EnemyAI.UpdateEnemiesAsWritten | logic.js:413-452 | the code's tick loses 20 health per enemy removed; the game ends iff it was over or an enemy is removed with health now at or below 0; score and bullets untouched |
| EnemyAI.ForEachKeepsNonContacts | logic.js:416-442 | the code's loop never removes an enemy that does not reach the player |
| EnemyAI.ForEachKeepsUnique | logic.js:416-442 | the code's loop keeps identities distinct |
| EnemyAI.UpdateEnemiesAsWrittenKeepsMore | logic.js:416-442 | every enemy the corrected loop keeps, the code's loop keeps too |
| EnemyAI.UpdateEnemiesAsWrittenKeepsValid | logic.js:413-452 | the code's contact tick keeps identities distinct and below the counter |
| EnemyAI.ForEachSkipsNeighbour | logic.js:416-442 | two adjacent enemies in contact: the code removes one and deals 20; the corrected loop removes both and deals 40 |
| EnemyAI.DamageAfterGameOverAsWritten | logic.js:416-442 | at 20 health, two contacts separated by a bystander: the code's loop strikes again after the first contact ended the game, leaving health at -20 and only the bystander |
| EnemyAI.DamageAfterGameOver | logic.js:439-442 | in the corrected loop too, at 20 health two contacts leave health at -20 with the game over: `takeDamage` ending the game does not stop the loop |
| Simulation.Tick | logic.js:353-364 | one frame as the code runs it: a finished game does not change; otherwise the enemy count never grows, bullets only leave, the arena invariant holds, and tier, counter and flags are kept |
| Simulation.TickEnemiesOnlyLeave | logic.js:353-364 | a frame as the code runs it brings in no enemy: every enemy left after it was on the board before |
| Simulation.TickIntended | logic.js:353-364 | the same frame from the corrected updates, with the same guarantees |
| Simulation.TickIntendedEnemiesOnlyLeave | logic.js:353-364 | the corrected frame brings in no enemy: every enemy left after it was on the board before |
| Simulation.TickAccounting | logic.js:353-364 | in a frame as the code runs it, the score gain is 100 per kill (lines 285-288), the health loss 20 per contact hit (lines 439-441), and kills plus hits is exactly the number of enemies that left |
| Simulation.TickIntendedAccounting | logic.js:353-364 | the same accounting for the corrected frame: 100 per kill, 20 per contact hit, and kills plus hits equal the enemies that left |
| Simulation.TickEndsGame | logic.js:456-463 | a frame of a running game ends it iff health falls to 0 or below; ending stops the timer and clears the started flag; otherwise both are kept |
| Simulation.TickIntendedEndsGame | logic.js:456-463 | the same for the corrected frame |
| Simulation.TickKeepsValid | logic.js:353-364 | a frame as the code runs it keeps identities distinct and below the counter |
| Simulation.TickIntendedKeepsValid | logic.js:353-364 | the corrected frame keeps identities distinct and below the counter |
| Simulation.Apply | logic.js:353-358 | the identity counter never goes back; once the game is over, every event but restart changes at most the movement flags; only key events and restart change the flags |
| Simulation.Run | logic.js:353-358 | over any event sequence the counter never goes back; a finished game with no restart in the sequence keeps everything but the movement flags |
| Simulation.InitialCoherent | logic.js:29-35 | the page-load state satisfies the reachable-state invariant |
| Simulation.ApplyKeepsCoherent | logic.js:571-591 | every event (frame, timer, click, restart, selection, key) preserves the reachable-state invariant; in particular a frame that brings health to 0 ends the game |
| Simulation.RunKeepsCoherent | logic.js:302-303 | the invariant holds after any event sequence: identities distinct, a finished game has no timer, a running game never exceeds its tier's cap and has health above 0, and the player stays inside the arena |
| Simulation.ReplayOnHard | logic.js:504-591 | score 450 and health 10, then 20 damage: game over with 450; restart and Hard give score 0, health 100, empty board, 2000 ms period and cap 15 |

## Left out

- Rendering, meshes, lights, walls, the camera (`updateCamera`) and the HUD text are not modelled. They are presentation only.
- Pointer lock is not modelled. It appears only as the `captured` flag of `Fire`.
- Mouse look (`onMouseMove`, logic.js:210-223) is not modelled. The yaw it steers feeds the forward vector, which is an input to each frame; the pitch feeds only bullet flight and the camera.
- The session's `aim` record (yaw, pitch and their targets) is reset by `Restart` and `SetDifficulty` as the code resets them, but no operation reads it and frames leave it unchanged, whereas `updateMovement` turns `player.rotation.y` every frame (logic.js:369). The yaw reaches movement only through the forward vector each frame carries, and nothing ties that vector to `aim`.
- Yaw and pitch smoothing and the trigonometry of the forward vector are not modelled. The forward vector is an input to each frame.
- Bullet flight, including the per-frame compounding of `direction.multiplyScalar` at line 275, is left out. It is geometry; `hits` and `far` stand for its outcome.
- Enemy pursuit, the random spawn position, the health-bar colour and the proximity blink are left out. They are geometry or cosmetics; `contact` stands for the pursuit outcome.
- Floating point is not modelled. Positions, velocities and the arena bounds are exact reals, where JavaScript uses doubles; `Step`, `ForwardOnly`, `ForwardFromStart`, `SideOnly` and `SideKeysMatchScreen` state exact-arithmetic results that the doubles match only up to rounding (0.2 is not a double).
- Timers are not modelled as clocks. `setInterval` is the `spawnTimer` period plus `SpawnTimerFires` events, and `requestAnimationFrame` is `Frame` events.
- The extra animation loop that each `init` call starts is not modelled. Every frame event stands for one pass of `animate`.
- Simulation.Apply admits frame, click and key events before the first difficulty selection, although no animation loop runs and no click or key handler is registered before `init` (logic.js:95, 194-206, 584). So the model lets a click with the pointer captured put a bullet in play on the selection screen, lets key events set the movement flags there, and lets frames then move the player and sweep that bullet; the code does none of this. No enemy can appear before the first selection (`Coherent`).
- Key events change the movement flags whatever the state of the game, as `onKeyDown` and `onKeyUp` do (logic.js:226-242); only `restartGame` clears them (logic.js:560-563).
- `setDifficulty` with a level name outside the table cannot be expressed, because `SetDifficulty` takes a `Tier`.
- The restart and difficulty buttons are not modelled as page elements. The page markup is not part of this model. `Apply` assumes the restart button is active only on the game-over screen. It assumes the difficulty buttons are active only while no game is over; that screen exists at load and after a restart.
- A reset on difficulty selection is not modelled, because `setDifficulty` does none: it does not touch score, health or the lists (logic.js:571-590); only `restartGame` resets them (logic.js:533-546). `SetDifficulty` states they are untouched.
- A stop to damage at game over is not modelled, because the code has none: `takeDamage` ends the game (logic.js:460-462) but the `forEach` in `updateEnemies` goes on, so a later contact in the same frame deals 20 more (`EnemyAI.DamageAfterGameOverAsWritten`).

## Findings

| source | as written | input that shows it | evidently intended | confidence | as-written member | corrected member |
|---|---|---|---|---|---|---|
| logic.js:279-297 | after a hit splices bullet i, the range check reads the same bullet and splices index i again | bullets [b0, b1]; b0 hits an enemy and is out of range; b1 misses and is in range | each bullet is removed at most once, so b1 survives | not executed | Projectiles.HitOutOfRangeDropsNeighbour | Projectiles.UpdateBulletsSurvivors |
| logic.js:416-442 | `forEach` over the live array while `removeEnemy` splices it shifts the next enemy into the index just visited | enemies [a, b], both within 1.5 units of the player | every enemy is checked once: both removed, 40 damage | not executed | EnemyAI.ForEachSkipsNeighbour | EnemyAI.UpdateEnemiesRemovesContacts |
| logic.js:381-384 | `multiplyScalar` scales `forward` and `right` in place, so the second key of a pair adds a vector already scaled by 0.2 | forward and backward held together | the keys cancel and the player stands still | not executed | Movement.OpposingKeysDoNotCancel | Movement.UpdateMovementIntended |
