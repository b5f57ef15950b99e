# Space Invaders clone: a verified model of the simulation core

This project models the simulation core of a Space Invaders clone written in C with raylib:

- `lib/entity.c`: the entities and the sentinel-bounded doubly-linked entity container that holds
  the horde, the bullets and the powerups;
- `lib/game.c`: the collision test and sweep, the per-frame movers (ship, horde, boss,
  projectiles), the menu state machine and the frame driver `updateGame`.

It proves properties of that model in Dafny.

The modules follow the program's structure:

| module | file | models |
|---|---|---|
| `Entities` | `entities.dfy` | the `Entity` record and its kind tags, the ship constants, the horde layout, bullet and powerup shapes |
| `EntityLists` | `entity_list.dfy` | the container as the class `EntityList`, and `createHorde` |
| `GameData` | `game_data.dfy` | the enums, `ColdGameData` and `HotGameData` with their initial values, `updateMenu` and `updateGameState` as functions |
| `Simulation` | `simulation.dfy` | `fire`, `updateShip`, `updateHorde`, `updateEnemyShip` and `updateProjectiles` as functions of a snapshot `View` of the game |
| `Collisions` | `collisions.dfy` | `detectCollision`, and the two sweeps of `detectCollisions` as functions over the sequences the lists hold |
| `SpaceInvaders` | `game.dfy` | the `Game` object as a class whose methods update the lists in place, each proved against its function |

How the C program is represented:

- **Pointers.** A container is an arena `nodes: map<Handle, Node>`. A node holds an entity and its
  `next`/`prev` handles. `NoEntity` (-1) plays NULL.
- **The container invariant.** A ghost sequence `Content` lists the content nodes in order.
  `Valid()` states that `[left] + Content + [right]` is a chain:
  - the nodes are distinct and are exactly the allocated ones;
  - `next` and `prev` agree with that order;
  - the two sentinels, and only they, are tagged `ListSentinel`.

  `Items()` is the sequence of entities the content nodes hold.
- **Node operations.** Insertion, unlinking and retagging rewrite the arena in place. The same
  steps happen in C through `generateProjectile`, `killEnemy` and `killProjectile`.
- **The game.** `Game` keeps the three lists as fields together with the two ships, the
  last-alive tracker `hordeLastAlive` and the per-frame data `hot`.
  - `Snapshot()` reads the game into a `View`.
  - Every update method's contract is `Snapshot() == Spec(old(Snapshot()), ...)`, where `Spec`
    is a function of `View`.
  - The properties the source promises are lemmas about those functions.
- **The clock.** `GetTime()` becomes a parameter `now`. Every clock reading in one frame is that
  same `now`; a frame's delta is `now - hot.lastFrameTime`.
- **Random numbers.** `rand()` becomes a stream `rng: nat -> nat` read from a cursor `k`. A method
  that draws returns the advanced cursor, and the `% 100` and `% 100000` reductions are applied as
  in C.
- **Numbers.** `float` and `double` quantities are `real`.

The source's quirks are modelled as written:

- The y test of `detectCollision` uses the other box's width.
- The menu's close arm compares the game state with `QUIT`. This works because `MENU` and `QUIT`
  share the code 0 (`GameData.CodesCollide`).
- RESTART does nothing.
- Neither horde flip clamps the horde to the edge (`Simulation.FlipOvershoots`).
- The boss turns at x = 1920.
- An upward bullet that misses every alien is checked against the boss whether or not the boss is
  active.
- The alien drop roll `dropCheck < 100` always passes.
- `createHorde` writes the last-alive node into its own parameter copy, so `game.hordeLastAlive`
  stays NULL (see Findings).

## Model

| member | source | states |
|---|---|---|
| `Entities.HordeLayout` | lib/entity.c:42-74 | the fresh horde has 55 aliens, and alien i is 32 x 32 at x = offSetX + (i % 11) * 47, y = offSetY + (i / 11) * 52 (`AlienAt`) |
| `Entities.AlienTierByIndex` | lib/entity.c:63-65 | aliens 0-21 (rows 0-1) are TYPE1, 22-32 (row 2) TYPE2, 33-54 (rows 3-4) TYPE3; every alien is an ALIEN of size 32 x 32 |
| `Entities.BulletCentredOn` | lib/entity.c:109-115 | a bullet is tagged BULLET, keeps its direction, is 4 x 32, starts at the given y and is centred on the given x |
| `Entities.PowerupKind` | lib/entity.c:127-131 | the powerup is FAST_MOVE exactly when the draw mod 100 is below 50, and FAST_SHOT exactly otherwise |
| `Entities.PowerupShape` | lib/entity.c:125-132 | a powerup falls (`up` false), is 25 x 25 at x = centre - 12.5 and has the kind of its draw |
| `Entities.PowerupKindBoundary` | lib/entity.c:130-131 | instances of `PowerupKind` at the boundary: draws 49 and 149 give FAST_MOVE; draws 50 and 199 give FAST_SHOT |
| `GameData.CodesCollide` | lib/game.h:9-27 | within each enum, distinct enumerators have distinct codes; the only game state whose code equals QUIT's is MENU |
| `GameData.InitialColdDataIsSane` | lib/game.c:8-36 | the initial tuning has a proper play field and positive speeds, delays and durations; buffed is faster and fires more often than regular |
| `GameData.InitHotGameData` | lib/game.c:38-54 | the game starts in MENU on START, at the given clock reading, with a positive horde speed, the boss sleeping, undefeated and going left, and no powerup active |
| `GameData.MenuAfter` | lib/game.c:376-394 | only the button can change; up or down in MENU, WIN or LOSE changes it, and nothing else does; a button that fits its menu still fits |
| `GameData.MenuToggleTwice` | lib/game.c:376-394 | two toggles of a fitting button give back the original state |
| `GameData.GameStateAfter` | lib/game.c:396-423 | only the state can change. PLAYING goes to MENU on pause. MENU on select goes to PLAYING with START and to CLOSE with any other button. WIN/LOSE go to CLOSE on select with QUIT and otherwise stay. PAUSED and CLOSE never change |
| `GameData.PauseIgnoresSelect` | lib/game.c:397-412 | pause and select pressed together while PLAYING lead to MENU, because the transitions read the state taken on entry |
| `GameData.RestartIsNoOp` | lib/game.c:414-421 | on WIN or LOSE with RESTART selected, the transition leaves the whole state unchanged, as does the menu with no button pressed |
| `GameData.CloseIsFinal` | lib/game.c:376-423 | in CLOSE neither the transition nor the menu changes anything |
| `GameData.TransitionKeepsButtonFitting` | lib/game.c:396-423 | after a transition the selected button is one that the new state's menu offers |
| `EntityLists.SentinelsReachEachOther` | lib/entity.c:31-40 | in a valid chain, following `next` i times from the left sentinel reaches the i-th node and ends at the right sentinel; following `prev` back from the right sentinel reaches the left one |
| `EntityLists.InsertIntoList` | lib/entity.c:93-96 | linking a fresh node after position k keeps the chain valid, puts the node at position k of the content and its entity at position k of the items, and leaves every other node's entity alone |
| `EntityLists.RemoveFromList` | lib/entity.c:99-103 | unlinking the j-th content node keeps the chain valid; the content and items lose exactly their j-th element; every other node stays, with its entity |
| `EntityLists.EntityList.constructor` | lib/entity.c:31-40 | a new container is empty: left.next is right, right.prev is left, and both are tagged LIST_SENTINEL |
| `EntityLists.EntityList.InsertAfter` | lib/entity.c:86-97 | inserting after the k-th node of the chain keeps the list valid, places the new entity at position k and keeps every old node and entity |
| `EntityLists.EntityList.Kill` | lib/entity.c:80-84 | `killEnemy` (and the identical splice `killProjectile`) removes the j-th node: content and items lose exactly that element, every other node keeps its entity, and the container stays valid |
| `EntityLists.EntityList.SetEntity` | lib/game.c:360-364 | writing a node's fields in place replaces exactly that item and keeps the content and all links |
| `EntityLists.EntityList.GenerateProjectile` | lib/entity.c:86-97 | the new node becomes the first content element, the old content follows it unchanged, and it holds the given box and direction |
| `EntityLists.EntityList.RetagFront` | lib/entity.c:114 | setting `list->next->type` changes only the kind of the first item |
| `EntityLists.EntityList.GenerateBullet` | lib/entity.c:109-115 | the list gains a front node holding `BulletEntity(x, y, up)`, and the rest is unchanged |
| `EntityLists.EntityList.GeneratePowerup` | lib/entity.c:125-132 | the list gains a front node holding `PowerupEntity(x, y, draw)`, and the rest is unchanged |
| `EntityLists.EntityList.FreeEntities` | lib/entity.c:138-149 | the loop releases exactly the nodes of the chain from the left sentinel through the right one, in order and each once (two sentinels for an empty list), leaving no node allocated |
| `EntityLists.CreateHorde` | lib/entity.c:42-78 | the new container is valid, holds the layout `HordeLayout()` in index order, and its last node is the one `lastAlive` receives |
| `Simulation.TimerRunsOut` | lib/game.c:223-231 | over frames of non-negative length, a running timer stays on exactly while the frames add up to less than its remaining time, and it then holds that time minus the frames |
| `Simulation.TickTimers` | lib/game.c:223-231 | the fast-shot and fast-move timers each take one independent timer step, and no other field changes |
| `Simulation.ShipX` | lib/game.c:233-263 | with neither left nor right held, the ship does not move |
| `Simulation.ShipStaysInField` | lib/game.c:233-263 | a ship inside [screenLimits[0], screenLimits[1] - width] stays inside after any input and a non-negative step |
| `Simulation.ShipMovesByStep` | lib/game.c:233-263 | away from both limits, the ship moves by +step with right held, by -step with left held, and not at all with both held |
| `Simulation.FireSpec` | lib/game.c:175-198 | the player fires an upward bullet from its top centre exactly when `now - shipLastShotTime` exceeds the delay of its mode, and then records `now`. The boss fires a downward bullet from its bottom centre under the same rule with its own delay. An alien always fires. Nothing else changes |
| `Simulation.ShipSpec` | lib/game.c:216-269 | outside PLAYING the frame does nothing; otherwise only the ship's x, the bullets and the timers change, by at most one bullet, and the state and button are kept |
| `Simulation.ShipSpecX` | lib/game.c:233-263 | the new x is `ShipX` at the speed of the mode that fast move has after the timer step |
| `Simulation.ShipFrame` | lib/game.c:216-263 | with a non-negative delta and speeds, the ship stays in the field, and it moves at the buffed speed exactly when fast move is still on after the timer step |
| `Simulation.ShipFireCooldown` | lib/game.c:175-188 | a fire press adds one upward bullet in front of the others and sets `shipLastShotTime = now` exactly when the delay has passed; otherwise the bullets and the last-shot time stay |
| `Simulation.MaxXIsMaximum` | lib/game.c:279-283 | the scanned maximum bounds every alien's x and is attained by one of them |
| `Simulation.MinXIsMinimum` | lib/game.c:294-298 | the scanned minimum bounds every alien's x from below and is attained by one of them |
| `Simulation.HordeMotion` | lib/game.c:278-307 | without a flip the speed is kept and the displacement is speed * delta; a right flip (positive speed) moves the horde by 2 * speed * delta - screenLimits[1] + maxX + the front alien's width, and a left flip by minX - screenLimits[0] |
| `Simulation.FlipOvershoots` | lib/game.c:285-303 | for a non-empty horde, a right flip puts its right edge at screenLimits[1] plus twice the planned overshoot, so at or past the limit; a left flip of a horde inside the field moves it right by its distance from screenLimits[0], away from that limit |
| `Simulation.FlipReversesAndSpeedsUp` | lib/game.c:285-303 | the horde flips exactly when the planned move reaches the edge in its direction of travel; a flip reverses the direction and adds the increase to the speed's magnitude |
| `Simulation.RightFlipOvershoots` | lib/game.c:286 | an instance of the unclamped right flip: a lone alien at x = 1630 moving at 150 for 0.1 s flips with a displacement of 22, ending past the right limit |
| `Simulation.VolleyPrepends` | lib/game.c:309-311 | the horde's volley adds at most one bullet per alien, all of them downward bullets in front of the old bullets, which stay as they were |
| `Simulation.HordeSpec` | lib/game.c:271-319 | outside PLAYING nothing changes and no number is drawn; otherwise only the aliens, the bullets and the horde speed change, and the horde keeps its size |
| `Simulation.HordeMovesAsBlock` | lib/game.c:309-317 | every alien moves by the same displacement in x and steps down by hordeStepY exactly when the direction flipped, so all distances between aliens are kept; size, kind and tier are kept |
| `Simulation.PatrolStep` | lib/game.c:334-351 | one patrol step changes only the boss's x and the per-frame data |
| `Simulation.BossSpec` | lib/game.c:321-353 | the boss's update changes only its x, the bullets and the per-frame data |
| `Simulation.DefeatedBossIsFrozen` | lib/game.c:321-353 | once defeated, the boss update changes nothing |
| `Simulation.BossAlarmIsTimer` | lib/game.c:322-327 | while dormant and undefeated, the alarm drops by delta and the boss wakes exactly when it reaches zero; nothing else changes |
| `Simulation.BossPatrolsLane` | lib/game.c:328-351 | an active boss inside [screenLimits[0], 1920] stays inside; going left and meeting the limit turns it right; when it goes to sleep it is at 1920, heading left, with the alarm reset to enemyShipSleepTime |
| `Simulation.BossPatrolCases` | lib/game.c:328-351 | for an active, undefeated boss with move = enemyShipSpeed * delta: going right with x + move >= 1920 it ends at 1920, heading left, inactive, with the alarm reset to enemyShipSleepTime; going left with x - move <= screenLimits[0] it ends at that limit heading right; otherwise it moves by +move or -move and keeps its direction, activity and alarm |
| `Simulation.Advance` | lib/game.c:355-374 | a projectile frame keeps no more projectiles than before, and none of those it keeps is off screen |
| `Simulation.AdvanceMembers` | lib/game.c:359-373 | a projectile is kept exactly when it is the moved version of an old one and is not off screen after moving |
| `Simulation.AdvanceAppend` | lib/game.c:359-373 | pruning works node by node: advancing a concatenation advances each part, so survivors keep their relative order |
| `Collisions.SquareOtherIsOverlap` | lib/game.c:442-453 | when the other box is square, the test is the standard inclusive box overlap |
| `Collisions.SelfCollision` | lib/game.c:442-453 | a box of non-negative size collides with itself |
| `Collisions.GrazingBulletMissesShip` | lib/game.c:446 | the width-for-height y bound makes a falling bullet miss the ship when its top is 20 above the ship's top and its body reaches into the ship, although the two boxes overlap |
| `Collisions.FirstHit` | lib/game.c:462-470 | the alien scan stops at the first alien, in list order, that the bullet touches, or at the end when it touches none |
| `Collisions.BulletStep` | lib/game.c:459-519 | one bullet's turn keeps the horde's ids and entities in step and the left sentinel, never rewinds the draw cursor, and after the sweep has stopped only re-appends the bullet |
| `Collisions.BulletPass` | lib/game.c:456-519 | the bullet loop keeps the horde matched and the draw cursor monotone, and once stopped keeps the remaining bullets unvisited |
| `Collisions.PassEndsOrKeepsMenu` | lib/game.c:472-518 | the bullet loop either returns early with WIN or LOSE and RESTART selected, or runs to the end with the state and button it started with |
| `Collisions.AlienHitAlwaysDrops` | lib/game.c:483-490 | an upward bullet that hits the first touched alien, short of the win, removes that alien and the bullet, and always drops a powerup below the alien's centre, drawing two numbers |
| `Collisions.AlienHitWins` | lib/game.c:473-481 | hitting the tracked alien when the left sentinel precedes it gives WIN with RESTART, puts the tracker on the sentinel and stops the sweep with the bullet and the alien still linked |
| `Collisions.AlienHitSurvives` | lib/game.c:472-490 | any other alien hit moves the tracker to the alien's predecessor when it was on that alien, then removes the alien and drops its powerup |
| `Collisions.OtherStep` | lib/game.c:505-517 | a falling bullet that touches the ship gives LOSE with RESTART and stops the sweep; a bullet that touches nothing is kept |
| `Collisions.WinExactly` | lib/game.c:473-481 | a bullet's turn gives WIN exactly when its first hit is the first alien and that alien is the tracked one; the WIN keeps the horde and the bullet and puts the tracker on the left sentinel |
| `Collisions.BossHit` | lib/game.c:491-503 | an upward bullet that misses every alien and touches the boss, active or not, defeats and deactivates it and is removed; a powerup drops below the boss exactly when the roll is below 15 |
| `Collisions.ShipHit` | lib/game.c:507-514 | a falling bullet that touches the ship gives LOSE with RESTART, removes the bullet and stops the sweep with the horde and powerups untouched |
| `Collisions.LoseSkipsPickups` | lib/game.c:514 | once the bullet loop has returned early, the powerup loop does not run |
| `Collisions.PowerupPass` | lib/game.c:521-538 | the powerup loop keeps no more powerups than before, and none of those it keeps touches the ship |
| `Collisions.PickupsExactly` | lib/game.c:521-538 | the kept powerups are exactly the ones not touching the ship, in order; fast shot (fast move) is on after the loop exactly when it was on or a touching powerup of kind FAST_SHOT (any other kind) exists, and then runs for powerupDuration; no other field changes |
| `Collisions.CollisionsSpec` | lib/game.c:455-539 | the sweep keeps the horde matched and its left sentinel, and never rewinds the draw cursor |
| `Collisions.StepKeepsTracking` | lib/game.c:472-490 | a bullet's turn keeps the tracker on the horde's last node, or gives WIN with one alien left and the tracker on the sentinel |
| `Collisions.PassKeepsTracking` | lib/game.c:459-519 | over the whole bullet loop, the tracker stays on the last node unless the loop ends in WIN with exactly one alien left |
| `Collisions.UntrackedNeverWins` | lib/game.c:473-481 | a tracker that names no horde node never wins and never moves |
| `SpaceInvaders.CollisionsView` | lib/game.c:455-539 | the sweep changes only the horde, the tracker, the bullets, the powerups and the per-frame data, keeps ids and aliens in step and never rewinds the cursor |
| `SpaceInvaders.PlayingSpec` | lib/game.c:429-435 | the playing phases keep the horde matched and the left sentinel and never rewind the cursor |
| `SpaceInvaders.BranchSpec` | lib/game.c:429-437 | the phase dispatch keeps the horde matched and the left sentinel and never rewinds the cursor |
| `SpaceInvaders.FrameSpec` | lib/game.c:425-440 | a frame always ends with `lastFrameTime = now`, keeps the horde matched and never rewinds the cursor |
| `SpaceInvaders.IdleFrameFreezesWorld` | lib/game.c:425-440 | when the state after the transition is not PLAYING, a frame draws nothing and changes only the per-frame data, with the menu step applied unless the state is CLOSE |
| `SpaceInvaders.FrameKeepsButtonFitting` | lib/game.c:425-440 | a whole frame keeps the selected button one that the current state's menu offers |
| `SpaceInvaders.UntrackedFrameNeverWins` | lib/game.c:473-481 | as written (tracker NULL), no frame ever reaches WIN and the tracker stays off the horde |
| `SpaceInvaders.TrackedFrame` | lib/game.c:473-481 | with the tracker on the last node, a frame either keeps it there or ends in WIN with exactly one alien left |
| `SpaceInvaders.LastAlienShotWins` | lib/game.c:473-481 | with the tracker set, an upward bullet touching the sole remaining alien wins |
| `SpaceInvaders.TickHot` | lib/game.c:223-231 | the two timer `if`s compute `TickTimers` |
| `SpaceInvaders.FindHit` | lib/game.c:462-470 | the alien scan returns the first touched alien's node, and reports a hit exactly when there is one |
| `SpaceInvaders.AdvanceProjectiles` | lib/game.c:357-373 | the in-place loop that moves, unlinks and steps through the list leaves exactly `Advance` of the old items, and the list stays valid |
| `SpaceInvaders.Game.constructor` | lib/game.c:141-152 | the game starts with the initial ships, the 55-alien layout, empty bullet and powerup lists and the initial data, and, as written, a tracker that names no horde node |
| `SpaceInvaders.Game.WithTracker` | lib/entity.c:75 | the same start with the tracker on the horde's last node, which satisfies the tracking invariant |
| `SpaceInvaders.Game.Fire` | lib/game.c:175-198 | `fire` updates the game as `FireSpec` says |
| `SpaceInvaders.Game.UpdateShip` | lib/game.c:216-269 | `updateShip` updates the game as `ShipSpec` says |
| `SpaceInvaders.Game.MaxPositionX` | lib/game.c:279-283 | the scan loop returns the maximum x of the horde |
| `SpaceInvaders.Game.MinPositionX` | lib/game.c:294-298 | the scan loop returns the minimum x of the horde |
| `SpaceInvaders.Game.PlanMotion` | lib/game.c:278-307 | the edge test computes `HordeMotion` of the current horde and speed |
| `SpaceInvaders.Game.ShiftHorde` | lib/game.c:309-317 | the in-place loop moves every alien as `ShiftAll` says, fires the volley `Volley` and draws one number per alien |
| `SpaceInvaders.Game.UpdateHorde` | lib/game.c:271-319 | `updateHorde` updates the game as `HordeSpec` says |
| `SpaceInvaders.Game.UpdateEnemyShip` | lib/game.c:321-353 | `updateEnemyShip` updates the game as `BossSpec` says |
| `SpaceInvaders.Game.BulletLoop` | lib/game.c:456-519 | the in-place bullet loop leaves the lists, tracker and data that `BulletPass` gives |
| `SpaceInvaders.Game.PowerupLoop` | lib/game.c:521-538 | the in-place powerup loop leaves the data and powerups that `PowerupPass` gives |
| `SpaceInvaders.Game.DetectCollisions` | lib/game.c:455-539 | `detectCollisions` updates the game as `CollisionsView` says |
| `SpaceInvaders.Game.UpdateProjectiles` | lib/game.c:355-374 | `updateProjectiles` leaves `Advance` of the list's old items at the frame's travel |
| `SpaceInvaders.Game.UpdateMenu` | lib/game.c:376-394 | `updateMenu` applies `MenuAfter` and changes nothing else |
| `SpaceInvaders.Game.UpdateGameState` | lib/game.c:396-423 | `updateGameState` applies `GameStateAfter` and changes nothing else |
| `SpaceInvaders.Game.UpdateGame` | lib/game.c:425-440 | `updateGame` updates the game as `FrameSpec` says: the transition, then the collisions, ship, horde, boss, bullets and powerups when PLAYING, otherwise the menu unless CLOSE, then `lastFrameTime = now` |

## Left out

- Rendering (`draw*`), input polling (`processInput`), audio and asset handling, and the window and
  process glue (`initGame`'s window and audio calls, `cleanupGame`, the main loop) are not modelled.
  They are presentation and foreign library calls with no game logic. `Input` is a plain record of
  booleans that the caller supplies.
- `GetTime()` and `rand()` are parameters (`now`, and the stream `rng` with a cursor), not a
  clock and a generator.
- The clock is read once per frame. The C code reads it separately in each phase; the model
  gives every read of one frame the same value.
- Allocation failure is not modelled: `malloc` always yields a fresh handle, and `free` removes
  the key from the arena.
- IEEE float and double rounding, and the float/double conversions between them, are not
  modelled. Every quantity is a `real`.
- `ColdGameData.alienTimePerFrame`, `animationDuration` and the animation timing are not modelled.
  They only serve rendering.
- Fields the C code leaves uninitialised get fixed values:
  - a sentinel's box is the zero box;
  - `alienType` and `up` of entities that never set them are TYPE1 and false;
  - the powerup timers, `input` and `shipActive` start as 0.0, nothing pressed and false.
- `freeHorde`, `freeBullets`, `freePowerups`, `killBullet` and `killPowerup` are one-line wrappers.
  They are modelled by `EntityList.FreeEntities` and `EntityList.Kill`. `freeShip` and
  `freeEnemyShip` only free one object, and the ships are values here.
- `createBulletsList` and `createPowerupsList` are the container constructor.
- `findLastAlive` is only declared in `lib/entity.h`. Its definition is not part of this model.
- `Simulation.ShipX`: its own contract states only the no-input case. The clamping and the
  displacement are stated by `ShipStaysInField` and `ShipMovesByStep`.

## Findings

| source | as written | input that shows it | evidently intended | confidence | as-written member | corrected member |
|---|---|---|---|---|---|---|
| lib/entity.c:75 | `createHorde` assigns the last node to its own parameter `lastAlive`, so `game.hordeLastAlive` (lib/game.c:141-152) stays NULL and the WIN test at lib/game.c:473 never matches a horde node | any game: shooting all 55 aliens empties the horde and the state never becomes WIN | the tracker holds the horde's last node, so shooting the last alien wins | not executed | `SpaceInvaders.Game.constructor`, with `SpaceInvaders.UntrackedFrameNeverWins` | `SpaceInvaders.Game.WithTracker`, with `SpaceInvaders.TrackedFrame` and `SpaceInvaders.LastAlienShotWins` |
