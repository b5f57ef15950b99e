/** The Game object of lib/game.h and the per-frame driver of lib/game.c: the horde, the bullets
    and the powerups as entity lists, the two ships, the last-alive tracker and the per-frame
    data, with every update procedure proved against its function in Simulation, Collisions or
    GameData, and the whole frame (updateGame) against FrameSpec. */
module SpaceInvaders {
  import opened Entities
  import opened EntityLists
  import opened GameData
  import opened Collisions
  import opened Simulation

  // ---- One frame on snapshots ----

  /** The state detectCollisions starts its bullet loop from. */
  function SweepOf(v: View, k: nat): Sweep {
    Sweep(v.aliens, v.hordeIds, v.hordeLeft, v.lastAlive, [], v.powerups, v.hot, k, false)
  }

  /** A snapshot updated with what a sweep changed. */
  function AfterSweep(v: View, s: Sweep): View {
    v.(aliens := s.aliens, hordeIds := s.ids, lastAlive := s.lastAlive, bullets := s.bullets,
       powerups := s.powerups, hot := s.hot)
  }

  /** detectCollisions on a snapshot, with the rand() cursor after it. */
  function CollisionsView(v: View, cold: ColdGameData, rng: nat -> nat, k: nat): (r: (View, nat))
    requires |v.hordeIds| == |v.aliens|
    ensures |r.0.hordeIds| == |r.0.aliens| && r.1 >= k && r.0.hordeLeft == v.hordeLeft
    ensures r.0 == v.(aliens := r.0.aliens, hordeIds := r.0.hordeIds, lastAlive := r.0.lastAlive,
                      bullets := r.0.bullets, powerups := r.0.powerups, hot := r.0.hot)
  {
    var s := CollisionsSpec(SweepOf(v, k), v.bullets, v.ship, v.enemyShip, cold, rng);
    (AfterSweep(v, s), s.k)
  }

  /** updateProjectiles on the bullets, then on the powerups, with one `now` for the frame. */
  function ProjectilesSpec(v: View, cold: ColdGameData, now: real): View {
    var d := Travel(cold.projectileSpeed, v.hot, now);
    v.(bullets := Advance(v.bullets, d), powerups := Advance(v.powerups, d))
  }

  /** The six updates of a PLAYING frame, in updateGame's order. */
  function PlayingSpec(v: View, cold: ColdGameData, now: real, rng: nat -> nat, k: nat): (r: (View, nat))
    requires |v.hordeIds| == |v.aliens|
    ensures r.1 >= k && |r.0.hordeIds| == |r.0.aliens| && r.0.hordeLeft == v.hordeLeft
  {
    var c := CollisionsView(v, cold, rng, k);
    var v3 := ShipSpec(c.0, cold, now);
    var h := HordeSpec(v3, cold, now, rng, c.1);
    var v5 := BossSpec(h.0, cold, now);
    (ProjectilesSpec(v5, cold, now), h.1)
  }

  /** The middle of updateGame, after the state machine: a PLAYING frame, the menu, or nothing
      once CLOSE. */
  function BranchSpec(v: View, cold: ColdGameData, now: real, rng: nat -> nat, k: nat): (r: (View, nat))
    requires |v.hordeIds| == |v.aliens|
    ensures r.1 >= k && |r.0.hordeIds| == |r.0.aliens| && r.0.hordeLeft == v.hordeLeft
  {
    if v.hot.gameState == Playing then PlayingSpec(v, cold, now, rng, k)
    else if v.hot.gameState != Close then (v.(hot := MenuAfter(v.hot)), k)
    else (v, k)
  }

  /** updateGame: the state machine, then either the six updates of a PLAYING frame or the menu
      (unless CLOSE), and finally the frame's clock reading becomes lastFrameTime. */
  function FrameSpec(v: View, cold: ColdGameData, now: real, rng: nat -> nat, k: nat): (r: (View, nat))
    requires |v.hordeIds| == |v.aliens|
    ensures r.0.hot.lastFrameTime == now
    ensures r.1 >= k
    ensures |r.0.hordeIds| == |r.0.aliens| && r.0.hordeLeft == v.hordeLeft
  {
    var r := BranchSpec(v.(hot := GameStateAfter(v.hot)), cold, now, rng, k);
    (r.0.(hot := r.0.hot.(lastFrameTime := now)), r.1)
  }

  /** updateShip, updateHorde and updateEnemyShip leave the game state, the menu selection and
      the horde's nodes alone. */
  lemma ShipKeepsState(v: View, cold: ColdGameData, now: real)
    ensures var r := ShipSpec(v, cold, now);
      r.hot.gameState == v.hot.gameState && r.hot.menuButton == v.hot.menuButton
      && r.hordeIds == v.hordeIds && r.lastAlive == v.lastAlive && r.aliens == v.aliens
  {
  }

  lemma HordeKeepsState(v: View, cold: ColdGameData, now: real, rng: nat -> nat, k: nat)
    ensures var r := HordeSpec(v, cold, now, rng, k).0;
      r.hot.gameState == v.hot.gameState && r.hot.menuButton == v.hot.menuButton
      && r.hordeIds == v.hordeIds && r.lastAlive == v.lastAlive && |r.aliens| == |v.aliens|
      && r.hordeLeft == v.hordeLeft
  {
  }

  lemma BossKeepsState(v: View, cold: ColdGameData, now: real)
    ensures var r := BossSpec(v, cold, now);
      r.hot.gameState == v.hot.gameState && r.hot.menuButton == v.hot.menuButton
      && r.hordeIds == v.hordeIds && r.lastAlive == v.lastAlive && r.aliens == v.aliens
  {
    if v.hot.enemyShipActive && !v.hot.enemyShipDefeated {
      var f := FireSpec(v, v.enemyShip, cold, now);
      assert f.hot.gameState == v.hot.gameState && f.hot.menuButton == v.hot.menuButton;
      var p := PatrolStep(f, cold.enemyShipSpeed * Delta(v.hot, now), cold);
      assert p.hot.gameState == f.hot.gameState && p.hot.menuButton == f.hot.menuButton;
    }
  }

  /** Outside PLAYING no entity moves and rand() is not drawn: the frame only runs the state
      machine and, unless the game is closing, the menu. */
  lemma IdleFrameFreezesWorld(v: View, cold: ColdGameData, now: real, rng: nat -> nat, k: nat)
    requires |v.hordeIds| == |v.aliens| && GameStateAfter(v.hot).gameState != Playing
    ensures var r := FrameSpec(v, cold, now, rng, k);
      && r.1 == k
      && r.0 == v.(hot := r.0.hot)
      && r.0.hot == (if GameStateAfter(v.hot).gameState == Close then GameStateAfter(v.hot)
                     else MenuAfter(GameStateAfter(v.hot))).(lastFrameTime := now)
  {
  }

  /** A frame keeps the menu selection fitting the state it leaves the game in. */
  lemma FrameKeepsButtonFitting(v: View, cold: ColdGameData, now: real, rng: nat -> nat, k: nat)
    requires |v.hordeIds| == |v.aliens| && ButtonFits(v.hot.gameState, v.hot.menuButton)
    ensures var r := FrameSpec(v, cold, now, rng, k).0;
      ButtonFits(r.hot.gameState, r.hot.menuButton)
  {
    TransitionKeepsButtonFitting(v.hot);
    var v1 := v.(hot := GameStateAfter(v.hot));
    if v1.hot.gameState == Playing {
      var s0 := SweepOf(v1, k);
      var s := BulletPass(s0, v1.bullets, v1.ship, v1.enemyShip, rng);
      PassEndsOrKeepsMenu(s0, v1.bullets, v1.ship, v1.enemyShip, rng);
      if !s.stopped {
        PickupsExactly(s.hot, s.powerups, v1.ship, cold);
      }
      var c := CollisionsView(v1, cold, rng, k);
      assert ButtonFits(c.0.hot.gameState, c.0.hot.menuButton);
      PlayingFrameKeeps(v, cold, now, rng, k);
    }
  }

  /** After the collisions of a PLAYING frame, the rest of the frame keeps the horde's handles,
      the tracker, the number of aliens and the state and menu selection. */
  lemma PlayingFrameKeeps(v: View, cold: ColdGameData, now: real, rng: nat -> nat, k: nat)
    requires |v.hordeIds| == |v.aliens| && GameStateAfter(v.hot).gameState == Playing
    ensures var c := CollisionsView(v.(hot := GameStateAfter(v.hot)), cold, rng, k).0;
      var r := FrameSpec(v, cold, now, rng, k).0;
      && r.hordeIds == c.hordeIds && r.lastAlive == c.lastAlive && r.hordeLeft == c.hordeLeft
      && |r.aliens| == |c.aliens| && r.hot.gameState == c.hot.gameState && r.hot.menuButton == c.hot.menuButton
  {
    var v1 := v.(hot := GameStateAfter(v.hot));
    var c := CollisionsView(v1, cold, rng, k);
    var v3 := ShipSpec(c.0, cold, now);
    ShipKeepsState(c.0, cold, now);
    var h := HordeSpec(v3, cold, now, rng, c.1);
    HordeKeepsState(v3, cold, now, rng, c.1);
    var v5 := BossSpec(h.0, cold, now);
    BossKeepsState(h.0, cold, now);
    var v6 := ProjectilesSpec(v5, cold, now);
    assert FrameSpec(v, cold, now, rng, k).0 == v6.(hot := v6.hot.(lastFrameTime := now));
  }

  // ---- The last-alive tracker over whole frames ----

  /** The tracker names the horde's last node (Tracked of the sweep). */
  ghost predicate TrackedView(v: View) {
    Tracked(SweepOf(v, 0))
  }

  /** A horde of distinct nodes, none the left sentinel, whose tracker is on its last node. */
  lemma TrackedStart(v: View)
    requires |v.hordeIds| == |v.aliens| && 0 < |v.hordeIds| && v.lastAlive == v.hordeIds[|v.hordeIds| - 1]
    requires Distinct(v.hordeIds) && v.hordeLeft !in v.hordeIds
    ensures TrackedView(v)
  {
  }

  /** The collision sweep of one frame, for the tracker lemmas. */
  lemma CollisionsKeepTracker(v: View, cold: ColdGameData, rng: nat -> nat, k: nat)
    requires |v.hordeIds| == |v.aliens| && v.hot.gameState != Win
    ensures var s0 := SweepOf(v, k); var c := CollisionsView(v, cold, rng, k).0;
      var s := BulletPass(s0, v.bullets, v.ship, v.enemyShip, rng);
      && c.aliens == s.aliens && c.hordeIds == s.ids && c.lastAlive == s.lastAlive && c.hordeLeft == v.hordeLeft
      && c.hot.gameState == s.hot.gameState
  {
    var s0 := SweepOf(v, k);
    var s := BulletPass(s0, v.bullets, v.ship, v.enemyShip, rng);
    if !s.stopped {
      PickupsExactly(s.hot, s.powerups, v.ship, cold);
    }
  }

  /** As written (the tracker stays NULL, on no node), no frame ever reaches WIN, however many
      aliens are shot: the property is kept from frame to frame. */
  lemma UntrackedFrameNeverWins(v: View, cold: ColdGameData, now: real, rng: nat -> nat, k: nat)
    requires |v.hordeIds| == |v.aliens| && v.lastAlive !in v.hordeIds && v.hot.gameState != Win
    ensures var r := FrameSpec(v, cold, now, rng, k).0;
      r.hot.gameState != Win && r.lastAlive !in r.hordeIds
  {
    var v1 := v.(hot := GameStateAfter(v.hot));
    if v1.hot.gameState == Playing {
      var s0 := SweepOf(v1, k);
      UntrackedNeverWins(s0, v1.bullets, v1.ship, v1.enemyShip, rng);
      CollisionsKeepTracker(v1, cold, rng, k);
      PlayingFrameKeeps(v, cold, now, rng, k);
    }
  }

  /** With the tracker set by createHorde, a frame either keeps it on the horde's last node or
      ends in WIN, which then happens with exactly one alien left (the one just shot, which sits
      first and last): the horde is never emptied before the WIN. */
  lemma TrackedFrame(v: View, cold: ColdGameData, now: real, rng: nat -> nat, k: nat)
    requires TrackedView(v) && v.hot.gameState != Win
    ensures var r := FrameSpec(v, cold, now, rng, k).0;
      if r.hot.gameState == Win then |r.hordeIds| == 1 && r.lastAlive == r.hordeLeft
      else TrackedView(r)
  {
    if GameStateAfter(v.hot).gameState == Playing {
      TrackedPlayingFrame(v, cold, now, rng, k);
    } else {
      IdleFrameFreezesWorld(v, cold, now, rng, k);
      var r := FrameSpec(v, cold, now, rng, k).0;
      assert SweepOf(r, 0) == SweepOf(v, 0).(hot := r.hot);
    }
  }

  /** TrackedFrame for a frame that plays. */
  lemma TrackedPlayingFrame(v: View, cold: ColdGameData, now: real, rng: nat -> nat, k: nat)
    requires TrackedView(v) && v.hot.gameState != Win && GameStateAfter(v.hot).gameState == Playing
    ensures var r := FrameSpec(v, cold, now, rng, k).0;
      if r.hot.gameState == Win then |r.hordeIds| == 1 && r.lastAlive == r.hordeLeft
      else TrackedView(r)
  {
    var v1 := v.(hot := GameStateAfter(v.hot));
    var s0 := SweepOf(v1, k);
    assert Tracked(s0);
    var s := BulletPass(s0, v1.bullets, v1.ship, v1.enemyShip, rng);
    PassKeepsTracking(s0, v1.bullets, v1.ship, v1.enemyShip, rng);
    CollisionsKeepTracker(v1, cold, rng, k);
    PlayingFrameKeeps(v, cold, now, rng, k);
    var r := FrameSpec(v, cold, now, rng, k).0;
    assert r.hordeIds == s.ids && r.lastAlive == s.lastAlive && r.hordeLeft == s.left;
    assert |r.aliens| == |s.aliens| && r.hot.gameState == s.hot.gameState;
    if r.hot.gameState != Win {
      TrackedStart(r);
    }
  }

  /** With the tracker set, shooting the sole remaining alien wins the game. */
  lemma LastAlienShotWins(s: Sweep, b: Entity, ship: Entity, boss: Entity, rng: nat -> nat)
    requires Tracked(s) && !s.stopped && s.hot.gameState != Win
    requires |s.ids| == 1 && b.up && DetectCollision(b, s.aliens[0])
    ensures BulletStep(s, b, ship, boss, rng).hot.gameState == Win
  {
    WinExactly(s, b, ship, boss, rng);
  }

  /** ShipSpec as UpdateShip computes it: the timers, then a move by `step`, then the shot. */
  lemma ShipSpecInSteps(v: View, cold: ColdGameData, now: real, step: real, moved: View)
    requires v.hot.gameState == Playing
    requires step == ShipSpeed(cold, Mode(TickTimers(v.hot, Delta(v.hot, now)).fastMoveActive)) * Delta(v.hot, now)
    requires moved == v.(ship := v.ship.(bounds := v.ship.bounds.(
               x := ShipX(v.ship.bounds.x, v.ship.bounds.width, v.hot.input, step, cold.screenLimits))),
               hot := TickTimers(v.hot, Delta(v.hot, now)))
    ensures ShipSpec(v, cold, now) == if v.hot.input.fire then FireSpec(moved, moved.ship, cold, now) else moved
  {
  }

  /** BossSpec by case, as UpdateEnemyShip branches. */
  lemma BossSpecCases(v: View, cold: ColdGameData, now: real)
    ensures !v.hot.enemyShipDefeated && !v.hot.enemyShipActive ==>
      var alarm := v.hot.remainingTimeEnemyShipAlarm - Delta(v.hot, now);
      BossSpec(v, cold, now) == v.(hot := v.hot.(remainingTimeEnemyShipAlarm := alarm, enemyShipActive := alarm <= 0.0))
    ensures v.hot.enemyShipActive && !v.hot.enemyShipDefeated ==>
      BossSpec(v, cold, now) == PatrolStep(FireSpec(v, v.enemyShip, cold, now), cold.enemyShipSpeed * Delta(v.hot, now), cold)
    ensures v.hot.enemyShipDefeated ==> BossSpec(v, cold, now) == v
  {
  }

  /** HordeSpec as UpdateHorde computes it: the edge test, then the move loop. */
  lemma HordeSpecInSteps(v: View, cold: ColdGameData, now: real, rng: nat -> nat, k: nat,
                         m: HordeMove, v1: View, v2: View)
    requires v.hot.gameState == Playing
    requires m == HordeMotion(v.aliens, v.hot.hordeSpeed, Delta(v.hot, now), cold)
    requires v1 == v.(hot := v.hot.(hordeSpeed := m.speed))
    requires v2 == v1.(aliens := ShiftAll(v1.aliens, m, cold), bullets := Volley(v1.bullets, v1.aliens, rng, k))
    ensures HordeSpec(v, cold, now, rng, k) == (v2, k + |v.aliens|)
  {
  }

  /** PlayingSpec as the sequence of its six updates. */
  lemma PlayingSpecInSteps(v: View, cold: ColdGameData, now: real, rng: nat -> nat, k: nat,
                           c: View, k1: nat, v3: View, v4: View, k4: nat, v5: View, r: View)
    requires |v.hordeIds| == |v.aliens| && (c, k1) == CollisionsView(v, cold, rng, k)
    requires v3 == ShipSpec(c, cold, now) && |v3.hordeIds| == |v3.aliens|
    requires (v4, k4) == HordeSpec(v3, cold, now, rng, k1) && v5 == BossSpec(v4, cold, now)
    requires r == ProjectilesSpec(v5, cold, now)
    ensures (r, k4) == PlayingSpec(v, cold, now, rng, k)
  {
  }

  /** The state of updateProjectiles' loop over the projectiles `es` of `list` before the i-th:
      the first i have moved by `d` (those off screen are gone), and `current`, the q-th content
      node, holds the i-th, or is the right sentinel once all are done. */
  ghost predicate Advancing(list: EntityList, es: seq<Entity>, d: real, i: nat, q: nat, current: Handle)
    reads list
  {
    && list.Valid() && i <= |es|
    && list.Items() == Advance(es[..i], d) + es[i..] && q == |Advance(es[..i], d)|
    && q < |list.Full()| - 1 && current == list.Full()[q + 1] && current in list.nodes
    && (list.nodes[current].ent.kind != ListSentinel <==> i < |es|)
  }

  /** The two powerup timers of updateShip, each counting down while active and switching
      off once it reaches zero. */
  method TickHot(hot: HotGameData, delta: real) returns (h: HotGameData)
    ensures h == TickTimers(hot, delta)
  {
    h := hot;
    if h.fastShotActive {
      h := h.(fastShotRemainingTime := h.fastShotRemainingTime - delta);
      if h.fastShotRemainingTime <= 0.0 {
        h := h.(fastShotActive := false);
      }
    }
    ghost var shot := h;
    if h.fastMoveActive {
      h := h.(fastMoveRemainingTime := h.fastMoveRemainingTime - delta);
      if h.fastMoveRemainingTime <= 0.0 {
        h := h.(fastMoveActive := false);
      }
    }
    assert (shot.fastShotActive, shot.fastShotRemainingTime) == TickTimer(hot.fastShotActive, hot.fastShotRemainingTime, delta);
    assert (h.fastMoveActive, h.fastMoveRemainingTime) == TickTimer(hot.fastMoveActive, hot.fastMoveRemainingTime, delta);
  }

  /** One turn of updateProjectiles' loop at `current`, the q-th content node of `list`, which
      holds the i-th projectile of `es`: the projectile moves by `d` along its direction and is
      killed if it ends off screen. `next` is the node the loop visits next, the q'-th. */
  method ProjectileTurn(list: EntityList, current: Handle, d: real, ghost es: seq<Entity>, ghost i: nat, ghost q: nat)
    returns (next: Handle, ghost q': nat)
    requires Advancing(list, es, d, i, q, current) && i < |es|
    modifies list
    ensures Advancing(list, es, d, i + 1, q', next)
  {
    AdvanceLoopStep(es, i, d, list.Items());
    list.At(q + 1);
    var e := list.nodes[current].ent;
    var moved := if e.up then e.(bounds := e.bounds.(y := e.bounds.y - d))
                 else e.(bounds := e.bounds.(y := e.bounds.y + d));
    assert moved == Moved(es[i], d);
    var at;
    at, q' := StoreOrKill(list, current, moved, q);
    list.At(q');
    next := list.nodes[at].next;
    list.At(q' + 1);
  }

  /** The rest of a turn of updateProjectiles: the moved projectile is stored at `current`, the
      q-th content node, which is then killed if the projectile is off screen; `at` is where the
      loop stands afterwards, the q'-th node. */
  method StoreOrKill(list: EntityList, current: Handle, moved: Entity, ghost q: nat) returns (at: Handle, ghost q': nat)
    requires list.Valid() && q < |list.Content| && current == list.Full()[q + 1] && moved.kind != ListSentinel
    modifies list
    ensures list.Valid() && q' == if OffScreen(moved) then q else q + 1
    ensures list.Items() == if OffScreen(moved) then old(list.Items())[..q] + old(list.Items())[q + 1..]
                            else old(list.Items())[q := moved]
    ensures q' < |list.Full()| - 1 && at == list.Full()[q'] && at in list.nodes
  {
    list.SetEntity(current, q, moved);
    at := current;
    if moved.bounds.y > 1080.0 || moved.bounds.y - moved.bounds.height < 0.0 {
      at := KillAt(list, current, q);
    } else {
      list.At(q + 1);
    }
    q' := if OffScreen(moved) then q else q + 1;
  }

  /** The kill of updateProjectiles: the q-th content node `current` is unlinked, and the loop
      steps back to its predecessor `at`. */
  method KillAt(list: EntityList, current: Handle, ghost q: nat) returns (at: Handle)
    requires list.Valid() && q < |list.Content| && current == list.Full()[q + 1]
    modifies list
    ensures list.Valid() && list.Items() == old(list.Items())[..q] + old(list.Items())[q + 1..]
    ensures q < |list.Full()| - 1 && at == list.Full()[q] && at in list.nodes
  {
    var toKill := current;
    list.At(q + 1);
    at := list.nodes[current].prev;
    assert list.Content[q] == current;
    ghost var F := list.Full();
    list.Kill(toKill, q);
    assert list.Full()[q] == F[q];
    list.At(q);
  }

  /** The inner loop of detectCollisions: the first alien of `horde`, front to back, that the
      bullet `b` collides with (`hit`), its node `enemy` and its index j. */
  method FindHit(horde: EntityList, b: Entity) returns (hit: bool, enemy: Handle, ghost j: nat)
    requires horde.Valid()
    ensures j == FirstHit(b, horde.Items()) && (hit <==> j < |horde.Items()|)
    ensures hit ==> enemy == horde.Content[j] && enemy == horde.Full()[j + 1]
  {
    ghost var A := horde.Items();
    horde.At(0);
    horde.At(1);
    enemy := horde.nodes[horde.left].next;
    j := 0;
    hit := false;
    while horde.nodes[enemy].ent.kind != ListSentinel
      invariant j <= |A| && enemy == horde.Full()[j + 1] && enemy in horde.nodes
      invariant horde.nodes[enemy].ent.kind != ListSentinel <==> j < |A|
      invariant j < |A| ==> horde.nodes[enemy].ent == A[j]
      invariant forall i :: 0 <= i < j ==> !DetectCollision(b, A[i])
      decreases |A| - j
    {
      if DetectCollision(b, horde.nodes[enemy].ent) {
        hit := true;
        break;
      }
      enemy := horde.nodes[enemy].next;
      j := j + 1;
      horde.At(j + 1);
    }
    FirstHitAt(b, A, j);
    if hit {
      horde.At(j + 1);
    }
  }

  /** The loop of updateProjectiles over `list`, every projectile moving by `d`. */
  method AdvanceProjectiles(list: EntityList, d: real)
    requires list.Valid()
    modifies list
    ensures list.Valid() && list.Items() == Advance(old(list.Items()), d)
  {
    ghost var E := list.Items();
    list.At(0);
    var current := list.nodes[list.left].next;
    AdvanceStart(list, d);
    ghost var i: nat := 0;
    ghost var q: nat := 0;
    while list.nodes[current].ent.kind != ListSentinel
      invariant Advancing(list, E, d, i, q, current)
      decreases |E| - i
    {
      current, q := ProjectileTurn(list, current, d, E, i, q);
      i := i + 1;
    }
    AdvanceFinished(list, E, d, i, q, current);
  }

  /** updateProjectiles' loop starts at the front node with nothing moved. */
  lemma AdvanceStart(list: EntityList, d: real)
    requires list.Valid()
    ensures Advancing(list, list.Items(), d, 0, 0, list.Full()[1])
  {
    list.At(0);
    list.At(1);
    ghost var E := list.Items();
    assert E[..0] == [] && E[0..] == E;
  }

  /** updateProjectiles' loop, once it reached the right sentinel, has moved every projectile. */
  lemma AdvanceFinished(list: EntityList, E: seq<Entity>, d: real, i: nat, q: nat, current: Handle)
    requires Advancing(list, E, d, i, q, current) && list.nodes[current].ent.kind == ListSentinel
    ensures list.Valid() && list.Items() == Advance(E, d)
  {
    AdvanceLoopDone(E, i, d);
  }

  // ---- The game object ----

  /** Game: the three entity lists, the two ships, the tracker and the per-frame data (the
      sounds are left out). */
  class Game {
    const horde: EntityList
    const bullets: EntityList
    const powerups: EntityList
    var ship: Entity
    var enemyShip: Entity
    /** game.hordeLastAlive: the node whose death moves the tracker (NoEntity for NULL). */
    var hordeLastAlive: Handle
    var hot: HotGameData
    const cold: ColdGameData

    /** Three distinct well-formed lists, and the horde holds aliens only. */
    ghost predicate Valid()
      reads this, horde, bullets, powerups
    {
      && horde != bullets && horde != powerups && bullets != powerups
      && horde.Valid() && bullets.Valid() && powerups.Valid()
      && (forall i :: 0 <= i < |horde.Items()| ==> horde.Items()[i].kind == Alien)
    }

    /** The game as the update functions see it. */
    ghost function Snapshot(): (v: View)
      reads this, horde, bullets, powerups
      requires Valid()
      ensures |v.hordeIds| == |v.aliens|
    {
      View(ship, enemyShip, horde.Items(), horde.Content, horde.left, hordeLastAlive,
           bullets.Items(), powerups.Items(), hot)
    }

    /** The game objects of initGame as written: the last-alive result of createHorde goes to a
        copy of game.hordeLastAlive, so the field keeps its NULL. */
    constructor (now: real)
      ensures Valid() && fresh(horde) && fresh(bullets) && fresh(powerups) && cold == InitialColdData
      ensures Snapshot() == View(InitialPlayerShip, InitialEnemyShip, HordeLayout(), horde.Content, horde.left,
                                 NoEntity, [], [], InitHotGameData(now))
      ensures |horde.Content| == HordeSize && hordeLastAlive !in horde.Content
    {
      var h, lastAlive := CreateHorde();
      horde := h;
      bullets := new EntityList();
      powerups := new EntityList();
      ship := InitialPlayerShip;
      enemyShip := InitialEnemyShip;
      hordeLastAlive := NoEntity;
      hot := InitHotGameData(now);
      cold := InitialColdData;
      new;
      horde.ContentNodes();
      assert forall i :: 0 <= i < |horde.Items()| ==> horde.Items()[i] == AlienAt(i);
      assert NoEntity !in horde.nodes;
    }

    /** The game objects with the tracker createHorde computes: its last node. */
    constructor WithTracker(now: real)
      ensures Valid() && fresh(horde) && fresh(bullets) && fresh(powerups) && cold == InitialColdData
      ensures Snapshot() == View(InitialPlayerShip, InitialEnemyShip, HordeLayout(), horde.Content, horde.left,
                                 hordeLastAlive, [], [], InitHotGameData(now))
      ensures |horde.Content| == HordeSize && hordeLastAlive == horde.Content[HordeSize - 1]
      ensures TrackedView(Snapshot())
    {
      var h, lastAlive := CreateHorde();
      horde := h;
      bullets := new EntityList();
      powerups := new EntityList();
      ship := InitialPlayerShip;
      enemyShip := InitialEnemyShip;
      hordeLastAlive := lastAlive;
      hot := InitHotGameData(now);
      cold := InitialColdData;
      new;
      horde.ContentNodes();
      assert forall i :: 0 <= i < |horde.Items()| ==> horde.Items()[i] == AlienAt(i);
      horde.ContentDistinct();
      TrackedStart(Snapshot());
    }

    /** The bullet generateBullet puts at the front of the bullet list. */
    method Shoot(x: real, y: real, up: bool)
      requires Valid()
      modifies bullets
      ensures Valid() && Snapshot() == old(Snapshot()).(bullets := [BulletEntity(x, y, up)] + old(bullets.Items()))
    {
      bullets.GenerateBullet(x, y, up);
    }

    /** fire */
    method Fire(e: Entity, now: real)
      requires Valid()
      modifies this, bullets
      ensures Valid() && Snapshot() == FireSpec(old(Snapshot()), e, cold, now)
    {
      ghost var v0 := Snapshot();
      if e.kind == PlayerShip {
        ShipFires(e, now, v0);
      } else if e.kind == EnemyShip {
        BossFires(e, now, v0);
      } else {
        var x := e.bounds.x + e.bounds.width / 2.0;
        var y := e.bounds.y + e.bounds.height;
        Shoot(x, y, false);
        assert BulletEntity(x, y, false) == DownShot(e);
      }
    }

    /** The player's branch of fire, in the game `v0`: a shot up from the top centre once the
        delay of the current mode has passed since the last one. */
    method ShipFires(e: Entity, now: real, ghost v0: View)
      requires Valid() && v0 == Snapshot() && e.kind == PlayerShip
      modifies this, bullets
      ensures Valid() && Snapshot() == FireSpec(v0, e, cold, now)
    {
      var delayToFire: real;
      if hot.fastShotActive {
        delayToFire := ShipDelayToFire(cold, Buffed);
      } else {
        delayToFire := ShipDelayToFire(cold, Regular);
      }
      if now - hot.shipLastShotTime > delayToFire {
        var x := e.bounds.x + e.bounds.width / 2.0;
        var y := e.bounds.y;
        Shoot(x, y, true);
        hot := hot.(shipLastShotTime := now);
        assert BulletEntity(x, y, true) == UpShot(e);
      }
    }

    /** The boss's branch of fire, in the game `v0`: a shot down from the bottom centre once its
        delay has passed since its last one. */
    method BossFires(e: Entity, now: real, ghost v0: View)
      requires Valid() && v0 == Snapshot() && e.kind == EnemyShip
      modifies this, bullets
      ensures Valid() && Snapshot() == FireSpec(v0, e, cold, now)
    {
      if now - hot.enemyShipLastShotTime > cold.enemyShipDelayToFire {
        var x := e.bounds.x + e.bounds.width / 2.0;
        var y := e.bounds.y + e.bounds.height;
        Shoot(x, y, false);
        hot := hot.(enemyShipLastShotTime := now);
        assert BulletEntity(x, y, false) == DownShot(e);
      }
    }

    /** The powerup timers of updateShip: each active one loses `delta` and switches off at zero. */
    method TickPowerups(delta: real)
      requires Valid()
      modifies this
      ensures Valid() && Snapshot() == old(Snapshot()).(hot := TickTimers(old(hot), delta))
    {
      var h := TickHot(hot, delta);
      hot := h;
    }

    /** The movement of updateShip by `step`: right (clamped at limit 1), then left (clamped at
        limit 0). */
    method MoveShip(input: Input, step: real)
      requires Valid()
      modifies this
      ensures Valid()
      ensures Snapshot() == old(Snapshot()).(ship := old(ship).(bounds := old(ship).bounds.(
                x := ShipX(old(ship).bounds.x, old(ship).bounds.width, input, step, cold.screenLimits))))
    {
      var s := ship;
      if input.right {
        if s.bounds.x + s.bounds.width + step >= cold.screenLimits.1 {
          s := s.(bounds := s.bounds.(x := cold.screenLimits.1 - s.bounds.width));
        } else {
          s := s.(bounds := s.bounds.(x := s.bounds.x + step));
        }
      }
      if input.left {
        if s.bounds.x - step <= cold.screenLimits.0 {
          s := s.(bounds := s.bounds.(x := cold.screenLimits.0));
        } else {
          s := s.(bounds := s.bounds.(x := s.bounds.x - step));
        }
      }
      assert s == ship.(bounds := ship.bounds.(x := ShipX(ship.bounds.x, ship.bounds.width, input, step, cold.screenLimits)));
      ghost var v0 := Snapshot();
      ship := s;
      assert Snapshot() == v0.(ship := s);
    }

    /** updateShip */
    method UpdateShip(now: real)
      requires Valid()
      modifies this, bullets
      ensures Valid() && Snapshot() == ShipSpec(old(Snapshot()), cold, now)
    {
      ghost var v0 := Snapshot();
      if hot.gameState == Playing {
        var input := hot.input;
        var delta := now - hot.lastFrameTime;
        assert delta == Delta(v0.hot, now);
        TickPowerups(delta);
        ghost var v1 := Snapshot();
        assert v1 == v0.(hot := TickTimers(v0.hot, delta));
        var speed := if hot.fastMoveActive then ShipSpeed(cold, Buffed) else ShipSpeed(cold, Regular);
        assert speed == ShipSpeed(cold, Mode(v1.hot.fastMoveActive));
        var step := speed * delta;
        MoveShip(input, step);
        ghost var moved := Snapshot();
        assert moved == v1.(ship := v1.ship.(bounds := v1.ship.bounds.(
                 x := ShipX(v1.ship.bounds.x, v1.ship.bounds.width, v1.hot.input, step, cold.screenLimits))));
        assert input == v0.hot.input && step == ShipSpeed(cold, Mode(TickTimers(v0.hot, delta).fastMoveActive)) * delta;
        assert moved == v0.(ship := v0.ship.(bounds := v0.ship.bounds.(
                 x := ShipX(v0.ship.bounds.x, v0.ship.bounds.width, input, step, cold.screenLimits))),
                 hot := TickTimers(v0.hot, delta));
        ShipSpecInSteps(v0, cold, now, step, moved);
        if input.fire {
          Fire(ship, now);
          assert Snapshot() == FireSpec(moved, moved.ship, cold, now);
        }
      }
    }

    /** updateEnemyShip */
    method UpdateEnemyShip(now: real)
      requires Valid()
      modifies this, bullets
      ensures Valid() && Snapshot() == BossSpec(old(Snapshot()), cold, now)
    {
      ghost var v0 := Snapshot();
      if !hot.enemyShipDefeated && !hot.enemyShipActive {
        CountDownAlarm(now, v0);
      } else if hot.enemyShipActive && !hot.enemyShipDefeated {
        PatrolAndFire(now, v0);
      } else {
        DefeatedBossIsFrozen(v0, cold, now);
      }
    }

    /** The sleeping boss of updateEnemyShip, in the game `v0`: the alarm loses the frame's time
        and wakes the boss once it is not above zero. */
    method CountDownAlarm(now: real, ghost v0: View)
      requires Valid() && v0 == Snapshot() && !hot.enemyShipDefeated && !hot.enemyShipActive
      modifies this
      ensures Valid()
      ensures Snapshot() == BossSpec(v0, cold, now)
    {
      BossSpecCases(v0, cold, now);
      var h := hot.(remainingTimeEnemyShipAlarm := hot.remainingTimeEnemyShipAlarm - (now - hot.lastFrameTime));
      if h.remainingTimeEnemyShipAlarm <= 0.0 {
        h := h.(enemyShipActive := true);
      }
      hot := h;
    }

    /** The active boss of updateEnemyShip, in the game `v0`: it fires, then patrols by the
        frame's move. */
    method PatrolAndFire(now: real, ghost v0: View)
      requires Valid() && v0 == Snapshot() && hot.enemyShipActive && !hot.enemyShipDefeated
      modifies this, bullets
      ensures Valid() && Snapshot() == BossSpec(v0, cold, now)
    {
      BossSpecCases(v0, cold, now);
      var enemyShipMove := cold.enemyShipSpeed * (now - hot.lastFrameTime);
      assert enemyShipMove == cold.enemyShipSpeed * Delta(v0.hot, now);
      Fire(enemyShip, now);
      PatrolEnemyShip(enemyShipMove);
    }

    /** The patrol step of updateEnemyShip by `enemyShipMove`. */
    method PatrolEnemyShip(enemyShipMove: real)
      requires Valid()
      modifies this
      ensures Valid() && Snapshot() == PatrolStep(old(Snapshot()), enemyShipMove, cold)
    {
      if hot.enemyShipGoingLeft {
        if enemyShip.bounds.x - enemyShipMove <= cold.screenLimits.0 {
          enemyShip := enemyShip.(bounds := enemyShip.bounds.(x := cold.screenLimits.0));
          hot := hot.(enemyShipGoingLeft := false);
        } else {
          enemyShip := enemyShip.(bounds := enemyShip.bounds.(x := enemyShip.bounds.x - enemyShipMove));
        }
      } else {
        if enemyShip.bounds.x + enemyShipMove >= BossTurnX {
          enemyShip := enemyShip.(bounds := enemyShip.bounds.(x := BossTurnX));
          hot := hot.(enemyShipGoingLeft := true, remainingTimeEnemyShipAlarm := cold.enemyShipSleepTime,
                      enemyShipActive := false);
        } else {
          enemyShip := enemyShip.(bounds := enemyShip.bounds.(x := enemyShip.bounds.x + enemyShipMove));
        }
      }
    }

    /** The first scan loop of updateHorde: the largest x from the front node on. */
    method MaxPositionX() returns (maxPositionX: real)
      requires Valid()
      ensures maxPositionX == ScanMaxX(horde.Items())
    {
      ghost var F := horde.Full();
      ghost var items := horde.Items();
      horde.At(0);
      horde.At(1);
      var current := horde.nodes[horde.left].next;
      maxPositionX := horde.nodes[current].ent.bounds.x;
      ghost var p: nat := 1;
      while horde.nodes[current].ent.kind != ListSentinel
        invariant 1 <= p < |F| && current == F[p] && current in horde.nodes
        invariant horde.nodes[current].ent.kind != ListSentinel ==> p < |F| - 1
        invariant maxPositionX == if p == 1 then Front(items).bounds.x else MaxX(items[..p - 1])
        decreases |F| - p
      {
        horde.At(p);
        var x := horde.nodes[current].ent.bounds.x;
        assert x == items[p - 1].bounds.x;
        maxPositionX := if x > maxPositionX then x else maxPositionX;
        assert items[..p][..p - 1] == items[..p - 1];
        current := horde.nodes[current].next;
        p := p + 1;
        horde.At(p);
      }
      assert items[..p - 1] == items;
    }

    /** The second scan loop of updateHorde: the smallest x from the front node on. */
    method MinPositionX() returns (minPositionX: real)
      requires Valid()
      ensures minPositionX == ScanMinX(horde.Items())
    {
      ghost var F := horde.Full();
      ghost var items := horde.Items();
      horde.At(0);
      horde.At(1);
      var current := horde.nodes[horde.left].next;
      minPositionX := horde.nodes[current].ent.bounds.x;
      ghost var p: nat := 1;
      while horde.nodes[current].ent.kind != ListSentinel
        invariant 1 <= p < |F| && current == F[p] && current in horde.nodes
        invariant horde.nodes[current].ent.kind != ListSentinel ==> p < |F| - 1
        invariant minPositionX == if p == 1 then Front(items).bounds.x else MinX(items[..p - 1])
        decreases |F| - p
      {
        horde.At(p);
        var x := horde.nodes[current].ent.bounds.x;
        assert x == items[p - 1].bounds.x;
        minPositionX := if x < minPositionX then x else minPositionX;
        assert items[..p][..p - 1] == items[..p - 1];
        current := horde.nodes[current].next;
        p := p + 1;
        horde.At(p);
      }
      assert items[..p - 1] == items;
    }

    /** updateHorde */
    method UpdateHorde(now: real, rng: nat -> nat, k: nat) returns (k': nat)
      requires Valid()
      modifies this, horde, bullets
      ensures Valid() && (Snapshot(), k') == HordeSpec(old(Snapshot()), cold, now, rng, k)
    {
      ghost var v0 := Snapshot();
      if hot.gameState == Playing {
        var delta := now - hot.lastFrameTime;
        assert delta == Delta(v0.hot, now);
        var m := HordeEdge(delta);
        ghost var v1 := Snapshot();
        assert v1.aliens == v0.aliens;
        k' := ShiftHorde(m, now, rng, k);
        ghost var v2 := Snapshot();
        HordeSpecInSteps(v0, cold, now, rng, k, m, v1, v2);
        ghost var r := HordeSpec(v0, cold, now, rng, k);
        assert r.0 == v2;
        assert r.1 == k';
      } else {
        k' := k;
      }
    }

    /** The edge test of updateHorde: the horde's move for this frame, with the new speed
        stored. */
    method HordeEdge(delta: real) returns (m: HordeMove)
      requires Valid()
      modifies this
      ensures m == HordeMotion(old(horde.Items()), old(hot.hordeSpeed), delta, cold)
      ensures Valid() && Snapshot() == old(Snapshot()).(hot := old(hot).(hordeSpeed := m.speed))
    {
      m := PlanMotion(delta);
      hot := hot.(hordeSpeed := m.speed);
    }

    /** The scans and the edge test of updateHorde, which read the horde and the speed only. */
    method PlanMotion(delta: real) returns (m: HordeMove)
      requires Valid()
      ensures m == HordeMotion(horde.Items(), hot.hordeSpeed, delta, cold)
    {
      var speed := hot.hordeSpeed;
      if speed > 0.0 {
        var maxPositionX := MaxPositionX();
        horde.At(1);
        var width := horde.nodes[horde.nodes[horde.left].next].ent.bounds.width;
        assert width == Front(horde.Items()).bounds.width;
        m := RightEdge(maxPositionX, width, speed, delta);
      } else {
        var minPositionX := MinPositionX();
        m := LeftEdge(minPositionX, speed, delta);
      }
    }

    /** The right-edge branch of updateHorde's edge test, for a horde whose rightmost x is
        `maxPositionX` and whose front alien is `width` wide. */
    method RightEdge(maxPositionX: real, width: real, speed: real, delta: real) returns (m: HordeMove)
      ensures m == if maxPositionX + speed * delta + width >= cold.screenLimits.1
                   then HordeMove(2.0 * speed * delta - cold.screenLimits.1 + maxPositionX + width, true,
                                  -speed - cold.hordeSpeedIncrease)
                   else HordeMove(speed * delta, false, speed)
    {
      var changeDirection := false;
      var maxMovement: real;
      var hordeSpeed := speed;
      if maxPositionX + hordeSpeed * delta + width >= cold.screenLimits.1 {
        maxMovement := 2.0 * hordeSpeed * delta - cold.screenLimits.1 + maxPositionX + width;
        changeDirection := true;
        hordeSpeed := hordeSpeed * -1.0;
        hordeSpeed := hordeSpeed - cold.hordeSpeedIncrease;
      } else {
        maxMovement := hordeSpeed * delta;
      }
      m := HordeMove(maxMovement, changeDirection, hordeSpeed);
    }

    /** The left-edge branch of updateHorde's edge test, for a horde whose leftmost x is
        `minPositionX`. */
    method LeftEdge(minPositionX: real, speed: real, delta: real) returns (m: HordeMove)
      ensures m == if minPositionX + speed * delta <= cold.screenLimits.0
                   then HordeMove(minPositionX - cold.screenLimits.0, true, -speed + cold.hordeSpeedIncrease)
                   else HordeMove(speed * delta, false, speed)
    {
      var changeDirection := false;
      var maxMovement: real;
      var hordeSpeed := speed;
      if minPositionX + hordeSpeed * delta <= cold.screenLimits.0 {
        maxMovement := minPositionX - cold.screenLimits.0;
        changeDirection := true;
        hordeSpeed := hordeSpeed * -1.0;
        hordeSpeed := hordeSpeed + cold.hordeSpeedIncrease;
      } else {
        maxMovement := hordeSpeed * delta;
      }
      m := HordeMove(maxMovement, changeDirection, hordeSpeed);
    }

    /** The state of updateHorde's move loop from the game `v0` before the i-th alien, with `k`
        the first draw: the first i aliens moved and fired, `current` is the node of the i-th
        (or the right sentinel once all are done). */
    ghost predicate Shifting(v0: View, m: HordeMove, rng: nat -> nat, k: nat, i: nat, current: Handle)
      reads this, horde, bullets, powerups
    {
      && Valid() && horde.Content == v0.hordeIds && |v0.hordeIds| == |v0.aliens| && i <= |v0.aliens|
      && current == horde.Full()[i + 1] && current in horde.nodes
      && (horde.nodes[current].ent.kind != ListSentinel <==> i < |v0.aliens|)
      && horde.Items() == ShiftAll(v0.aliens[..i], m, cold) + v0.aliens[i..]
      && bullets.Items() == Volley(v0.bullets, v0.aliens[..i], rng, k)
      && ship == v0.ship && enemyShip == v0.enemyShip && hordeLastAlive == v0.lastAlive && hot == v0.hot
    }

    /** The move loop of updateHorde: each alien, front to back, draws rand() (from cursor `k`),
        fires from where it stands on a draw below 10 (mod 100000), and then moves by `m`. */
    method ShiftHorde(m: HordeMove, now: real, rng: nat -> nat, k: nat) returns (k': nat)
      requires Valid()
      modifies this, horde, bullets
      ensures Valid()
      ensures Snapshot() == old(Snapshot()).(aliens := ShiftAll(old(horde.Items()), m, cold),
                                             bullets := Volley(old(bullets.Items()), old(horde.Items()), rng, k))
      ensures k' == k + |old(horde.Items())|
    {
      ghost var v0 := Snapshot();
      horde.At(0);
      horde.At(1);
      var current := horde.nodes[horde.left].next;
      ghost var i: nat := 0;
      k' := k;
      assert v0.aliens[..0] == [] && v0.aliens[0..] == v0.aliens;
      while horde.nodes[current].ent.kind != ListSentinel
        invariant Shifting(v0, m, rng, k, i, current) && k' == k + i
        decreases |v0.aliens| - i
      {
        current := ShiftAlien(current, i, m, now, rng, k', k, v0);
        i := i + 1;
        k' := k' + 1;
      }
      ShiftLoopDone(v0.aliens, i, m, cold, v0.bullets, rng, k);
      assert old(horde.Items()) == v0.aliens && old(bullets.Items()) == v0.bullets;
    }

    /** One turn of updateHorde's move loop, at the i-th alien `current`: fire on a draw below
        10 (mod 100000), then move by `m`. */
    method ShiftAlien(current: Handle, ghost i: nat, m: HordeMove, now: real, rng: nat -> nat, cursor: nat,
                      ghost k: nat, ghost v0: View) returns (next: Handle)
      requires Shifting(v0, m, rng, k, i, current) && i < |v0.aliens| && cursor == k + i
      modifies this, horde, bullets
      ensures Shifting(v0, m, rng, k, i + 1, next)
    {
      horde.At(i + 1);
      next := horde.nodes[current].next;
      var e := horde.nodes[current].ent;
      ghost var items := horde.Items();
      assert e == items[i] == v0.aliens[i];
      AlienFires(e, now, rng, cursor, i, k, v0.aliens, v0.bullets);
      MoveAlien(current, i, m);
      ShiftStep(v0.aliens, i, m, cold);
      horde.At(i + 2);
    }

    /** The shot of updateHorde's move loop: the alien `e`, the i-th, fires on a draw below 10
        (mod 100000). */
    method AlienFires(e: Entity, now: real, rng: nat -> nat, cursor: nat,
                      ghost i: nat, ghost k: nat, ghost A: seq<Entity>, ghost bs0: seq<Entity>)
      requires Valid() && cursor == k + i && i < |A| && e == A[i] && e.kind == Alien
      requires bullets.Items() == Volley(bs0, A[..i], rng, k)
      modifies this, bullets
      ensures Valid() && bullets.Items() == Volley(bs0, A[..i + 1], rng, k)
      ensures ship == old(ship) && enemyShip == old(enemyShip) && hordeLastAlive == old(hordeLastAlive) && hot == old(hot)
    {
      VolleyStep(bs0, A, i, rng, k);
      ghost var before := bullets.Items();
      var dropCheck := rng(cursor) % 100000;
      if dropCheck < 10 {
        AlienShot(e, now);
        assert bullets.Items() == [DownShot(A[i])] + before;
      } else {
        assert bullets.Items() == before;
      }
    }

    /** fire for an alien: a shot down from its bottom centre. */
    method AlienShot(e: Entity, now: real)
      requires Valid() && e.kind == Alien
      modifies this, bullets
      ensures Valid() && bullets.Items() == [DownShot(e)] + old(bullets.Items())
      ensures ship == old(ship) && enemyShip == old(enemyShip) && hordeLastAlive == old(hordeLastAlive) && hot == old(hot)
    {
      ghost var v1 := Snapshot();
      Fire(e, now);
      assert Snapshot() == v1.(bullets := [DownShot(e)] + v1.bullets);
    }

    /** The move of updateHorde's move loop: the i-th alien `current` moves by `m`. */
    method MoveAlien(current: Handle, ghost i: nat, m: HordeMove)
      requires Valid() && i < |horde.Content| && current == horde.Content[i]
      modifies horde
      ensures Valid() && horde.Content == old(horde.Content)
      ensures horde.Items() == old(horde.Items())[i := Shifted(old(horde.Items())[i], m, cold)]
      ensures forall y :: y in old(horde.nodes) ==> y in horde.nodes && horde.nodes[y].next == old(horde.nodes[y].next)
    {
      horde.At(i + 1);
      var e := horde.nodes[current].ent;
      assert e == horde.Items()[i];
      var moved := e.(bounds := e.bounds.(x := e.bounds.x + m.maxMovement));
      if m.changeDirection {
        moved := moved.(bounds := moved.bounds.(y := moved.bounds.y + cold.hordeStepY));
      }
      assert moved == Shifted(e, m, cold);
      horde.SetEntity(current, i, moved);
    }

    /** The sweep detectCollisions has reached, with `kept` the bullets visited and kept so far
        and `k` the next rand() draw. */
    ghost function Mirror(kept: seq<Entity>, k: nat): (s: Sweep)
      reads this, horde, bullets, powerups
      requires Valid()
      ensures Matched(s) && s.left == horde.left && s.k == k && !s.stopped
    {
      Sweep(horde.Items(), horde.Content, horde.left, hordeLastAlive, kept, powerups.Items(), hot, k, false)
    }

    /** An alien hit on the last alive alien when it is the first of the horde: the tracker
        reaches the left sentinel and the game is won, with the bullet still in its list. */
    method WinHit(enemy: Handle, ghost j: nat, ghost q: nat, k: nat, ghost s: Sweep, ghost b: Entity) returns (k': nat)
      requires Valid() && q < |bullets.Content|
      requires s == Mirror(bullets.Items()[..q], k) && b == bullets.Items()[q]
      requires j == 0 < |s.aliens| && enemy == horde.Full()[1] && enemy == hordeLastAlive
      modifies this
      ensures Valid() && ship == old(ship) && enemyShip == old(enemyShip) && bullets.Items() == old(bullets.Items())
      ensures Mirror(bullets.Items()[..q + 1], k').(stopped := true)
              == s.(lastAlive := s.left, hot := s.hot.(gameState := Win, menuButton := Restart),
                    k := s.k + 1, stopped := true, bullets := s.bullets + [b])
    {
      horde.At(1);
      hordeLastAlive := horde.nodes[enemy].prev;
      hot := hot.(gameState := Win, menuButton := Restart);
      k' := k + 1;
      assert bullets.Items()[..q + 1] == s.bullets + [b];
    }

    /** An alien hit that does not win: the tracker steps back when it was on the hit alien, then
        the powerup drop on the roll `dropCheck` (always below 100) and both kills. */
    method SurviveHit(current: Handle, enemy: Handle, ghost j: nat, ghost q: nat, dropCheck: nat, k: nat,
                      rng: nat -> nat, ghost s: Sweep) returns (at: Handle, k': nat)
      requires Valid() && q < |bullets.Content| && current == bullets.Full()[q + 1]
      requires s == Mirror(bullets.Items()[..q], k) && j < |s.aliens| && enemy == horde.Full()[j + 1]
      requires !(s.ids[j] == s.lastAlive && j == 0) && dropCheck < 100
      modifies this, horde, bullets, powerups
      ensures Valid() && ship == old(ship) && enemyShip == old(enemyShip)
      ensures bullets.Items() == old(bullets.Items())[..q] + old(bullets.Items())[q + 1..]
      ensures Mirror(bullets.Items()[..q], k')
              == Killed(s.(lastAlive := if s.ids[j] == s.lastAlive then PrevOf(s, j) else s.lastAlive), j, rng(k + 1))
      ensures at == bullets.Full()[q] && at in bullets.nodes
    {
      StepTracker(enemy, j, q, k, s);
      at, k' := KillHit(current, enemy, j, q, dropCheck, k, rng(k + 1),
                        s.(lastAlive := if s.ids[j] == s.lastAlive then PrevOf(s, j) else s.lastAlive));
    }

    /** The tracker update of an alien hit: hordeLastAlive steps back to the predecessor of the
        j-th alien `enemy` when it was on it. */
    method StepTracker(enemy: Handle, ghost j: nat, ghost q: nat, k: nat, ghost s: Sweep)
      requires Valid() && q <= |bullets.Content| && s == Mirror(bullets.Items()[..q], k)
      requires j < |s.aliens| && enemy == horde.Full()[j + 1]
      modifies this
      ensures Valid() && ship == old(ship) && enemyShip == old(enemyShip)
      ensures Mirror(bullets.Items()[..q], k)
              == s.(lastAlive := if s.ids[j] == s.lastAlive then PrevOf(s, j) else s.lastAlive)
    {
      horde.At(j + 1);
      assert enemy == s.ids[j];
      if enemy == hordeLastAlive {
        hordeLastAlive := horde.nodes[enemy].prev;
        horde.At(j);
        assert hordeLastAlive == PrevOf(s, j);
      }
    }

    /** DropAndKill seen on the sweep `s` it starts from, after the drop roll `dropCheck` at `k`:
        the roll is below 100, so the powerup of kind roll `draw` is dropped, and the hit alien
        and bullet leave their lists. */
    method KillHit(current: Handle, enemy: Handle, ghost j: nat, ghost q: nat, dropCheck: nat, k: nat,
                   draw: nat, ghost s: Sweep) returns (at: Handle, k': nat)
      requires Valid() && q < |bullets.Content| && current == bullets.Full()[q + 1]
      requires s == Mirror(bullets.Items()[..q], k) && j < |s.aliens| && enemy == horde.Full()[j + 1]
      requires dropCheck < 100
      modifies horde, bullets, powerups
      ensures Valid()
      ensures bullets.Items() == old(bullets.Items())[..q] + old(bullets.Items())[q + 1..]
      ensures Mirror(bullets.Items()[..q], k') == Killed(s, j, draw)
      ensures at == bullets.Full()[q] && at in bullets.nodes
    {
      horde.At(j + 1);
      ghost var drops := powerups.Items();
      at, k' := DropAndKill(current, enemy, j, q, dropCheck, k + 1, draw, s.aliens[j]);
      ghost var r := Mirror(bullets.Items()[..q], k');
      assert r.bullets == s.bullets;
      assert r.aliens == Without(s.aliens, j) && r.ids == Without(s.ids, j);
      assert r.powerups == [DropFrom(s.aliens[j], draw)] + drops;
    }

    /** The rest of an alien hit that does not win: the powerup drop on a roll below 100 (with
        kind roll `draw`, the rand() draw at `k`), then the kills of the q-th bullet and of the
        j-th alien. */
    method DropAndKill(current: Handle, enemy: Handle, ghost j: nat, ghost q: nat, dropCheck: nat, k: nat,
                       draw: nat, ghost e: Entity) returns (at: Handle, k': nat)
      requires Valid() && q < |bullets.Content| && current == bullets.Full()[q + 1]
      requires j < |horde.Content| && enemy == horde.Content[j] && e == horde.Items()[j]
      modifies horde, bullets, powerups
      ensures Valid()
      ensures horde.Items() == Without(old(horde.Items()), j) && horde.Content == Without(old(horde.Content), j)
      ensures dropCheck < 100 ==> powerups.Items() == [DropFrom(e, draw)] + old(powerups.Items()) && k' == k + 1
      ensures dropCheck >= 100 ==> powerups.Items() == old(powerups.Items()) && k' == k
      ensures bullets.Items() == old(bullets.Items())[..q] + old(bullets.Items())[q + 1..]
      ensures at == bullets.Full()[q] && at in bullets.nodes
    {
      horde.At(j + 1);
      var alien := horde.nodes[enemy].ent;
      k' := DropPowerup(alien, dropCheck, 100, k, draw);
      at := KillBoth(current, enemy, j, q);
    }

    /** generatePowerup below the middle of `e` when the roll `dropCheck` is below `threshold`,
        with kind roll `draw`, the rand() draw at `k`; `k'` is the next draw. */
    method DropPowerup(e: Entity, dropCheck: nat, threshold: nat, k: nat, draw: nat) returns (k': nat)
      requires Valid()
      modifies powerups
      ensures Valid()
      ensures dropCheck < threshold ==> powerups.Items() == [DropFrom(e, draw)] + old(powerups.Items()) && k' == k + 1
      ensures dropCheck >= threshold ==> powerups.Items() == old(powerups.Items()) && k' == k
    {
      k' := k;
      if dropCheck < threshold {
        Drop(e, draw);
        k' := k + 1;
      }
    }

    /** The generatePowerup call of a drop below the middle of `e`, with kind roll `draw`. */
    method Drop(e: Entity, draw: nat)
      requires Valid()
      modifies powerups
      ensures Valid() && powerups.Items() == [DropFrom(e, draw)] + old(powerups.Items())
    {
      ghost var aliens := horde.Items();
      var x, y := e.bounds.x + e.bounds.width / 2.0, e.bounds.y + e.bounds.height;
      assert PowerupEntity(x, y, draw) == DropFrom(e, draw);
      powerups.GeneratePowerup(x, y, draw);
      assert horde.Items() == aliens;
    }

    /** killBullet and killEnemy of an alien hit: the q-th bullet and the j-th alien leave their
        lists; `at` is the bullet before the killed one. */
    method KillBoth(current: Handle, enemy: Handle, ghost j: nat, ghost q: nat) returns (at: Handle)
      requires Valid() && q < |bullets.Content| && current == bullets.Full()[q + 1]
      requires j < |horde.Content| && enemy == horde.Content[j]
      modifies horde, bullets
      ensures Valid()
      ensures horde.Items() == Without(old(horde.Items()), j) && horde.Content == Without(old(horde.Content), j)
      ensures bullets.Items() == old(bullets.Items())[..q] + old(bullets.Items())[q + 1..]
      ensures at == bullets.Full()[q] && at in bullets.nodes
    {
      ghost var items := horde.Items();
      at := KillAt(bullets, current, q);
      horde.Kill(enemy, j);
      assert horde.Items() == Without(items, j);
      assert forall i :: 0 <= i < |horde.Items()| ==> horde.Items()[i] == items[if i < j then i else i + 1];
    }

    /** The hit of the upward bullet (the q-th, node `current`) on the boss, checked whatever its
        flags: the drop roll, the 15% powerup drop, the defeat and the kill; `at` is the bullet
        before the killed one. */
    method HitBoss(current: Handle, ghost q: nat, k: nat, rng: nat -> nat, ghost s: Sweep) returns (at: Handle, k': nat)
      requires Valid() && q < |bullets.Content| && current == bullets.Full()[q + 1]
      requires s == Mirror(bullets.Items()[..q], k)
      modifies this, bullets, powerups
      ensures Valid() && ship == old(ship) && enemyShip == old(enemyShip)
      ensures bullets.Items() == old(bullets.Items())[..q] + old(bullets.Items())[q + 1..]
      ensures at == bullets.Full()[q] && at in bullets.nodes
      ensures Mirror(bullets.Items()[..q], k') == Defeated(s, enemyShip, k, rng)
    {
      ghost var drops := powerups.Items();
      var dropCheck := rng(k) % 100;
      k' := k + 1;
      var draw := rng(k');
      k' := DropPowerup(enemyShip, dropCheck, 15, k', draw);
      hot := hot.(enemyShipActive := false, enemyShipDefeated := true);
      at := KillAt(bullets, current, q);
      ghost var r := Mirror(bullets.Items()[..q], k');
      assert r.bullets == s.bullets;
      assert r.powerups == if dropCheck < 15 then [DropFrom(enemyShip, draw)] + drops else drops;
    }

    /** The hit of a downward bullet (the q-th, node `current`) on the ship: LOSE with RESTART
        selected, and the bullet is killed. */
    method HitShip(current: Handle, ghost q: nat, k: nat, ghost s: Sweep)
      requires Valid() && q < |bullets.Content| && current == bullets.Full()[q + 1]
      requires s == Mirror(bullets.Items()[..q], k)
      modifies this, bullets
      ensures Valid() && ship == old(ship) && enemyShip == old(enemyShip)
      ensures bullets.Items() == old(bullets.Items())[..q] + old(bullets.Items())[q + 1..]
      ensures Mirror(bullets.Items()[..q], k) == s.(hot := s.hot.(gameState := Lose, menuButton := Restart))
    {
      hot := hot.(gameState := Lose, menuButton := Restart);
      var at := KillAt(bullets, current, q);
      assert bullets.Items()[..q] == s.bullets;
    }

    /** What a turn of the bullet loop at the q-th bullet `b` of `bs`, from the sweep `s`, leaves:
        the sweep after `b` (returned early when `stop`), and the loop's next node, the q'-th. */
    ghost predicate TurnDone(s: Sweep, b: Entity, rng: nat -> nat, bs: seq<Entity>, q: nat, q': nat, k': nat,
                             stop: bool, next: Handle)
      reads this, horde, bullets, powerups
    {
      && Valid() && Matched(s) && q < |bs|
      && q' <= |bullets.Content| && bullets.Items()[q'..] == bs[q + 1..]
      && Mirror(bullets.Items()[..q'], k').(stopped := stop) == BulletStep(s, b, ship, enemyShip, rng)
      && (!stop ==> next == bullets.Full()[q' + 1] && next in bullets.nodes)
    }

    /** One turn of the bullet loop at `current`, the q-th bullet `b`, from the sweep `s`: `stop`
        when detectCollisions returns, otherwise the loop goes on at `next`, the q'-th. */
    method BulletTurn(current: Handle, ghost q: nat, k: nat, rng: nat -> nat, ghost s: Sweep, ghost b: Entity)
      returns (next: Handle, ghost q': nat, k': nat, stop: bool)
      requires Valid() && q < |bullets.Content| && current == bullets.Full()[q + 1]
      requires s == Mirror(bullets.Items()[..q], k) && b == bullets.Items()[q]
      modifies this, horde, bullets, powerups
      ensures ship == old(ship) && enemyShip == old(enemyShip)
      ensures TurnDone(s, b, rng, old(bullets.Items()), q, q', k', stop, next)
    {
      bullets.At(q + 1);
      var bullet := bullets.nodes[current].ent;
      assert bullet == b;
      if bullet.up {
        var hit: bool;
        var enemy: Handle;
        ghost var j: nat;
        hit, enemy, j := FindHit(horde, bullet);
        if hit {
          next, q', k', stop := AlienTurn(current, enemy, j, q, k, rng, s, b);
        } else {
          next, q', k' := BossTurn(current, q, k, rng, s, b);
          stop := false;
        }
      } else {
        next, q', stop := DownTurn(current, q, k, rng, s, b);
        k' := k;
      }
    }

    /** A turn whose upward bullet `b` first hits the j-th alien `enemy`: the drop roll, then the
        WIN when the tracker is on `enemy` and its predecessor is the left sentinel, and otherwise
        the surviving hit. */
    method AlienTurn(current: Handle, enemy: Handle, ghost j: nat, ghost q: nat, k: nat, rng: nat -> nat,
                     ghost s: Sweep, ghost b: Entity) returns (next: Handle, ghost q': nat, k': nat, stop: bool)
      requires Valid() && q < |bullets.Content| && current == bullets.Full()[q + 1]
      requires s == Mirror(bullets.Items()[..q], k) && b == bullets.Items()[q] && b.up
      requires j == FirstHit(b, s.aliens) && j < |s.aliens| && enemy == horde.Full()[j + 1]
      modifies this, horde, bullets, powerups
      ensures ship == old(ship) && enemyShip == old(enemyShip)
      ensures TurnDone(s, b, rng, old(bullets.Items()), q, q', k', stop, next)
    {
      horde.At(j + 1);
      horde.At(j);
      assert enemy == s.ids[j];
      var dropCheck := rng(k) % 100;
      if enemy == hordeLastAlive && horde.nodes[horde.nodes[enemy].prev].ent.kind == ListSentinel {
        next, q', k', stop := WinTurn(enemy, j, q, k, rng, s, b);
      } else {
        next, q', k', stop := SurviveTurn(current, enemy, j, q, dropCheck, k, rng, s, b);
      }
    }

    /** The winning alien hit as a turn of the bullet loop. */
    method WinTurn(enemy: Handle, ghost j: nat, ghost q: nat, k: nat, rng: nat -> nat, ghost s: Sweep, ghost b: Entity)
      returns (next: Handle, ghost q': nat, k': nat, stop: bool)
      requires Valid() && q < |bullets.Content|
      requires s == Mirror(bullets.Items()[..q], k) && b == bullets.Items()[q] && b.up
      requires j == FirstHit(b, s.aliens) && j == 0 < |s.aliens| && enemy == horde.Full()[1]
      requires enemy == hordeLastAlive
      modifies this
      ensures ship == old(ship) && enemyShip == old(enemyShip)
      ensures TurnDone(s, b, rng, old(bullets.Items()), q, q', k', stop, next)
    {
      horde.At(1);
      AlienHitWins(s, b, ship, enemyShip, rng);
      k' := WinHit(enemy, j, q, k, s, b);
      stop := true;
      q' := q + 1;
      next := NoEntity;
    }

    /** A surviving alien hit as a turn of the bullet loop: the loop goes on after the bullet
        before the killed one. */
    method SurviveTurn(current: Handle, enemy: Handle, ghost j: nat, ghost q: nat, dropCheck: nat, k: nat,
                       rng: nat -> nat, ghost s: Sweep, ghost b: Entity)
      returns (next: Handle, ghost q': nat, k': nat, stop: bool)
      requires Valid() && q < |bullets.Content| && current == bullets.Full()[q + 1]
      requires s == Mirror(bullets.Items()[..q], k) && b == bullets.Items()[q] && b.up
      requires j == FirstHit(b, s.aliens) && j < |s.aliens| && enemy == horde.Full()[j + 1]
      requires !(s.ids[j] == s.lastAlive && j == 0) && dropCheck < 100
      modifies this, horde, bullets, powerups
      ensures ship == old(ship) && enemyShip == old(enemyShip)
      ensures TurnDone(s, b, rng, old(bullets.Items()), q, q', k', stop, next)
    {
      assert s.k == k;
      var at: Handle;
      at, k' := SurviveHit(current, enemy, j, q, dropCheck, k, rng, s);
      stop := false;
      q' := q;
      AlienHitSurvives(s, b, j, k, ship, enemyShip, rng);
      ghost var m := Mirror(bullets.Items()[..q], k');
      assert m.(stopped := false) == m;
      bullets.At(q');
      next := bullets.nodes[at].next;
      bullets.At(q' + 1);
    }

    /** A turn whose upward bullet `b` misses every alien: the boss test. */
    method BossTurn(current: Handle, ghost q: nat, k: nat, rng: nat -> nat, ghost s: Sweep, ghost b: Entity)
      returns (next: Handle, ghost q': nat, k': nat)
      requires Valid() && q < |bullets.Content| && current == bullets.Full()[q + 1]
      requires s == Mirror(bullets.Items()[..q], k) && b == bullets.Items()[q] && b.up
      requires FirstHit(b, s.aliens) == |s.aliens|
      modifies this, bullets, powerups
      ensures ship == old(ship) && enemyShip == old(enemyShip)
      ensures TurnDone(s, b, rng, old(bullets.Items()), q, q', k', false, next)
    {
      bullets.At(q + 1);
      if DetectCollision(bullets.nodes[current].ent, enemyShip) {
        next, q', k' := BossHitTurn(current, q, k, rng, s, b);
      } else {
        OtherStep(s, b, ship, enemyShip, rng);
        k' := k;
        q' := q + 1;
        assert bullets.Items()[..q + 1] == s.bullets + [b];
        next := bullets.nodes[current].next;
        bullets.At(q + 2);
      }
    }

    /** A turn whose upward bullet `b` misses every alien and hits the boss. */
    method BossHitTurn(current: Handle, ghost q: nat, k: nat, rng: nat -> nat, ghost s: Sweep, ghost b: Entity)
      returns (next: Handle, ghost q': nat, k': nat)
      requires Valid() && q < |bullets.Content| && current == bullets.Full()[q + 1]
      requires s == Mirror(bullets.Items()[..q], k) && b == bullets.Items()[q] && b.up
      requires FirstHit(b, s.aliens) == |s.aliens| && DetectCollision(b, enemyShip)
      modifies this, bullets, powerups
      ensures ship == old(ship) && enemyShip == old(enemyShip)
      ensures TurnDone(s, b, rng, old(bullets.Items()), q, q', k', false, next)
    {
      BossHitStep(s, b, k, ship, enemyShip, rng);
      var at: Handle;
      at, k' := HitBoss(current, q, k, rng, s);
      q' := q;
      bullets.At(q');
      next := bullets.nodes[at].next;
      bullets.At(q' + 1);
    }

    /** A turn whose bullet `b` falls: the ship test. */
    method DownTurn(current: Handle, ghost q: nat, k: nat, rng: nat -> nat, ghost s: Sweep, ghost b: Entity)
      returns (next: Handle, ghost q': nat, stop: bool)
      requires Valid() && q < |bullets.Content| && current == bullets.Full()[q + 1]
      requires s == Mirror(bullets.Items()[..q], k) && b == bullets.Items()[q] && !b.up
      modifies this, bullets
      ensures ship == old(ship) && enemyShip == old(enemyShip)
      ensures TurnDone(s, b, rng, old(bullets.Items()), q, q', k, stop, next)
    {
      OtherStep(s, b, ship, enemyShip, rng);
      bullets.At(q + 1);
      next := current;
      if DetectCollision(ship, bullets.nodes[current].ent) {
        HitShip(current, q, k, s);
        q' := q;
        stop := true;
      } else {
        q' := q + 1;
        stop := false;
        assert bullets.Items()[..q + 1] == s.bullets + [b];
        next := bullets.nodes[current].next;
        bullets.At(q + 2);
      }
    }

    /** The state of detectCollisions' bullet loop over the bullets `bs` before the i-th, from the
        sweep `s0`: the sweep reached is that of the first i bullets, `current`, the q-th node,
        holds the i-th bullet (or is the right sentinel once all are done). */
    ghost predicate Scanning(s0: Sweep, bs: seq<Entity>, rng: nat -> nat, i: nat, q: nat, k: nat, current: Handle)
      reads this, horde, bullets, powerups
    {
      && Valid() && Matched(s0) && i <= |bs| && q <= |bullets.Content|
      && Mirror(bullets.Items()[..q], k) == BulletPass(s0, bs[..i], ship, enemyShip, rng)
      && bullets.Items()[q..] == bs[i..]
      && current == bullets.Full()[q + 1] && current in bullets.nodes
      && (bullets.nodes[current].ent.kind != ListSentinel <==> i < |bs|)
    }

    /** One turn of the bullet loop, keeping Scanning unless detectCollisions returns. */
    method ScanTurn(current: Handle, ghost s0: Sweep, ghost bs: seq<Entity>, rng: nat -> nat, ghost i: nat, ghost q: nat, k: nat)
      returns (next: Handle, ghost q': nat, k': nat, stop: bool)
      requires Scanning(s0, bs, rng, i, q, k, current) && i < |bs|
      modifies this, horde, bullets, powerups
      ensures ship == old(ship) && enemyShip == old(enemyShip)
      ensures !stop ==> Scanning(s0, bs, rng, i + 1, q', k', next)
      ensures stop ==> Valid() && q' <= |bullets.Content| && bullets.Items()[q'..] == bs[i + 1..]
                       && Mirror(bullets.Items()[..q'], k').(stopped := true) == BulletPass(s0, bs[..i + 1], ship, enemyShip, rng)
    {
      bullets.At(q + 1);
      ghost var s := BulletPass(s0, bs[..i], ship, enemyShip, rng);
      ghost var items := bullets.Items();
      ghost var b := items[q];
      assert b == bs[i] && items[q + 1..] == bs[i + 1..] by {
        assert items[q..][0] == items[q] && items[q..][1..] == items[q + 1..];
        assert bs[i..][1..] == bs[i + 1..];
      }
      PassStep(s0, bs, i, ship, enemyShip, rng);
      next, q', k', stop := BulletTurn(current, q, k, rng, s, b);
      ghost var m := Mirror(bullets.Items()[..q'], k');
      if !stop {
        assert m.(stopped := false) == m;
        bullets.At(q' + 1);
      }
    }

    /** The bullet loop of detectCollisions: `stop` when it returned early. */
    method BulletLoop(rng: nat -> nat, k: nat) returns (k': nat, stop: bool)
      requires Valid()
      modifies this, horde, bullets, powerups
      ensures Valid() && ship == old(ship) && enemyShip == old(enemyShip)
      ensures Mirror(bullets.Items(), k').(stopped := stop)
              == BulletPass(SweepOf(old(Snapshot()), k), old(bullets.Items()), ship, enemyShip, rng)
    {
      ghost var s0 := SweepOf(Snapshot(), k);
      ghost var B := bullets.Items();
      bullets.At(0);
      var current := bullets.nodes[bullets.left].next;
      ScanStart(rng, k);
      ghost var i: nat := 0;
      ghost var q: nat := 0;
      k' := k;
      stop := false;
      while bullets.nodes[current].ent.kind != ListSentinel
        invariant Scanning(s0, B, rng, i, q, k', current)
        invariant ship == old(ship) && enemyShip == old(enemyShip) && !stop
        decreases |B| - i
      {
        current, q, k', stop := ScanTurn(current, s0, B, rng, i, q, k');
        if stop {
          ScanStopped(s0, B, rng, i, q, k');
          return;
        }
        i := i + 1;
      }
      ScanFinished(s0, B, rng, i, q, k', current);
    }

    /** The bullet loop starts at the front node with nothing swept. */
    lemma ScanStart(rng: nat -> nat, k: nat)
      requires Valid()
      ensures Scanning(SweepOf(Snapshot(), k), bullets.Items(), rng, 0, 0, k, bullets.Full()[1])
    {
      bullets.At(0);
      bullets.At(1);
      ghost var B := bullets.Items();
      assert B[..0] == [] && B[0..] == B;
      assert Mirror(B[..0], k) == SweepOf(Snapshot(), k);
    }

    /** The bullet loop, once it reached the right sentinel, has swept every bullet. */
    lemma ScanFinished(s0: Sweep, B: seq<Entity>, rng: nat -> nat, i: nat, q: nat, k: nat, current: Handle)
      requires Scanning(s0, B, rng, i, q, k, current) && bullets.nodes[current].ent.kind == ListSentinel
      ensures Mirror(bullets.Items(), k).(stopped := false) == BulletPass(s0, B, ship, enemyShip, rng)
    {
      assert B[..i] == B && bullets.Items()[..q] == bullets.Items();
    }

    /** The bullet loop, once it returned after bullet i, has the bullets after i untouched. */
    lemma ScanStopped(s0: Sweep, B: seq<Entity>, rng: nat -> nat, i: nat, q: nat, k: nat)
      requires Valid() && Matched(s0) && i < |B| && q <= |bullets.Content| && bullets.Items()[q..] == B[i + 1..]
      requires Mirror(bullets.Items()[..q], k).(stopped := true) == BulletPass(s0, B[..i + 1], ship, enemyShip, rng)
      ensures Mirror(bullets.Items(), k).(stopped := true) == BulletPass(s0, B, ship, enemyShip, rng)
    {
      ghost var items := bullets.Items();
      ghost var m := Mirror(items[..q], k);
      StoppedKeepsTail(s0, B, i, items, q, m, ship, enemyShip, rng);
      assert Mirror(items, k) == m.(bullets := items);
    }

    /** The state of detectCollisions' powerup loop over the powerups `ps` before the i-th, from
        the per-frame data `h0`. */
    ghost predicate Picking(h0: HotGameData, ps: seq<Entity>, i: nat, q: nat, current: Handle)
      reads this, horde, bullets, powerups
    {
      && Valid() && i <= |ps| && q <= |powerups.Content|
      && (hot, powerups.Items()[..q]) == PowerupPass(h0, ps[..i], ship, cold)
      && powerups.Items()[q..] == ps[i..]
      && current == powerups.Full()[q + 1] && current in powerups.nodes
      && (powerups.nodes[current].ent.kind != ListSentinel <==> i < |ps|)
    }

    /** The pickup of the q-th powerup `p`, at `current`: FAST_SHOT sets the fast shot, any other
        kind the fast move, for the full duration, and the powerup is killed. */
    method PickUpAt(current: Handle, ghost q: nat, ghost p: Entity) returns (at: Handle)
      requires Valid() && q < |powerups.Content| && current == powerups.Full()[q + 1]
      requires p == powerups.Items()[q] && p == powerups.nodes[current].ent
      modifies this, powerups
      ensures Valid() && ship == old(ship) && enemyShip == old(enemyShip) && hordeLastAlive == old(hordeLastAlive)
      ensures hot == PickUp(old(hot), p, cold)
      ensures powerups.Items() == old(powerups.Items())[..q] + old(powerups.Items())[q + 1..]
      ensures q < |powerups.Full()| - 1 && at == powerups.Full()[q] && at in powerups.nodes
    {
      var h := hot;
      if powerups.nodes[current].ent.kind == FastShot {
        h := h.(fastShotActive := true, fastShotRemainingTime := cold.powerupDuration);
      } else {
        h := h.(fastMoveActive := true, fastMoveRemainingTime := cold.powerupDuration);
      }
      hot := h;
      at := KillAt(powerups, current, q);
    }

    /** One turn of the powerup loop at `current`: a powerup touching the ship is picked up
        (FAST_SHOT sets the fast shot, any other kind the fast move, for the full duration) and
        killed. */
    method PickTurn(current: Handle, ghost h0: HotGameData, ghost ps: seq<Entity>, ghost i: nat, ghost q: nat)
      returns (next: Handle, ghost q': nat)
      requires Picking(h0, ps, i, q, current) && i < |ps|
      modifies this, powerups
      ensures Picking(h0, ps, i + 1, q', next)
      ensures ship == old(ship) && enemyShip == old(enemyShip) && hordeLastAlive == old(hordeLastAlive)
    {
      powerups.At(q + 1);
      var p := powerups.nodes[current].ent;
      assert p == ps[i];
      PowerupPassStep(h0, ps, i, ship, cold);
      ghost var prev := PowerupPass(h0, ps[..i], ship, cold);
      ghost var items := powerups.Items();
      assert items[q + 1..] == ps[i + 1..];
      var at := current;
      if DetectCollision(ship, p) {
        at := PickUpAt(current, q, p);
        q' := q;
        assert hot == PickUp(prev.0, p, cold);
        assert powerups.Items()[..q] == items[..q] == prev.1;
        assert powerups.Items()[q..] == items[q + 1..];
      } else {
        q' := q + 1;
        assert powerups.Items()[..q + 1] == prev.1 + [p];
      }
      powerups.At(q');
      next := powerups.nodes[at].next;
      powerups.At(q' + 1);
    }

    /** The powerup loop of detectCollisions. */
    method PowerupLoop()
      requires Valid()
      modifies this, powerups
      ensures Valid() && ship == old(ship) && enemyShip == old(enemyShip) && hordeLastAlive == old(hordeLastAlive)
      ensures (hot, powerups.Items()) == PowerupPass(old(hot), old(powerups.Items()), ship, cold)
    {
      ghost var h0 := hot;
      ghost var P := powerups.Items();
      powerups.At(0);
      powerups.At(1);
      var current := powerups.nodes[powerups.left].next;
      ghost var i: nat := 0;
      ghost var q: nat := 0;
      assert powerups.Items()[..0] == [] && P[..0] == [] && P[0..] == P;
      while powerups.nodes[current].ent.kind != ListSentinel
        invariant Picking(h0, P, i, q, current)
        invariant ship == old(ship) && enemyShip == old(enemyShip) && hordeLastAlive == old(hordeLastAlive)
        decreases |P| - i
      {
        current, q := PickTurn(current, h0, P, i, q);
        i := i + 1;
      }
      assert i == |P| && q == |powerups.Items()|;
      assert P[..i] == P && powerups.Items()[..q] == powerups.Items();
      assert old(powerups.Items()) == P;
    }

    /** detectCollisions */
    method DetectCollisions(rng: nat -> nat, k: nat) returns (k': nat)
      requires Valid()
      modifies this, horde, bullets, powerups
      ensures Valid() && (Snapshot(), k') == CollisionsView(old(Snapshot()), cold, rng, k)
    {
      ghost var v0 := Snapshot();
      var stop: bool;
      k', stop := BulletLoop(rng, k);
      ghost var s := BulletPass(SweepOf(v0, k), v0.bullets, v0.ship, v0.enemyShip, rng);
      assert Mirror(bullets.Items(), k').(stopped := stop) == s;
      if !stop {
        PowerupLoop();
        ghost var p := PowerupPass(s.hot, s.powerups, ship, cold);
        assert (hot, powerups.Items()) == p;
        assert Snapshot() == AfterSweep(v0, s.(hot := p.0, powerups := p.1));
      } else {
        assert Snapshot() == AfterSweep(v0, s);
      }
    }

    /** updateGame: `now` is the frame's GetTime() reading, `rng` the rand() sequence and `k` the
        number of draws made before this frame. */
    method UpdateGame(now: real, rng: nat -> nat, k: nat) returns (k': nat)
      requires Valid()
      modifies this, horde, bullets, powerups
      ensures Valid() && (Snapshot(), k') == FrameSpec(old(Snapshot()), cold, now, rng, k)
    {
      UpdateGameState();
      k' := UpdateBranch(now, rng, k);
      ghost var v2 := Snapshot();
      hot := hot.(lastFrameTime := now);
      assert Snapshot() == v2.(hot := v2.hot.(lastFrameTime := now));
    }

    /** The middle of updateGame: the six updates while PLAYING, else the menu unless CLOSE. */
    method UpdateBranch(now: real, rng: nat -> nat, k: nat) returns (k': nat)
      requires Valid()
      modifies this, horde, bullets, powerups
      ensures Valid() && (Snapshot(), k') == BranchSpec(old(Snapshot()), cold, now, rng, k)
    {
      if hot.gameState == Playing {
        k' := PlayingFrame(now, rng, k);
      } else if hot.gameState != Close {
        UpdateMenu();
        k' := k;
      } else {
        k' := k;
      }
    }

    /** The PLAYING branch of updateGame. */
    method PlayingFrame(now: real, rng: nat -> nat, k: nat) returns (k': nat)
      requires Valid()
      modifies this, horde, bullets, powerups
      ensures Valid() && (Snapshot(), k') == PlayingSpec(old(Snapshot()), cold, now, rng, k)
    {
      ghost var v0 := Snapshot();
      var k1 := DetectCollisions(rng, k);
      ghost var c := Snapshot();
      UpdateShip(now);
      ghost var v3 := Snapshot();
      k' := UpdateHorde(now, rng, k1);
      ghost var v4 := Snapshot();
      UpdateEnemyShip(now);
      ghost var v5 := Snapshot();
      AdvanceBoth(now);
      PlayingSpecInSteps(v0, cold, now, rng, k, c, k1, v3, v4, k', v5, Snapshot());
    }

    /** The two updateProjectiles calls of a frame: the bullets, then the powerups. */
    method AdvanceBoth(now: real)
      requires Valid()
      modifies bullets, powerups
      ensures Valid() && Snapshot() == ProjectilesSpec(old(Snapshot()), cold, now)
    {
      ghost var v5 := Snapshot();
      ghost var d := Travel(cold.projectileSpeed, hot, now);
      ghost var bs := bullets.Items();
      assert bs == v5.bullets;
      UpdateProjectiles(bullets, now);
      assert bullets.Items() == Advance(bs, d);
      assert bullets.Items() == Advance(v5.bullets, d);
      ghost var ps := powerups.Items();
      assert ps == v5.powerups;
      UpdateProjectiles(powerups, now);
      assert powerups.Items() == Advance(ps, d);
      assert bullets.Items() == Advance(v5.bullets, d) && horde.Items() == v5.aliens;
      assert Snapshot() == View(v5.ship, v5.enemyShip, v5.aliens, v5.hordeIds, v5.hordeLeft, v5.lastAlive,
                                Advance(v5.bullets, d), Advance(v5.powerups, d), v5.hot);
    }

    /** updateProjectiles on `projectiles` (the bullets or the powerups) */
    method UpdateProjectiles(projectiles: EntityList, now: real)
      requires Valid() && (projectiles == bullets || projectiles == powerups)
      modifies projectiles
      ensures Valid()
      ensures projectiles.Items() == Advance(old(projectiles.Items()), Travel(cold.projectileSpeed, hot, now))
    {
      var delta := Delta(hot, now);
      var shift := cold.projectileSpeed * delta;
      ghost var es := projectiles.Items();
      ghost var aliens := horde.Items();
      AdvanceProjectiles(projectiles, shift);
      assert horde.Items() == aliens;
      assert projectiles.Items() == Advance(es, shift);
      assert shift == Travel(cold.projectileSpeed, hot, now);
      assert es == old(projectiles.Items());
    }

    /** updateMenu */
    method UpdateMenu()
      requires Valid()
      modifies this
      ensures Valid() && Snapshot() == old(Snapshot()).(hot := MenuAfter(old(hot)))
    {
      if hot.gameState == Menu {
        if hot.input.up || hot.input.down {
          if hot.menuButton == Start {
            hot := hot.(menuButton := Quit);
          } else {
            hot := hot.(menuButton := Start);
          }
        }
      } else if hot.gameState == Win || hot.gameState == Lose {
        if hot.input.up || hot.input.down {
          if hot.menuButton == Restart {
            hot := hot.(menuButton := Quit);
          } else {
            hot := hot.(menuButton := Restart);
          }
        }
      }
    }

    /** updateGameState */
    method UpdateGameState()
      requires Valid()
      modifies this
      ensures Valid() && Snapshot() == old(Snapshot()).(hot := GameStateAfter(old(hot)))
    {
      var gameState := hot.gameState;
      if gameState == Playing {
        if hot.input.pause {
          hot := hot.(gameState := Menu);
        }
      }
      if gameState == Menu {
        if hot.input.select {
          if hot.menuButton == Start {
            hot := hot.(gameState := Playing);
          } else if StateCode(hot.gameState) == ButtonCode(Quit) {
            hot := hot.(gameState := Close);
          }
        }
      }
      if gameState == Win || gameState == Lose {
        if hot.input.select {
          if hot.menuButton == Restart {
            // the reboot is commented out in the source: nothing happens
          } else if hot.menuButton == Quit {
            hot := hot.(gameState := Close);
          }
        }
      }
    }
  }
}
