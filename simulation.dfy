/** The per-frame movers of lib/game.c (fire, updateShip, updateHorde, updateEnemyShip,
    updateProjectiles) as functions of a snapshot of the game, with their properties. The clock
    is a parameter `now`; a frame's delta is `now - hot.lastFrameTime`. rand() is a stream `rng`
    read from a cursor `k`. */
module Simulation {
  import opened Entities
  import opened EntityLists
  import opened GameData

  /** A snapshot of everything the update functions read or write: the two ships, the horde
      (entities and node handles, left sentinel, last-alive tracker), the bullets and powerups
      front to back, and the per-frame data. */
  datatype View = View(
    ship: Entity, enemyShip: Entity,
    aliens: seq<Entity>, hordeIds: seq<Handle>, hordeLeft: Handle, lastAlive: Handle,
    bullets: seq<Entity>, powerups: seq<Entity>, hot: HotGameData)

  /** The time since the last frame. */
  function Delta(hot: HotGameData, now: real): real {
    now - hot.lastFrameTime
  }

  /** How far something moving at `speed` travels in the frame. */
  function Travel(speed: real, hot: HotGameData, now: real): real {
    speed * Delta(hot, now)
  }

  function Sum(ds: seq<real>): real
    decreases |ds|
  {
    if |ds| == 0 then 0.0 else Sum(ds[..|ds| - 1]) + ds[|ds| - 1]
  }

  // ---- Powerup timers ----

  /** One frame of a powerup timer: an active timer loses `delta` and its flag clears once it
      reaches zero (lib/game.c:223-231). */
  function TickTimer(active: bool, remaining: real, delta: real): (bool, real) {
    if active then
      var left := remaining - delta;
      if left <= 0.0 then (false, left) else (true, left)
    else (active, remaining)
  }

  /** A timer over several frames. */
  function Ticks(active: bool, remaining: real, ds: seq<real>): (bool, real)
    decreases |ds|
  {
    if |ds| == 0 then (active, remaining)
    else
      var prev := Ticks(active, remaining, ds[..|ds| - 1]);
      TickTimer(prev.0, prev.1, ds[|ds| - 1])
  }

  /** With non-negative frame times, a running timer (it always has time left: a pickup sets it
      to the full duration and a tick clears it at zero) is still running after a run of frames exactly
      when it was running and the frames add up to less than the time it had left, and it then
      reads that time minus the frames. */
  lemma {:induction false} TimerRunsOut(active: bool, remaining: real, ds: seq<real>)
    requires forall i :: 0 <= i < |ds| ==> ds[i] >= 0.0
    requires active ==> remaining > 0.0
    ensures Ticks(active, remaining, ds).0 <==> active && remaining - Sum(ds) > 0.0
    ensures Ticks(active, remaining, ds).0 ==> Ticks(active, remaining, ds).1 == remaining - Sum(ds)
    decreases |ds|
  {
    if |ds| > 0 {
      var init := ds[..|ds| - 1];
      assert forall i :: 0 <= i < |init| ==> init[i] == ds[i];
      TimerRunsOut(active, remaining, init);
      var d := ds[|ds| - 1];
      assert Sum(ds) == Sum(init) + d && d >= 0.0;
      var prev := Ticks(active, remaining, init);
      assert Ticks(active, remaining, ds) == TickTimer(prev.0, prev.1, d);
      if prev.0 {
        assert prev.1 - d == remaining - Sum(ds);
      } else {
        assert !active || remaining - Sum(init) <= 0.0;
        assert !Ticks(active, remaining, ds).0;
      }
    }
  }

  /** Both powerup timers of updateShip. */
  function TickTimers(hot: HotGameData, delta: real): (r: HotGameData)
    ensures r == hot.(fastShotActive := r.fastShotActive, fastShotRemainingTime := r.fastShotRemainingTime,
                      fastMoveActive := r.fastMoveActive, fastMoveRemainingTime := r.fastMoveRemainingTime)
    ensures (r.fastShotActive, r.fastShotRemainingTime) == TickTimer(hot.fastShotActive, hot.fastShotRemainingTime, delta)
    ensures (r.fastMoveActive, r.fastMoveRemainingTime) == TickTimer(hot.fastMoveActive, hot.fastMoveRemainingTime, delta)
  {
    var shot := TickTimer(hot.fastShotActive, hot.fastShotRemainingTime, delta);
    var move := TickTimer(hot.fastMoveActive, hot.fastMoveRemainingTime, delta);
    hot.(fastShotActive := shot.0, fastShotRemainingTime := shot.1,
         fastMoveActive := move.0, fastMoveRemainingTime := move.1)
  }

  // ---- The player's ship ----

  /** The ship's new x after a frame: right first, clamped so the right edge stops at limit 1,
      then left, clamped at limit 0 (lib/game.c:233-263). */
  function ShipX(x: real, width: real, input: Input, step: real, limits: (real, real)): (r: real)
    ensures !input.left && !input.right ==> r == x
  {
    var x1 :=
      if input.right then
        if x + width + step >= limits.1 then limits.1 - width else x + step
      else x;
    if input.left then
      if x1 - step <= limits.0 then limits.0 else x1 - step
    else x1
  }

  /** A ship inside the play field stays inside it, whatever the input, for a step of
      non-negative length. */
  lemma ShipStaysInField(x: real, width: real, input: Input, step: real, limits: (real, real))
    requires limits.0 <= x <= limits.1 - width && step >= 0.0
    ensures limits.0 <= ShipX(x, width, input, step, limits) <= limits.1 - width
  {
  }

  /** A free move (far from both limits) displaces the ship by the step to the right, to the left
      or, when both are held, not at all. */
  lemma ShipMovesByStep(x: real, width: real, input: Input, step: real, limits: (real, real))
    requires step >= 0.0 && limits.0 + step < x && x + width + step < limits.1
    ensures input.right && !input.left ==> ShipX(x, width, input, step, limits) == x + step
    ensures input.left && !input.right ==> ShipX(x, width, input, step, limits) == x - step
    ensures input.left && input.right ==> ShipX(x, width, input, step, limits) == x
  {
  }

  /** The mode whose tuning entry applies. */
  function Mode(buffed: bool): ShipMode {
    if buffed then Buffed else Regular
  }

  /** The bullet a ship fires from its top centre, going up. */
  function UpShot(e: Entity): Entity {
    BulletEntity(e.bounds.x + e.bounds.width / 2.0, e.bounds.y, true)
  }

  /** The bullet the boss or an alien drops from its bottom centre, going down. */
  function DownShot(e: Entity): Entity {
    BulletEntity(e.bounds.x + e.bounds.width / 2.0, e.bounds.y + e.bounds.height, false)
  }

  /** fire(game, e): the player's ship and the boss fire only once their delay has passed since
      their last shot (the ship's delay depends on fast shot) and then record `now`; any other
      entity (an alien) fires unconditionally. */
  function FireSpec(v: View, e: Entity, cold: ColdGameData, now: real): (r: View)
    ensures r == v.(bullets := r.bullets, hot := r.hot)
    ensures r.bullets == v.bullets || r.bullets == [if e.kind == PlayerShip then UpShot(e) else DownShot(e)] + v.bullets
    ensures e.kind == PlayerShip ==>
      (r.bullets != v.bullets <==> now - v.hot.shipLastShotTime > ShipDelayToFire(cold, Mode(v.hot.fastShotActive)))
      && r.hot == (if r.bullets != v.bullets then v.hot.(shipLastShotTime := now) else v.hot)
    ensures e.kind == EnemyShip ==>
      (r.bullets != v.bullets <==> now - v.hot.enemyShipLastShotTime > cold.enemyShipDelayToFire)
      && r.hot == (if r.bullets != v.bullets then v.hot.(enemyShipLastShotTime := now) else v.hot)
    ensures e.kind != PlayerShip && e.kind != EnemyShip ==> r.bullets != v.bullets && r.hot == v.hot
  {
    if e.kind == PlayerShip then
      var delayToFire := ShipDelayToFire(cold, Mode(v.hot.fastShotActive));
      if now - v.hot.shipLastShotTime > delayToFire then
        v.(bullets := [UpShot(e)] + v.bullets, hot := v.hot.(shipLastShotTime := now))
      else v
    else if e.kind == EnemyShip then
      if now - v.hot.enemyShipLastShotTime > cold.enemyShipDelayToFire then
        v.(bullets := [DownShot(e)] + v.bullets, hot := v.hot.(enemyShipLastShotTime := now))
      else v
    else v.(bullets := [DownShot(e)] + v.bullets)
  }

  /** updateShip: timers, movement at the speed of the mode left by the timers, then fire. */
  function ShipSpec(v: View, cold: ColdGameData, now: real): (r: View)
    ensures v.hot.gameState != Playing ==> r == v
    ensures r == v.(ship := r.ship, bullets := r.bullets, hot := r.hot)
    ensures r.ship == v.ship.(bounds := v.ship.bounds.(x := r.ship.bounds.x))
    ensures |r.bullets| <= |v.bullets| + 1
    ensures r.hot.gameState == v.hot.gameState && r.hot.menuButton == v.hot.menuButton
  {
    if v.hot.gameState != Playing then v
    else
      var delta := Delta(v.hot, now);
      var hot := TickTimers(v.hot, delta);
      var step := ShipSpeed(cold, Mode(hot.fastMoveActive)) * delta;
      var x := ShipX(v.ship.bounds.x, v.ship.bounds.width, hot.input, step, cold.screenLimits);
      var moved := v.(ship := v.ship.(bounds := v.ship.bounds.(x := x)), hot := hot);
      if hot.input.fire then FireSpec(moved, moved.ship, cold, now) else moved
  }

  /** The ship's new x is ShipX at the speed of the mode fast move has after the timer step. */
  lemma ShipSpecX(v: View, cold: ColdGameData, now: real)
    requires v.hot.gameState == Playing
    ensures ShipSpec(v, cold, now).ship.bounds.x ==
      ShipX(v.ship.bounds.x, v.ship.bounds.width, v.hot.input,
            ShipSpeed(cold, Mode(TickTimers(v.hot, Delta(v.hot, now)).fastMoveActive)) * Delta(v.hot, now),
            cold.screenLimits)
  {
    var hot := TickTimers(v.hot, Delta(v.hot, now));
    assert hot.input == v.hot.input;
  }

  /** With a non-negative frame time, a ship inside the play field stays inside it, and it moves
      at the buffed speed exactly when fast move is still on after the timer step. */
  lemma ShipFrame(v: View, cold: ColdGameData, now: real)
    requires v.hot.gameState == Playing && Delta(v.hot, now) >= 0.0 && ShipSpeed(cold, Regular) >= 0.0 && ShipSpeed(cold, Buffed) >= 0.0
    requires cold.screenLimits.0 <= v.ship.bounds.x <= cold.screenLimits.1 - v.ship.bounds.width
    ensures cold.screenLimits.0 <= ShipSpec(v, cold, now).ship.bounds.x <= cold.screenLimits.1 - v.ship.bounds.width
    ensures ShipSpec(v, cold, now).ship.bounds.x ==
      ShipX(v.ship.bounds.x, v.ship.bounds.width, v.hot.input,
            ShipSpeed(cold, Mode(TickTimers(v.hot, Delta(v.hot, now)).fastMoveActive)) * Delta(v.hot, now),
            cold.screenLimits)
  {
    ShipSpecX(v, cold, now);
    var speed := ShipSpeed(cold, Mode(TickTimers(v.hot, Delta(v.hot, now)).fastMoveActive));
    assert speed >= 0.0;
    StepNonNegative(speed, Delta(v.hot, now));
    ShipStaysInField(v.ship.bounds.x, v.ship.bounds.width, v.hot.input, speed * Delta(v.hot, now), cold.screenLimits);
  }

  /** A speed and a frame time that are both non-negative make a non-negative step. */
  lemma StepNonNegative(speed: real, delta: real)
    requires speed >= 0.0 && delta >= 0.0
    ensures speed * delta >= 0.0
  {
  }

  /** Firing needs the delay of the mode left by the timer step to have passed since the last
      shot; a shot resets the last-shot time to `now` and adds one upward bullet. */
  lemma ShipFireCooldown(v: View, cold: ColdGameData, now: real)
    requires v.hot.gameState == Playing && v.ship.kind == PlayerShip
    ensures var hot := TickTimers(v.hot, Delta(v.hot, now));
      var fires := v.hot.input.fire && now - v.hot.shipLastShotTime > ShipDelayToFire(cold, Mode(hot.fastShotActive));
      && (fires ==> |ShipSpec(v, cold, now).bullets| == |v.bullets| + 1
                    && ShipSpec(v, cold, now).bullets[0].up
                    && ShipSpec(v, cold, now).bullets[1..] == v.bullets
                    && ShipSpec(v, cold, now).hot.shipLastShotTime == now)
      && (!fires ==> ShipSpec(v, cold, now).bullets == v.bullets
                     && ShipSpec(v, cold, now).hot.shipLastShotTime == v.hot.shipLastShotTime)
  {
  }

  // ---- The horde ----

  /** The largest x of a non-empty horde. */
  function MaxX(es: seq<Entity>): real
    requires |es| > 0
    decreases |es|
  {
    if |es| == 1 then es[0].bounds.x
    else
      var m := MaxX(es[..|es| - 1]);
      if es[|es| - 1].bounds.x > m then es[|es| - 1].bounds.x else m
  }

  /** The smallest x of a non-empty horde. */
  function MinX(es: seq<Entity>): real
    requires |es| > 0
    decreases |es|
  {
    if |es| == 1 then es[0].bounds.x
    else
      var m := MinX(es[..|es| - 1]);
      if es[|es| - 1].bounds.x < m then es[|es| - 1].bounds.x else m
  }

  /** MaxX bounds every alien's x and is some alien's x. */
  lemma {:induction false} MaxXIsMaximum(es: seq<Entity>)
    requires |es| > 0
    ensures forall i :: 0 <= i < |es| ==> es[i].bounds.x <= MaxX(es)
    ensures exists i :: 0 <= i < |es| && es[i].bounds.x == MaxX(es)
    decreases |es|
  {
    if |es| > 1 {
      var init := es[..|es| - 1];
      MaxXIsMaximum(init);
      assert forall i :: 0 <= i < |init| ==> init[i] == es[i];
      var i :| 0 <= i < |init| && init[i].bounds.x == MaxX(init);
      if es[|es| - 1].bounds.x <= MaxX(init) {
        assert es[i].bounds.x == MaxX(es);
      } else {
        assert es[|es| - 1].bounds.x == MaxX(es);
      }
    } else {
      assert es[0].bounds.x == MaxX(es);
    }
  }

  /** MinX bounds every alien's x from below and is some alien's x. */
  lemma {:induction false} MinXIsMinimum(es: seq<Entity>)
    requires |es| > 0
    ensures forall i :: 0 <= i < |es| ==> MinX(es) <= es[i].bounds.x
    ensures exists i :: 0 <= i < |es| && es[i].bounds.x == MinX(es)
    decreases |es|
  {
    if |es| > 1 {
      var init := es[..|es| - 1];
      MinXIsMinimum(init);
      assert forall i :: 0 <= i < |init| ==> init[i] == es[i];
      var i :| 0 <= i < |init| && init[i].bounds.x == MinX(init);
      if es[|es| - 1].bounds.x >= MinX(init) {
        assert es[i].bounds.x == MinX(es);
      } else {
        assert es[|es| - 1].bounds.x == MinX(es);
      }
    } else {
      assert es[0].bounds.x == MinX(es);
    }
  }

  /** The node after the left sentinel: the first alien, or the right sentinel of an empty horde. */
  function Front(aliens: seq<Entity>): Entity {
    if |aliens| > 0 then aliens[0] else SentinelEntity
  }

  /** What the scan loop of updateHorde finds: it starts from the front node, so an empty horde
      yields the right sentinel's x. */
  function ScanMaxX(aliens: seq<Entity>): real {
    if |aliens| > 0 then MaxX(aliens) else Front(aliens).bounds.x
  }

  function ScanMinX(aliens: seq<Entity>): real {
    if |aliens| > 0 then MinX(aliens) else Front(aliens).bounds.x
  }

  /** The outcome of updateHorde's edge test: how far every alien moves in x, whether the
      horde also steps down, and the new signed speed. */
  datatype HordeMove = HordeMove(maxMovement: real, changeDirection: bool, speed: real)

  /** The edge test of updateHorde (lib/game.c:278-307), as written: neither flip clamps the
      horde to the edge. */
  function HordeMotion(aliens: seq<Entity>, speed: real, delta: real, cold: ColdGameData): (m: HordeMove)
    ensures !m.changeDirection ==> m.speed == speed && m.maxMovement == speed * delta
    ensures m.changeDirection && speed > 0.0 ==>
      m.maxMovement == 2.0 * speed * delta - cold.screenLimits.1 + ScanMaxX(aliens) + Front(aliens).bounds.width
    ensures m.changeDirection && speed <= 0.0 ==> m.maxMovement == ScanMinX(aliens) - cold.screenLimits.0
  {
    if speed > 0.0 then
      var maxPositionX := ScanMaxX(aliens);
      var width := Front(aliens).bounds.width;
      if maxPositionX + speed * delta + width >= cold.screenLimits.1 then
        HordeMove(2.0 * speed * delta - cold.screenLimits.1 + maxPositionX + width, true, -speed - cold.hordeSpeedIncrease)
      else HordeMove(speed * delta, false, speed)
    else
      var minPositionX := ScanMinX(aliens);
      if minPositionX + speed * delta <= cold.screenLimits.0 then
        HordeMove(minPositionX - cold.screenLimits.0, true, -speed + cold.hordeSpeedIncrease)
      else HordeMove(speed * delta, false, speed)
  }

  function Abs(r: real): real {
    if r < 0.0 then -r else r
  }

  /** A flip happens exactly when the planned move would reach the edge in the direction of
      travel; it reverses the direction and adds the increase to the speed's magnitude. */
  lemma FlipReversesAndSpeedsUp(aliens: seq<Entity>, speed: real, delta: real, cold: ColdGameData)
    requires cold.hordeSpeedIncrease >= 0.0
    ensures var m := HordeMotion(aliens, speed, delta, cold);
      m.changeDirection <==>
        if speed > 0.0 then ScanMaxX(aliens) + speed * delta + Front(aliens).bounds.width >= cold.screenLimits.1
        else ScanMinX(aliens) + speed * delta <= cold.screenLimits.0
    ensures var m := HordeMotion(aliens, speed, delta, cold);
      m.changeDirection ==>
        (Abs(m.speed) == Abs(speed) + cold.hordeSpeedIncrease && (speed > 0.0 ==> m.speed < 0.0)
         && (speed < 0.0 ==> m.speed > 0.0))
  {
  }

  /** Neither flip clamps the horde to the edge. A right flip moves the horde's right edge (its
      rightmost alien, with the front alien's width) to limit 1 plus twice the planned overshoot,
      so it ends at or past limit 1. A left flip of a horde inside the field moves it right, away
      from limit 0, by its distance from that limit. */
  lemma FlipOvershoots(aliens: seq<Entity>, speed: real, delta: real, cold: ColdGameData)
    requires |aliens| > 0
    ensures var m := HordeMotion(aliens, speed, delta, cold);
      m.changeDirection && speed > 0.0 ==>
        && MaxX(aliens) + m.maxMovement + aliens[0].bounds.width
           == cold.screenLimits.1 + 2.0 * (MaxX(aliens) + speed * delta + aliens[0].bounds.width - cold.screenLimits.1)
        && MaxX(aliens) + m.maxMovement + aliens[0].bounds.width >= cold.screenLimits.1
    ensures var m := HordeMotion(aliens, speed, delta, cold);
      m.changeDirection && speed <= 0.0 && cold.screenLimits.0 <= MinX(aliens) ==>
        && m.maxMovement == MinX(aliens) - cold.screenLimits.0 >= 0.0
        && MinX(aliens) + m.maxMovement >= cold.screenLimits.0
  {
  }

  /** The right-edge flip does not clamp: a lone alien 5 units short of its reach at 150 units/s
      over 0.1 s ends 14 units past the right limit. */
  lemma RightFlipOvershoots()
    ensures var aliens := [AlienAt(10).(bounds := AlienAt(10).bounds.(x := 1630.0))];
      var m := HordeMotion(aliens, 150.0, 0.1, InitialColdData);
      m.changeDirection && m.maxMovement == 22.0 && 1630.0 + m.maxMovement + 32.0 > InitialColdData.screenLimits.1
  {
  }

  /** An alien after the horde's move. */
  function Shifted(e: Entity, m: HordeMove, cold: ColdGameData): Entity {
    var x := e.bounds.x + m.maxMovement;
    var y := if m.changeDirection then e.bounds.y + cold.hordeStepY else e.bounds.y;
    e.(bounds := e.bounds.(x := x, y := y))
  }

  /** Every alien of `aliens` after the horde's move. */
  function ShiftAll(aliens: seq<Entity>, m: HordeMove, cold: ColdGameData): (r: seq<Entity>)
    ensures |r| == |aliens|
  {
    seq(|aliens|, i requires 0 <= i < |aliens| => Shifted(aliens[i], m, cold))
  }

  /** The bullets after the aliens of `aliens` each draw once from `rng` (from cursor `k`) and
      fire on a draw below 10 (mod 100000), each new bullet going to the front. */
  function Volley(bullets: seq<Entity>, aliens: seq<Entity>, rng: nat -> nat, k: nat): seq<Entity>
    decreases |aliens|
  {
    if |aliens| == 0 then bullets
    else
      var prev := Volley(bullets, aliens[..|aliens| - 1], rng, k);
      if rng(k + |aliens| - 1) % 100000 < 10 then [DownShot(aliens[|aliens| - 1])] + prev else prev
  }

  /** The volley puts at most one new downward bullet per alien in front of the old bullets. */
  lemma {:induction false} VolleyPrepends(bullets: seq<Entity>, aliens: seq<Entity>, rng: nat -> nat, k: nat)
    ensures var r := Volley(bullets, aliens, rng, k);
      && |bullets| <= |r| <= |bullets| + |aliens|
      && r[|r| - |bullets|..] == bullets
      && forall i :: 0 <= i < |r| - |bullets| ==> r[i].kind == Bullet && !r[i].up
    decreases |aliens|
  {
    if |aliens| > 0 {
      VolleyPrepends(bullets, aliens[..|aliens| - 1], rng, k);
    }
  }

  /** Shifting one more alien of a partly shifted horde. */
  lemma ShiftStep(aliens: seq<Entity>, i: nat, m: HordeMove, cold: ColdGameData)
    requires i < |aliens|
    ensures (ShiftAll(aliens[..i], m, cold) + aliens[i..])[i := Shifted(aliens[i], m, cold)]
            == ShiftAll(aliens[..i + 1], m, cold) + aliens[i + 1..]
  {
    var a := (ShiftAll(aliens[..i], m, cold) + aliens[i..])[i := Shifted(aliens[i], m, cold)];
    var b := ShiftAll(aliens[..i + 1], m, cold) + aliens[i + 1..];
    assert |a| == |b|;
    forall j | 0 <= j < |a| ensures a[j] == b[j] {
      if j < i {
        assert aliens[..i][j] == aliens[..i + 1][j];
      } else if j > i {
        assert a[j] == aliens[i..][j - i] == aliens[j] == aliens[i + 1..][j - i - 1];
      }
    }
  }

  /** updateHorde's move loop, once it has visited every alien. */
  lemma ShiftLoopDone(aliens: seq<Entity>, i: nat, m: HordeMove, cold: ColdGameData,
                      bullets: seq<Entity>, rng: nat -> nat, k: nat)
    requires i == |aliens|
    ensures ShiftAll(aliens[..i], m, cold) + aliens[i..] == ShiftAll(aliens, m, cold)
    ensures Volley(bullets, aliens[..i], rng, k) == Volley(bullets, aliens, rng, k)
  {
    assert aliens[..i] == aliens && aliens[i..] == [];
  }

  /** The volley of one more alien. */
  lemma VolleyStep(bullets: seq<Entity>, aliens: seq<Entity>, i: nat, rng: nat -> nat, k: nat)
    requires i < |aliens|
    ensures Volley(bullets, aliens[..i + 1], rng, k)
            == if rng(k + i) % 100000 < 10 then [DownShot(aliens[i])] + Volley(bullets, aliens[..i], rng, k)
               else Volley(bullets, aliens[..i], rng, k)
  {
    assert aliens[..i + 1][..i] == aliens[..i];
  }

  /** updateHorde: every alien draws for a shot (from its position before the move), then moves. */
  function HordeSpec(v: View, cold: ColdGameData, now: real, rng: nat -> nat, k: nat): (r: (View, nat))
    ensures v.hot.gameState != Playing ==> r == (v, k)
    ensures r.0 == v.(aliens := r.0.aliens, bullets := r.0.bullets, hot := r.0.hot)
    ensures r.0.hot == v.hot.(hordeSpeed := r.0.hot.hordeSpeed)
    ensures |r.0.aliens| == |v.aliens|
  {
    if v.hot.gameState != Playing then (v, k)
    else
      var m := HordeMotion(v.aliens, v.hot.hordeSpeed, Delta(v.hot, now), cold);
      (v.(aliens := ShiftAll(v.aliens, m, cold), bullets := Volley(v.bullets, v.aliens, rng, k), hot := v.hot.(hordeSpeed := m.speed)),
       k + |v.aliens|)
  }

  /** The horde moves as one block: every alien moves by the same amount in x and steps down by
      hordeStepY iff the direction changed, so all distances between aliens are kept; nothing
      else about an alien changes. */
  lemma HordeMovesAsBlock(v: View, cold: ColdGameData, now: real, rng: nat -> nat, k: nat)
    requires v.hot.gameState == Playing
    ensures var m := HordeMotion(v.aliens, v.hot.hordeSpeed, Delta(v.hot, now), cold);
      var a := HordeSpec(v, cold, now, rng, k).0.aliens;
      && (forall i :: 0 <= i < |a| ==> a[i].bounds.x == v.aliens[i].bounds.x + m.maxMovement)
      && (forall i :: 0 <= i < |a| ==>
            a[i].bounds.y == v.aliens[i].bounds.y + (if m.changeDirection then cold.hordeStepY else 0.0))
      && (forall i, j :: 0 <= i < |a| && 0 <= j < |a| ==>
            a[i].bounds.x - a[j].bounds.x == v.aliens[i].bounds.x - v.aliens[j].bounds.x
            && a[i].bounds.y - a[j].bounds.y == v.aliens[i].bounds.y - v.aliens[j].bounds.y)
      && (forall i :: 0 <= i < |a| ==>
            a[i].bounds.width == v.aliens[i].bounds.width && a[i].bounds.height == v.aliens[i].bounds.height
            && a[i].kind == v.aliens[i].kind && a[i].alienType == v.aliens[i].alienType)
  {
  }

  // ---- The boss ----

  /** The right end of the boss's patrol, fixed in the source. */
  const BossTurnX: real := 1920.0

  /** One step of the boss's patrol by `move`: left to limit 0, where it turns, or right to
      BossTurnX, where it turns, goes dormant and resets its alarm. */
  function PatrolStep(v: View, move: real, cold: ColdGameData): (r: View)
    ensures r == v.(enemyShip := r.enemyShip, hot := r.hot)
    ensures r.enemyShip == v.enemyShip.(bounds := v.enemyShip.bounds.(x := r.enemyShip.bounds.x))
  {
    var b := v.enemyShip.bounds;
    if v.hot.enemyShipGoingLeft then
      if b.x - move <= cold.screenLimits.0 then
        v.(enemyShip := v.enemyShip.(bounds := b.(x := cold.screenLimits.0)), hot := v.hot.(enemyShipGoingLeft := false))
      else v.(enemyShip := v.enemyShip.(bounds := b.(x := b.x - move)))
    else
      if b.x + move >= BossTurnX then
        v.(enemyShip := v.enemyShip.(bounds := b.(x := BossTurnX)),
           hot := v.hot.(enemyShipGoingLeft := true, remainingTimeEnemyShipAlarm := cold.enemyShipSleepTime,
                         enemyShipActive := false))
      else v.(enemyShip := v.enemyShip.(bounds := b.(x := b.x + move)))
  }

  /** updateEnemyShip: the dormancy alarm, or one step of the patrol (firing first), or nothing
      once defeated. */
  function BossSpec(v: View, cold: ColdGameData, now: real): (r: View)
    ensures r == v.(enemyShip := r.enemyShip, bullets := r.bullets, hot := r.hot)
    ensures r.enemyShip == v.enemyShip.(bounds := v.enemyShip.bounds.(x := r.enemyShip.bounds.x))
  {
    var hot := v.hot;
    if !hot.enemyShipDefeated && !hot.enemyShipActive then
      var alarm := hot.remainingTimeEnemyShipAlarm - Delta(hot, now);
      v.(hot := hot.(remainingTimeEnemyShipAlarm := alarm, enemyShipActive := alarm <= 0.0))
    else if hot.enemyShipActive && !hot.enemyShipDefeated then
      PatrolStep(FireSpec(v, v.enemyShip, cold, now), cold.enemyShipSpeed * Delta(hot, now), cold)
    else v
  }

  /** A defeated boss never changes again. */
  lemma DefeatedBossIsFrozen(v: View, cold: ColdGameData, now: real)
    requires v.hot.enemyShipDefeated
    ensures BossSpec(v, cold, now) == v
  {
  }

  /** The dormancy alarm is a timer: the boss stays dormant while the alarm is running and wakes
      in the frame it runs out, so over frames of non-negative length it wakes exactly when they
      add up to the alarm's time. */
  lemma BossAlarmIsTimer(v: View, cold: ColdGameData, now: real)
    requires !v.hot.enemyShipDefeated && !v.hot.enemyShipActive
    ensures var t := TickTimer(true, v.hot.remainingTimeEnemyShipAlarm, Delta(v.hot, now));
      var r := BossSpec(v, cold, now);
      && r.hot.enemyShipActive == !t.0 && r.hot.remainingTimeEnemyShipAlarm == t.1
      && r.enemyShip == v.enemyShip && r.bullets == v.bullets
      && r.hot == v.hot.(enemyShipActive := !t.0, remainingTimeEnemyShipAlarm := t.1)
  {
  }

  /** An active boss inside its lane [screenLimits[0], 1920] stays inside it; reaching the left
      end turns it right, reaching the right end puts it back to sleep for enemyShipSleepTime. */
  lemma BossPatrolsLane(v: View, cold: ColdGameData, now: real)
    requires v.hot.enemyShipActive && !v.hot.enemyShipDefeated
    requires cold.screenLimits.0 <= v.enemyShip.bounds.x <= BossTurnX
    requires cold.enemyShipSpeed * Delta(v.hot, now) >= 0.0 && cold.screenLimits.0 <= BossTurnX
    ensures var r := BossSpec(v, cold, now);
      && cold.screenLimits.0 <= r.enemyShip.bounds.x <= BossTurnX
      && (r.enemyShip.bounds.x == cold.screenLimits.0 && v.hot.enemyShipGoingLeft ==> !r.hot.enemyShipGoingLeft)
      && (!r.hot.enemyShipActive ==>
            r.enemyShip.bounds.x == BossTurnX && r.hot.enemyShipGoingLeft
            && r.hot.remainingTimeEnemyShipAlarm == cold.enemyShipSleepTime)
  {
  }

  /** The patrol step of an active, undefeated boss, case by case, with the move its speed makes
      over the frame. Going right, reaching 1920 parks it there heading left, asleep, with the alarm
      reset to enemyShipSleepTime; going left, reaching limit 0 clamps it there heading right;
      otherwise it moves by the move in its direction and its direction and activity are kept. */
  lemma BossPatrolCases(v: View, cold: ColdGameData, now: real)
    requires v.hot.enemyShipActive && !v.hot.enemyShipDefeated
    ensures var move := cold.enemyShipSpeed * Delta(v.hot, now); var x := v.enemyShip.bounds.x;
      var r := BossSpec(v, cold, now);
      !v.hot.enemyShipGoingLeft && x + move >= BossTurnX ==>
        && r.enemyShip.bounds.x == BossTurnX && r.hot.enemyShipGoingLeft && !r.hot.enemyShipActive
        && r.hot.remainingTimeEnemyShipAlarm == cold.enemyShipSleepTime
    ensures var move := cold.enemyShipSpeed * Delta(v.hot, now); var x := v.enemyShip.bounds.x;
      var r := BossSpec(v, cold, now);
      v.hot.enemyShipGoingLeft && x - move <= cold.screenLimits.0 ==>
        && r.enemyShip.bounds.x == cold.screenLimits.0 && !r.hot.enemyShipGoingLeft && r.hot.enemyShipActive
        && r.hot.remainingTimeEnemyShipAlarm == v.hot.remainingTimeEnemyShipAlarm
    ensures var move := cold.enemyShipSpeed * Delta(v.hot, now); var x := v.enemyShip.bounds.x;
      var r := BossSpec(v, cold, now);
      !v.hot.enemyShipGoingLeft && x + move < BossTurnX ==>
        && r.enemyShip.bounds.x == x + move && !r.hot.enemyShipGoingLeft && r.hot.enemyShipActive
        && r.hot.remainingTimeEnemyShipAlarm == v.hot.remainingTimeEnemyShipAlarm
    ensures var move := cold.enemyShipSpeed * Delta(v.hot, now); var x := v.enemyShip.bounds.x;
      var r := BossSpec(v, cold, now);
      v.hot.enemyShipGoingLeft && x - move > cold.screenLimits.0 ==>
        && r.enemyShip.bounds.x == x - move && r.hot.enemyShipGoingLeft && r.hot.enemyShipActive
        && r.hot.remainingTimeEnemyShipAlarm == v.hot.remainingTimeEnemyShipAlarm
  {
  }

  // ---- Projectiles ----

  /** A projectile after moving `d` along its direction (up is towards y = 0). */
  function Moved(e: Entity, d: real): Entity {
    e.(bounds := e.bounds.(y := if e.up then e.bounds.y - d else e.bounds.y + d))
  }

  /** The pruning test of updateProjectiles, as written: below 1080, or top less than its own
      height. */
  predicate OffScreen(e: Entity) {
    e.bounds.y > 1080.0 || e.bounds.y - e.bounds.height < 0.0
  }

  /** updateProjectiles on a list's entities: each moves by `d`, and those that end off screen are
      dropped. */
  function Advance(es: seq<Entity>, d: real): (r: seq<Entity>)
    ensures |r| <= |es|
    ensures forall i :: 0 <= i < |r| ==> !OffScreen(r[i])
    decreases |es|
  {
    if |es| == 0 then []
    else
      var e := Moved(es[|es| - 1], d);
      Advance(es[..|es| - 1], d) + (if OffScreen(e) then [] else [e])
  }

  /** Advancing one more projectile. */
  lemma AdvanceStep(es: seq<Entity>, i: nat, d: real)
    requires i < |es|
    ensures Advance(es[..i + 1], d)
            == Advance(es[..i], d) + (if OffScreen(Moved(es[i], d)) then [] else [Moved(es[i], d)])
  {
    assert es[..i + 1][..i] == es[..i];
  }

  /** The list updateProjectiles holds once its loop has visited every projectile. */
  lemma AdvanceLoopDone(es: seq<Entity>, i: nat, d: real)
    requires i == |es|
    ensures Advance(es[..i], d) + es[i..] == Advance(es, d)
  {
    assert es[..i] == es;
  }

  /** The list updateProjectiles holds after one more turn of its loop, from `items`: the
      advanced prefix followed by the projectiles not yet visited. */
  lemma AdvanceLoopStep(es: seq<Entity>, i: nat, d: real, items: seq<Entity>)
    requires i < |es| && items == Advance(es[..i], d) + es[i..]
    ensures var e := Moved(es[i], d); var q := |Advance(es[..i], d)|;
      && q < |items| && items[q] == es[i]
      && (OffScreen(e) ==> items[..q] + items[q + 1..] == Advance(es[..i + 1], d) + es[i + 1..]
                           && |Advance(es[..i + 1], d)| == q)
      && (!OffScreen(e) ==> items[q := e] == Advance(es[..i + 1], d) + es[i + 1..]
                            && |Advance(es[..i + 1], d)| == q + 1)
  {
    AdvanceStep(es, i, d);
    var R := Advance(es[..i], d);
    var q := |R|;
    assert items[q] == es[i..][0] == es[i];
    if OffScreen(Moved(es[i], d)) {
      assert items[..q] == R;
      assert items[q + 1..] == es[i + 1..];
    } else {
      var e := Moved(es[i], d);
      var a := items[q := e];
      var b := R + [e] + es[i + 1..];
      assert |a| == |b|;
      forall j | 0 <= j < |a| ensures a[j] == b[j] {
        if j > q {
          assert a[j] == es[i..][j - q] == es[i + 1..][j - q - 1];
        }
      }
    }
  }

  /** An entity is in the advanced list iff it is the move of an input entity that stays on
      screen. */
  lemma {:induction false} AdvanceMembers(es: seq<Entity>, d: real, e: Entity)
    ensures e in Advance(es, d) <==> exists i :: 0 <= i < |es| && e == Moved(es[i], d) && !OffScreen(e)
    decreases |es|
  {
    if |es| > 0 {
      var init := es[..|es| - 1];
      AdvanceMembers(init, d, e);
      if exists i :: 0 <= i < |es| && e == Moved(es[i], d) && !OffScreen(e) {
        var i :| 0 <= i < |es| && e == Moved(es[i], d) && !OffScreen(e);
        if i < |init| {
          assert init[i] == es[i];
        }
      }
      if exists i :: 0 <= i < |init| && e == Moved(init[i], d) && !OffScreen(e) {
        var i :| 0 <= i < |init| && e == Moved(init[i], d) && !OffScreen(e);
        assert es[i] == init[i];
      }
    }
  }

  /** Advancing is one independent decision per projectile: advancing a concatenation
      advances each part and keeps the parts' order (survivors keep their relative order). */
  lemma {:induction false} AdvanceAppend(a: seq<Entity>, b: seq<Entity>, d: real)
    ensures Advance(a + b, d) == Advance(a, d) + Advance(b, d)
    decreases |b|
  {
    if |b| == 0 {
      assert a + b == a;
    } else {
      var init := b[..|b| - 1];
      assert (a + b)[..|a + b| - 1] == a + init;
      assert (a + b)[|a + b| - 1] == b[|b| - 1];
      AdvanceAppend(a, init, d);
    }
  }
}
