/** Collision handling of lib/game.c: the box test detectCollision and the two sweeps of
    detectCollisions (bullets, then powerups), stated over the sequences of entities the lists
    hold. */
module Collisions {
  import opened Entities
  import opened EntityLists
  import opened GameData

  /** detectCollision as written: inclusive on every edge, and its lower y bound is
      `other.y + other.width` (the other box's width, not its height). */
  predicate DetectCollision(entity: Entity, other: Entity) {
    var a := entity.bounds;
    var b := other.bounds;
    && a.x <= b.x + b.width
    && a.x + a.width >= b.x
    && a.y <= b.y + b.width
    && a.y + a.height >= b.y
  }

  /** The usual closed axis-aligned box overlap. */
  predicate Overlap(a: Rectangle, b: Rectangle) {
    && a.x <= b.x + b.width && b.x <= a.x + a.width
    && a.y <= b.y + b.height && b.y <= a.y + a.height
  }

  /** Against a square box (every alien, every powerup) the test is the usual overlap. */
  lemma SquareOtherIsOverlap(entity: Entity, other: Entity)
    requires other.bounds.width == other.bounds.height
    ensures DetectCollision(entity, other) <==> Overlap(entity.bounds, other.bounds)
  {
  }

  /** Every box of non-negative size collides with itself. */
  lemma SelfCollision(e: Entity)
    requires e.bounds.width >= 0.0 && e.bounds.height >= 0.0
    ensures DetectCollision(e, e)
  {
  }

  /** A 4 x 32 downward bullet whose upper part overlaps the top of the ship is not seen by
      `detectCollision(ship, bullet)`: only the first 4 units below the bullet's top count. */
  lemma GrazingBulletMissesShip()
    ensures Overlap(InitialPlayerShip.bounds, BulletEntity(960.0, 880.0, false).bounds)
    ensures !DetectCollision(InitialPlayerShip, BulletEntity(960.0, 880.0, false))
  {
  }

  /** The index of the first alien, in list order, that the bullet collides with; |aliens| when
      there is none. */
  function FirstHit(bullet: Entity, aliens: seq<Entity>): (j: nat)
    ensures j <= |aliens|
    ensures forall i :: 0 <= i < j ==> !DetectCollision(bullet, aliens[i])
    ensures j < |aliens| ==> DetectCollision(bullet, aliens[j])
    decreases |aliens|
  {
    if |aliens| == 0 then 0
    else if DetectCollision(bullet, aliens[0]) then 0
    else 1 + FirstHit(bullet, aliens[1..])
  }

  /** `s` without its j-th element. */
  function Without<T>(s: seq<T>, j: nat): (r: seq<T>)
    requires j < |s|
    ensures |r| == |s| - 1
    ensures forall i :: 0 <= i < j ==> r[i] == s[i]
    ensures forall i :: j <= i < |r| ==> r[i] == s[i + 1]
  {
    s[..j] + s[j + 1..]
  }

  /** What the sweep has built so far: the horde (entities and node handles), the last-alive
      tracker, the bullets kept so far, the powerups, the per-frame data and the next rand()
      draw; `stopped` once the sweep has returned early. After that, the bullets not visited are
      still appended so that `bullets` ends as the whole list. */
  datatype Sweep = Sweep(
    aliens: seq<Entity>, ids: seq<Handle>, left: Handle, lastAlive: Handle,
    bullets: seq<Entity>, powerups: seq<Entity>, hot: HotGameData, k: nat, stopped: bool)

  /** The horde's entities and handles describe the same nodes. */
  predicate Matched(s: Sweep) {
    |s.ids| == |s.aliens|
  }

  /** The predecessor of the j-th content node: the left sentinel for the first one. */
  function PrevOf(s: Sweep, j: nat): Handle
    requires j < |s.ids|
  {
    if j == 0 then s.left else s.ids[j - 1]
  }

  /** The sweep after an alien hit that does not win, from `s` with the tracker already updated:
      the j-th alien leaves the horde and the powerup of kind roll `draw` drops, after the two
      rand() draws at `s.k` (the drop roll) and `s.k + 1` (the kind roll). */
  function Killed(s: Sweep, j: nat, draw: nat): Sweep
    requires Matched(s) && j < |s.aliens|
  {
    s.(aliens := Without(s.aliens, j), ids := Without(s.ids, j),
       powerups := [DropFrom(s.aliens[j], draw)] + s.powerups, k := s.k + 2)
  }

  /** The powerup generatePowerup drops below the middle of `e`, with kind drawn from `draw`. */
  function DropFrom(e: Entity, draw: nat): Entity {
    PowerupEntity(e.bounds.x + e.bounds.width / 2.0, e.bounds.y + e.bounds.height, draw)
  }

  /** The sweep after a bullet hits the boss, with the drop roll the rand() draw at `k` (the
      sweep's next draw): a powerup below the boss's middle on a roll below 15, with the kind
      roll drawn next, and the boss defeated. */
  function Defeated(s: Sweep, boss: Entity, k: nat, rng: nat -> nat): Sweep {
    var dropCheck := rng(k) % 100;
    var powerups := if dropCheck < 15 then [DropFrom(boss, rng(k + 1))] + s.powerups else s.powerups;
    s.(powerups := powerups, k := if dropCheck < 15 then k + 2 else k + 1,
       hot := s.hot.(enemyShipActive := false, enemyShipDefeated := true))
  }

  /** One pass of the bullet loop from `s` at bullet `b`. */
  function BulletStep(s: Sweep, b: Entity, ship: Entity, boss: Entity, rng: nat -> nat): (r: Sweep)
    requires Matched(s)
    ensures Matched(r) && r.left == s.left
    ensures s.stopped ==> r == s.(bullets := s.bullets + [b])
    ensures r.k >= s.k
  {
    if s.stopped then s.(bullets := s.bullets + [b])
    else if b.up then
      var j := FirstHit(b, s.aliens);
      if j < |s.aliens| then
        var alien := s.aliens[j];
        var dropCheck := rng(s.k) % 100;
        var lastAlive := if s.ids[j] == s.lastAlive then PrevOf(s, j) else s.lastAlive;
        if s.ids[j] == s.lastAlive && j == 0 then
          s.(lastAlive := lastAlive, hot := s.hot.(gameState := Win, menuButton := Restart),
             k := s.k + 1, stopped := true, bullets := s.bullets + [b])
        else
          var powerups := if dropCheck < 100 then [DropFrom(alien, rng(s.k + 1))] + s.powerups else s.powerups;
          var k := if dropCheck < 100 then s.k + 2 else s.k + 1;
          s.(aliens := Without(s.aliens, j), ids := Without(s.ids, j), lastAlive := lastAlive,
             powerups := powerups, k := k)
      else if DetectCollision(b, boss) then Defeated(s, boss, s.k, rng)
      else s.(bullets := s.bullets + [b])
    else if DetectCollision(ship, b) then
      s.(hot := s.hot.(gameState := Lose, menuButton := Restart), stopped := true)
    else s.(bullets := s.bullets + [b])
  }

  /** The bullet loop over the bullets `bs`, front to back. */
  function BulletPass(s0: Sweep, bs: seq<Entity>, ship: Entity, boss: Entity, rng: nat -> nat): (r: Sweep)
    requires Matched(s0)
    ensures Matched(r) && r.left == s0.left && r.k >= s0.k
    ensures s0.stopped ==> r == s0.(bullets := s0.bullets + bs)
    decreases |bs|
  {
    if |bs| == 0 then s0
    else
      var prev := BulletPass(s0, bs[..|bs| - 1], ship, boss, rng);
      assert s0.stopped ==> s0.bullets + bs == prev.bullets + [bs[|bs| - 1]] by {
        assert bs == bs[..|bs| - 1] + [bs[|bs| - 1]];
      }
      BulletStep(prev, bs[|bs| - 1], ship, boss, rng)
  }

  /** The bullet loop over a concatenation is the loop over the first part continued over the
      second. */
  lemma {:induction false} PassConcat(s0: Sweep, a: seq<Entity>, b: seq<Entity>, ship: Entity, boss: Entity, rng: nat -> nat)
    requires Matched(s0)
    ensures BulletPass(s0, a + b, ship, boss, rng) == BulletPass(BulletPass(s0, a, ship, boss, rng), b, ship, boss, rng)
    decreases |b|
  {
    if |b| == 0 {
      assert a + b == a;
    } else {
      var init := b[..|b| - 1];
      assert (a + b)[..|a + b| - 1] == a + init;
      assert (a + b)[|a + b| - 1] == b[|b| - 1];
      PassConcat(s0, a, init, ship, boss, rng);
    }
  }

  /** The bullet loop over one more bullet. */
  lemma PassStep(s0: Sweep, bs: seq<Entity>, i: nat, ship: Entity, boss: Entity, rng: nat -> nat)
    requires Matched(s0) && i < |bs|
    ensures BulletPass(s0, bs[..i + 1], ship, boss, rng)
            == BulletStep(BulletPass(s0, bs[..i], ship, boss, rng), bs[i], ship, boss, rng)
  {
    assert bs[..i + 1][..i] == bs[..i];
  }

  /** Once the bullet loop has returned early, the rest of the bullets are only carried along. */
  lemma PassStopped(s0: Sweep, bs: seq<Entity>, i: nat, ship: Entity, boss: Entity, rng: nat -> nat)
    requires Matched(s0) && i <= |bs| && BulletPass(s0, bs[..i], ship, boss, rng).stopped
    ensures var r := BulletPass(s0, bs[..i], ship, boss, rng);
      BulletPass(s0, bs, ship, boss, rng) == r.(bullets := r.bullets + bs[i..])
  {
    assert bs == bs[..i] + bs[i..];
    PassConcat(s0, bs[..i], bs[i..], ship, boss, rng);
  }

  /** A pass that stopped after bullet i, with the sweep `m` keeping the first q items and the
      rest of the list being the untouched bullets after i, ends with the whole list kept. */
  lemma StoppedKeepsTail(s0: Sweep, bs: seq<Entity>, i: nat, items: seq<Entity>, q: nat, m: Sweep,
                         ship: Entity, boss: Entity, rng: nat -> nat)
    requires Matched(s0) && i < |bs| && q <= |items| && items[q..] == bs[i + 1..]
    requires m.bullets == items[..q] && m.(stopped := true) == BulletPass(s0, bs[..i + 1], ship, boss, rng)
    ensures m.(bullets := items, stopped := true) == BulletPass(s0, bs, ship, boss, rng)
  {
    PassStopped(s0, bs, i + 1, ship, boss, rng);
    assert items == items[..q] + items[q..];
  }

  /** The first hit is where a front-to-back scan of the horde stops. */
  lemma {:induction false} FirstHitAt(bullet: Entity, aliens: seq<Entity>, p: nat)
    requires p <= |aliens| && forall i :: 0 <= i < p ==> !DetectCollision(bullet, aliens[i])
    requires p < |aliens| ==> DetectCollision(bullet, aliens[p])
    ensures FirstHit(bullet, aliens) == p
    decreases p
  {
    if p > 0 {
      assert !DetectCollision(bullet, aliens[0]);
      assert forall i :: 0 <= i < p - 1 ==> aliens[1..][i] == aliens[i + 1];
      FirstHitAt(bullet, aliens[1..], p - 1);
    }
  }

  /** The bullet loop changes the game state and the menu selection only to end the game (WIN or
      LOSE, with RESTART selected), and it stops exactly then. */
  lemma {:induction false} PassEndsOrKeepsMenu(s0: Sweep, bs: seq<Entity>, ship: Entity, boss: Entity, rng: nat -> nat)
    requires Matched(s0) && !s0.stopped
    ensures var r := BulletPass(s0, bs, ship, boss, rng);
      if r.stopped then r.hot.gameState in {Win, Lose} && r.hot.menuButton == Restart
      else r.hot.gameState == s0.hot.gameState && r.hot.menuButton == s0.hot.menuButton
    decreases |bs|
  {
    if |bs| > 0 {
      PassEndsOrKeepsMenu(s0, bs[..|bs| - 1], ship, boss, rng);
    }
  }

  /** The per-frame data after picking up powerup `p`. */
  function PickUp(hot: HotGameData, p: Entity, cold: ColdGameData): HotGameData {
    if p.kind == FastShot then
      hot.(fastShotActive := true, fastShotRemainingTime := cold.powerupDuration)
    else
      hot.(fastMoveActive := true, fastMoveRemainingTime := cold.powerupDuration)
  }

  /** The powerup loop over `ps`, front to back: the per-frame data and the powerups kept. */
  function PowerupPass(hot: HotGameData, ps: seq<Entity>, ship: Entity, cold: ColdGameData): (r: (HotGameData, seq<Entity>))
    ensures |r.1| <= |ps|
    ensures forall i :: 0 <= i < |r.1| ==> !DetectCollision(ship, r.1[i])
    decreases |ps|
  {
    if |ps| == 0 then (hot, [])
    else
      var prev := PowerupPass(hot, ps[..|ps| - 1], ship, cold);
      var p := ps[|ps| - 1];
      if DetectCollision(ship, p) then (PickUp(prev.0, p, cold), prev.1)
      else (prev.0, prev.1 + [p])
  }

  /** The powerup loop over one more powerup. */
  lemma PowerupPassStep(hot: HotGameData, ps: seq<Entity>, i: nat, ship: Entity, cold: ColdGameData)
    requires i < |ps|
    ensures var prev := PowerupPass(hot, ps[..i], ship, cold);
      PowerupPass(hot, ps[..i + 1], ship, cold)
      == if DetectCollision(ship, ps[i]) then (PickUp(prev.0, ps[i], cold), prev.1) else (prev.0, prev.1 + [ps[i]])
  {
    assert ps[..i + 1][..i] == ps[..i];
  }

  /** detectCollisions: the bullet loop, then (unless it returned early) the powerup loop over
      the powerups as the bullet loop left them. */
  function CollisionsSpec(s0: Sweep, bs: seq<Entity>, ship: Entity, boss: Entity, cold: ColdGameData, rng: nat -> nat): (r: Sweep)
    requires Matched(s0) && !s0.stopped
    ensures Matched(r) && r.left == s0.left && r.k >= s0.k
  {
    var s := BulletPass(s0, bs, ship, boss, rng);
    if s.stopped then s
    else
      var p := PowerupPass(s.hot, s.powerups, ship, cold);
      s.(hot := p.0, powerups := p.1)
  }

  // ---- Properties of one bullet ----

  /** An upward bullet that hits an alien other than the sole tracked last one removes that
      alien and the bullet, and always drops a powerup at the alien's bottom centre, because
      the drop roll is below 100 by construction. */
  lemma AlienHitAlwaysDrops(s: Sweep, b: Entity, ship: Entity, boss: Entity, rng: nat -> nat)
    requires Matched(s) && !s.stopped && b.up
    requires FirstHit(b, s.aliens) < |s.aliens|
    requires !(s.ids[FirstHit(b, s.aliens)] == s.lastAlive && FirstHit(b, s.aliens) == 0)
    ensures var j := FirstHit(b, s.aliens); var r := BulletStep(s, b, ship, boss, rng);
      && r.aliens == Without(s.aliens, j) && r.ids == Without(s.ids, j)
      && r.bullets == s.bullets && r.hot == s.hot && !r.stopped
      && r.powerups == [DropFrom(s.aliens[j], rng(s.k + 1))] + s.powerups && r.k == s.k + 2
  {
    assert rng(s.k) % 100 < 100;
  }

  /** BulletStep on an alien hit on the tracked alien when it sits first: the WIN, with the
      tracker on the left sentinel and the bullet kept. */
  lemma AlienHitWins(s: Sweep, b: Entity, ship: Entity, boss: Entity, rng: nat -> nat)
    requires Matched(s) && !s.stopped && b.up && FirstHit(b, s.aliens) < |s.aliens|
    requires s.ids[FirstHit(b, s.aliens)] == s.lastAlive && FirstHit(b, s.aliens) == 0
    ensures BulletStep(s, b, ship, boss, rng)
            == s.(lastAlive := s.left, hot := s.hot.(gameState := Win, menuButton := Restart),
                  k := s.k + 1, stopped := true, bullets := s.bullets + [b])
  {
  }

  /** BulletStep on any other alien hit: the alien leaves the horde, the tracker steps back when
      it was on that alien, and a powerup drops. */
  lemma AlienHitSurvives(s: Sweep, b: Entity, j: nat, k: nat, ship: Entity, boss: Entity, rng: nat -> nat)
    requires Matched(s) && !s.stopped && b.up && j == FirstHit(b, s.aliens) && j < |s.aliens|
    requires !(s.ids[j] == s.lastAlive && j == 0) && k == s.k
    ensures BulletStep(s, b, ship, boss, rng)
            == Killed(s.(lastAlive := if s.ids[j] == s.lastAlive then PrevOf(s, j) else s.lastAlive),
                      j, rng(k + 1))
  {
    assert rng(s.k) % 100 < 100;
  }

  /** BulletStep on the other outcomes, as record updates: a boss hit, a ship hit, a miss. */
  lemma OtherStep(s: Sweep, b: Entity, ship: Entity, boss: Entity, rng: nat -> nat)
    requires Matched(s) && !s.stopped
    ensures !b.up && DetectCollision(ship, b) ==>
      BulletStep(s, b, ship, boss, rng) == s.(hot := s.hot.(gameState := Lose, menuButton := Restart), stopped := true)
    ensures (b.up && FirstHit(b, s.aliens) == |s.aliens| && !DetectCollision(b, boss)) || (!b.up && !DetectCollision(ship, b)) ==>
      BulletStep(s, b, ship, boss, rng) == s.(bullets := s.bullets + [b])
  {
  }

  /** BulletStep on an upward bullet that misses every alien and hits the boss, with `k` the
      sweep's next draw. */
  lemma BossHitStep(s: Sweep, b: Entity, k: nat, ship: Entity, boss: Entity, rng: nat -> nat)
    requires Matched(s) && !s.stopped && k == s.k
    requires b.up && FirstHit(b, s.aliens) == |s.aliens| && DetectCollision(b, boss)
    ensures BulletStep(s, b, ship, boss, rng) == Defeated(s, boss, k, rng)
  {
  }

  /** The bullet loop ends the game in WIN exactly when an upward bullet's first hit is the
      tracked last alien and that alien is the first node of the horde; the bullet and the alien
      are then kept and the tracker moves to the left sentinel. */
  lemma WinExactly(s: Sweep, b: Entity, ship: Entity, boss: Entity, rng: nat -> nat)
    requires Matched(s) && !s.stopped && s.hot.gameState != Win
    ensures var r := BulletStep(s, b, ship, boss, rng);
      r.hot.gameState == Win <==>
        b.up && FirstHit(b, s.aliens) < |s.aliens| && FirstHit(b, s.aliens) == 0 && s.ids[0] == s.lastAlive
    ensures var r := BulletStep(s, b, ship, boss, rng);
      r.hot.gameState == Win ==>
        r.stopped && r.hot.menuButton == Restart && r.aliens == s.aliens && r.bullets == s.bullets + [b]
        && r.lastAlive == s.left
  {
  }

  /** An upward bullet that misses every alien is checked against the boss whatever its flags;
      a hit defeats it, consumes the bullet and drops a powerup iff the roll is below 15. */
  lemma BossHit(s: Sweep, b: Entity, ship: Entity, boss: Entity, rng: nat -> nat)
    requires Matched(s) && !s.stopped && b.up
    requires FirstHit(b, s.aliens) == |s.aliens| && DetectCollision(b, boss)
    ensures var r := BulletStep(s, b, ship, boss, rng);
      && r.hot == s.hot.(enemyShipActive := false, enemyShipDefeated := true)
      && r.bullets == s.bullets && r.aliens == s.aliens && !r.stopped
      && (r.powerups == [DropFrom(boss, rng(s.k + 1))] + s.powerups <==> rng(s.k) % 100 < 15)
  {
    var r := BulletStep(s, b, ship, boss, rng);
    if rng(s.k) % 100 >= 15 {
      assert |r.powerups| == |s.powerups|;
    }
  }

  /** A downward bullet that collides with the ship ends the game in LOSE and is removed. */
  lemma ShipHit(s: Sweep, b: Entity, ship: Entity, boss: Entity, rng: nat -> nat)
    requires Matched(s) && !s.stopped && !b.up && DetectCollision(ship, b)
    ensures var r := BulletStep(s, b, ship, boss, rng);
      && r.stopped && r.hot == s.hot.(gameState := Lose, menuButton := Restart)
      && r.bullets == s.bullets && r.aliens == s.aliens && r.powerups == s.powerups
  {
  }

  /** A LOSE set by the bullet loop skips the powerup loop: no pickup happens that frame. */
  lemma LoseSkipsPickups(s0: Sweep, bs: seq<Entity>, ship: Entity, boss: Entity, cold: ColdGameData, rng: nat -> nat)
    requires Matched(s0) && !s0.stopped
    requires BulletPass(s0, bs, ship, boss, rng).stopped
    ensures CollisionsSpec(s0, bs, ship, boss, cold, rng) == BulletPass(s0, bs, ship, boss, rng)
  {
  }

  // ---- The last-alive tracker ----

  /** The tracker names the last node of a non-empty horde whose handles are distinct and
      differ from the left sentinel. */
  ghost predicate Tracked(s: Sweep) {
    && Matched(s) && |s.ids| > 0 && s.lastAlive == s.ids[|s.ids| - 1]
    && Distinct(s.ids) && s.left !in s.ids
  }

  lemma DistinctWithout(ids: seq<Handle>, j: nat)
    requires Distinct(ids) && j < |ids|
    ensures Distinct(Without(ids, j))
    ensures forall x :: x in Without(ids, j) ==> x in ids
  {
    var r := Without(ids, j);
    forall a, c | 0 <= a < c < |r| ensures r[a] != r[c] {
      var a' := if a < j then a else a + 1;
      var c' := if c < j then c else c + 1;
      assert r[a] == ids[a'] && r[c] == ids[c'];
    }
    forall x | x in r ensures x in ids {
      var i :| 0 <= i < |r| && r[i] == x;
      assert r[i] == ids[if i < j then i else i + 1];
    }
  }

  /** One bullet keeps the tracker on the horde's last node, unless it wins the game, which then
      happens with exactly one alien left. */
  lemma StepKeepsTracking(s: Sweep, b: Entity, ship: Entity, boss: Entity, rng: nat -> nat)
    requires Tracked(s) && !s.stopped && s.hot.gameState != Win
    ensures var r := BulletStep(s, b, ship, boss, rng);
      if r.hot.gameState == Win
      then |r.ids| == 1 && r.lastAlive == r.left && r.stopped
      else Tracked(r)
  {
    var r := BulletStep(s, b, ship, boss, rng);
    var n := |s.ids|;
    if b.up && FirstHit(b, s.aliens) < |s.aliens| {
      var j := FirstHit(b, s.aliens);
      if s.ids[j] == s.lastAlive {
        assert j == n - 1;
        if j != 0 {
          DistinctWithout(s.ids, j);
          assert r.ids == s.ids[..n - 1];
          assert r.lastAlive == s.ids[n - 2];
        }
      } else {
        DistinctWithout(s.ids, j);
        assert j < n - 1;
        assert r.ids[|r.ids| - 1] == s.ids[n - 1];
      }
    }
  }

  /** Over the whole bullet loop the tracker stays on the last node until a WIN, and a WIN comes
      only with one alien left: the horde is never emptied. */
  lemma {:induction false} PassKeepsTracking(s0: Sweep, bs: seq<Entity>, ship: Entity, boss: Entity, rng: nat -> nat)
    requires Tracked(s0) && !s0.stopped && s0.hot.gameState != Win
    ensures var r := BulletPass(s0, bs, ship, boss, rng);
      if r.hot.gameState == Win then |r.ids| == 1 && r.lastAlive == r.left else Tracked(r)
    ensures var r := BulletPass(s0, bs, ship, boss, rng);
      !r.stopped ==> Tracked(r) && r.hot.gameState == s0.hot.gameState
    decreases |bs|
  {
    if |bs| > 0 {
      var prev := BulletPass(s0, bs[..|bs| - 1], ship, boss, rng);
      PassKeepsTracking(s0, bs[..|bs| - 1], ship, boss, rng);
      if !prev.stopped {
        StepKeepsTracking(prev, bs[|bs| - 1], ship, boss, rng);
      }
    }
  }

  /** With the tracker on no alien (the value the game is started with), the bullet loop never
      produces a WIN and never moves the tracker. */
  lemma {:induction false} UntrackedNeverWins(s0: Sweep, bs: seq<Entity>, ship: Entity, boss: Entity, rng: nat -> nat)
    requires Matched(s0) && s0.lastAlive !in s0.ids && s0.hot.gameState != Win
    ensures BulletPass(s0, bs, ship, boss, rng).hot.gameState != Win
    ensures BulletPass(s0, bs, ship, boss, rng).lastAlive == s0.lastAlive
    ensures BulletPass(s0, bs, ship, boss, rng).lastAlive !in BulletPass(s0, bs, ship, boss, rng).ids
    decreases |bs|
  {
    if |bs| > 0 {
      var prev := BulletPass(s0, bs[..|bs| - 1], ship, boss, rng);
      UntrackedNeverWins(s0, bs[..|bs| - 1], ship, boss, rng);
      var b := bs[|bs| - 1];
      if !prev.stopped && b.up && FirstHit(b, prev.aliens) < |prev.aliens| {
        var j := FirstHit(b, prev.aliens);
        assert prev.ids[j] in prev.ids;
        var r := BulletStep(prev, b, ship, boss, rng);
        forall x | x in r.ids ensures x in prev.ids {
          var i :| 0 <= i < |r.ids| && r.ids[i] == x;
          assert r.ids[i] == prev.ids[if i < j then i else i + 1];
        }
      }
    }
  }

  // ---- The powerup loop ----

  /** The powerups that do not touch the ship, in order. */
  function Untouched(ps: seq<Entity>, ship: Entity): (r: seq<Entity>)
    decreases |ps|
  {
    if |ps| == 0 then []
    else Untouched(ps[..|ps| - 1], ship) + (if DetectCollision(ship, ps[|ps| - 1]) then [] else [ps[|ps| - 1]])
  }

  /** Whether some powerup of `ps` of the given sort touches the ship. */
  predicate Touches(ps: seq<Entity>, ship: Entity, fastShot: bool) {
    exists i :: 0 <= i < |ps| && DetectCollision(ship, ps[i]) && (ps[i].kind == FastShot) == fastShot
  }

  /** A powerup of the given sort touches the ship in `ps` iff one does in all but the last, or
      the last one does. */
  lemma TouchesLast(ps: seq<Entity>, ship: Entity, fs: bool)
    requires |ps| > 0
    ensures Touches(ps, ship, fs) <==>
      Touches(ps[..|ps| - 1], ship, fs) || (DetectCollision(ship, ps[|ps| - 1]) && (ps[|ps| - 1].kind == FastShot) == fs)
  {
    var init := ps[..|ps| - 1];
    if Touches(ps, ship, fs) && !Touches(init, ship, fs) {
      var i :| 0 <= i < |ps| && DetectCollision(ship, ps[i]) && (ps[i].kind == FastShot) == fs;
    }
    if Touches(init, ship, fs) {
      var i :| 0 <= i < |init| && DetectCollision(ship, init[i]) && (init[i].kind == FastShot) == fs;
      assert ps[i] == init[i];
    }
  }

  /** The powerup loop keeps exactly the powerups clear of the ship, in order. */
  lemma {:induction false} PickupsKept(hot: HotGameData, ps: seq<Entity>, ship: Entity, cold: ColdGameData)
    ensures PowerupPass(hot, ps, ship, cold).1 == Untouched(ps, ship)
    decreases |ps|
  {
    if |ps| > 0 {
      PickupsKept(hot, ps[..|ps| - 1], ship, cold);
    }
  }

  /** The flags and timers the powerup loop leaves, and nothing else of the per-frame data
      changes. */
  lemma {:induction false} PickupsFlags(hot: HotGameData, ps: seq<Entity>, ship: Entity, cold: ColdGameData)
    ensures PowerupPass(hot, ps, ship, cold).0.fastShotActive <==> hot.fastShotActive || Touches(ps, ship, true)
    ensures PowerupPass(hot, ps, ship, cold).0.fastMoveActive <==> hot.fastMoveActive || Touches(ps, ship, false)
    ensures Touches(ps, ship, true) ==> PowerupPass(hot, ps, ship, cold).0.fastShotRemainingTime == cold.powerupDuration
    ensures Touches(ps, ship, false) ==> PowerupPass(hot, ps, ship, cold).0.fastMoveRemainingTime == cold.powerupDuration
    ensures PowerupPass(hot, ps, ship, cold).0 ==
      hot.(fastShotActive := PowerupPass(hot, ps, ship, cold).0.fastShotActive,
           fastShotRemainingTime := PowerupPass(hot, ps, ship, cold).0.fastShotRemainingTime,
           fastMoveActive := PowerupPass(hot, ps, ship, cold).0.fastMoveActive,
           fastMoveRemainingTime := PowerupPass(hot, ps, ship, cold).0.fastMoveRemainingTime)
    decreases |ps|
  {
    if |ps| > 0 {
      PickupsFlags(hot, ps[..|ps| - 1], ship, cold);
      TouchesLast(ps, ship, true);
      TouchesLast(ps, ship, false);
    }
  }

  /** The powerup loop keeps exactly the powerups clear of the ship; a flag ends set iff it was
      set or a powerup of its sort was picked up (FAST_SHOT for fast shot, any other kind for
      fast move), and then its timer reads the full duration. Nothing else changes. */
  lemma PickupsExactly(hot: HotGameData, ps: seq<Entity>, ship: Entity, cold: ColdGameData)
    ensures PowerupPass(hot, ps, ship, cold).1 == Untouched(ps, ship)
    ensures PowerupPass(hot, ps, ship, cold).0.fastShotActive <==> hot.fastShotActive || Touches(ps, ship, true)
    ensures PowerupPass(hot, ps, ship, cold).0.fastMoveActive <==> hot.fastMoveActive || Touches(ps, ship, false)
    ensures Touches(ps, ship, true) ==> PowerupPass(hot, ps, ship, cold).0.fastShotRemainingTime == cold.powerupDuration
    ensures Touches(ps, ship, false) ==> PowerupPass(hot, ps, ship, cold).0.fastMoveRemainingTime == cold.powerupDuration
    ensures PowerupPass(hot, ps, ship, cold).0 ==
      hot.(fastShotActive := PowerupPass(hot, ps, ship, cold).0.fastShotActive,
           fastShotRemainingTime := PowerupPass(hot, ps, ship, cold).0.fastShotRemainingTime,
           fastMoveActive := PowerupPass(hot, ps, ship, cold).0.fastMoveActive,
           fastMoveRemainingTime := PowerupPass(hot, ps, ship, cold).0.fastMoveRemainingTime)
  {
    PickupsKept(hot, ps, ship, cold);
    PickupsFlags(hot, ps, ship, cold);
  }
}
