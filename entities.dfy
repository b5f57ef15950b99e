/** The entity record shared by ships, aliens, bullets, powerups and list sentinels
    (lib/entity.h), with the fixed values the constructors of lib/entity.c give them. */
module Entities {

  /** raylib's Rectangle: (x, y) is the top-left corner, y grows downwards. */
  datatype Rectangle = Rectangle(x: real, y: real, width: real, height: real)

  /** EntityType: PLAYER_SHIP, ALIEN, FAST_SHOT, ENEMY_SHIP, LIST_SENTINEL, BULLET, FAST_MOVE. */
  datatype EntityType = PlayerShip | Alien | FastShot | EnemyShip | ListSentinel | Bullet | FastMove

  /** AlienTexture: the sprite tier of an alien. */
  datatype AlienTexture = Type1 | Type2 | Type3

  /** An entity without its `next`/`prev` links (those live in the list nodes). Fields the
      source leaves uninitialised (`alienType` of a non-alien, `up` of a ship) hold Type1 / false. */
  datatype Entity = Entity(bounds: Rectangle, kind: EntityType, alienType: AlienTexture, up: bool)

  /** createPlayerShip */
  const InitialPlayerShip := Entity(Rectangle(912.0, 900.0, 96.0, 72.0), PlayerShip, Type1, false)

  /** createEnemyShip */
  const InitialEnemyShip := Entity(Rectangle(1920.0, 50.0, 64.0, 40.0), EnemyShip, Type1, false)

  /** What a sentinel node holds: only its kind is set by the source, its box is uninitialised
      memory, fixed here as the zero box. */
  const SentinelEntity := Entity(Rectangle(0.0, 0.0, 0.0, 0.0), ListSentinel, Type1, false)

  // The horde layout constants of createHorde.
  const HordeSize: nat := 55
  const HordeRows: nat := 5
  const HordeColumns: nat := 11
  const AlienHeight: real := 32.0
  const AlienWidth: real := 32.0
  const GapX: real := 15.0
  const GapY: real := 20.0
  const OffSetX: real := 1920.0 / 2.0 - (AlienWidth * 11.0 + GapX * (11.0 - 1.0)) / 2.0
  const OffSetY: real := AlienHeight * 3.0

  /** The sprite tier of horde row `row`. */
  function TierOfRow(row: int): AlienTexture {
    if row < 2 then Type1 else if row < 3 then Type2 else Type3
  }

  /** The alien createHorde builds as its i-th node. */
  function AlienAt(i: nat): Entity {
    Entity(
      Rectangle(OffSetX + (i % HordeColumns) as real * (AlienWidth + GapX),
                OffSetY + (i / HordeColumns) as real * (AlienHeight + GapY),
                AlienWidth, AlienHeight),
      Alien, TierOfRow(i / HordeColumns), false)
  }

  /** The 55 aliens of a fresh horde, in list order. */
  function HordeLayout(): (aliens: seq<Entity>)
    ensures |aliens| == HordeSize
    ensures forall i :: 0 <= i < HordeSize ==> aliens[i] == AlienAt(i)
  {
    seq(HordeSize, i requires 0 <= i < HordeSize => AlienAt(i))
  }

  /** Tier depends on the row only: rows 0-1 Type1, row 2 Type2, rows 3-4 Type3. */
  lemma AlienTierByIndex(i: nat)
    requires i < HordeSize
    ensures i < 22 ==> AlienAt(i).alienType == Type1
    ensures 22 <= i < 33 ==> AlienAt(i).alienType == Type2
    ensures 33 <= i ==> AlienAt(i).alienType == Type3
    ensures AlienAt(i).kind == Alien && AlienAt(i).bounds.width == 32.0 && AlienAt(i).bounds.height == 32.0
  {
  }

  /** The front node generateBullet leaves: a 4 x 32 box centred on `x`, tagged Bullet. */
  function BulletEntity(x: real, y: real, up: bool): Entity {
    Entity(Rectangle(x - 4.0 / 2.0, y, 4.0, 32.0), Bullet, Type1, up)
  }

  /** A bullet is tagged Bullet, keeps its direction, and its box is centred on the x it is
      generated at and starts at its y. */
  lemma BulletCentredOn(x: real, y: real, up: bool)
    ensures var b := BulletEntity(x, y, up);
      b.kind == Bullet && b.up == up && b.bounds.x + b.bounds.width / 2.0 == x && b.bounds.y == y && b.bounds.width == 4.0 && b.bounds.height == 32.0
  {
  }

  /** The kind generatePowerup picks from a draw of rand(). */
  function PowerupKind(draw: nat): (k: EntityType)
    ensures k == FastMove <==> draw % 100 < 50
    ensures k == FastShot <==> draw % 100 >= 50
  {
    var dropCheck := draw % 100;
    if dropCheck < 50 then FastMove else FastShot
  }

  /** The front node generatePowerup leaves: a falling 25 x 25 box centred on `x`. */
  function PowerupEntity(x: real, y: real, draw: nat): Entity {
    Entity(Rectangle(x - 25.0 / 2.0, y, 25.0, 25.0), PowerupKind(draw), Type1, false)
  }

  /** A powerup falls, has the kind of its draw and a 25 x 25 box centred on `x`. */
  lemma PowerupShape(x: real, y: real, draw: nat)
    ensures var p := PowerupEntity(x, y, draw);
      p.kind == PowerupKind(draw) && !p.up && p.bounds == Rectangle(x - 12.5, y, 25.0, 25.0)
  {
  }

  /** A draw of 49 gives a fast-move powerup, a draw of 50 a fast-shot one. */
  lemma PowerupKindBoundary()
    ensures PowerupKind(49) == FastMove && PowerupKind(50) == FastShot
    ensures PowerupKind(149) == FastMove && PowerupKind(199) == FastShot
  {
  }
}
