/** The game-wide records of lib/game.h (state, menu, input, tuning constants, per-frame data),
    their initial values (initColdGameData / initHotGameData) and the menu state machine
    (updateMenu / updateGameState). */
module GameData {

  /** GameState, in declaration order MENU = 0 ... CLOSE = 5. */
  datatype GameState = Menu | Playing | Paused | Lose | Win | Close

  /** The index type `Ship` of the two-entry tuning arrays: REGULAR = 0, BUFFED = 1. */
  datatype ShipMode = Regular | Buffed

  /** MenuButton, in declaration order QUIT = 0, START = 1, RESTART = 2. */
  datatype MenuButton = Quit | Start | Restart

  /** The buttons of one frame, as processInput leaves them. */
  datatype Input = Input(left: bool, right: bool, fire: bool, select: bool, up: bool, down: bool, pause: bool)

  const NoInput := Input(false, false, false, false, false, false, false)

  /** The C enumerator value of a game state. */
  function StateCode(s: GameState): nat {
    match s
    case Menu => 0
    case Playing => 1
    case Paused => 2
    case Lose => 3
    case Win => 4
    case Close => 5
  }

  /** The C enumerator value of a menu button. */
  function ButtonCode(b: MenuButton): nat {
    match b
    case Quit => 0
    case Start => 1
    case Restart => 2
  }

  /** Distinct enumerators of one enum have distinct codes, but MENU and QUIT share 0. */
  lemma CodesCollide()
    ensures forall s, t :: StateCode(s) == StateCode(t) ==> s == t
    ensures forall b, c :: ButtonCode(b) == ButtonCode(c) ==> b == c
    ensures forall s :: StateCode(s) == ButtonCode(Quit) <==> s == Menu
  {
  }

  /** ColdGameData without the animation timing field. Each two-entry array is a pair
      indexed by ShipMode (shipSpeeds, shipDelaysToFire) or by edge (screenLimits: left, right). */
  datatype ColdGameData = ColdGameData(
    shipSpeeds: (real, real),
    shipDelaysToFire: (real, real),
    screenLimits: (real, real),
    enemyShipDelayToFire: real,
    enemyShipSpeed: real,
    projectileSpeed: real,
    powerupDuration: real,
    hordeSpeedIncrease: real,
    hordeStepY: real,
    enemyShipSleepTime: real)

  /** shipSpeeds[mode] */
  function ShipSpeed(cold: ColdGameData, mode: ShipMode): real {
    if mode == Regular then cold.shipSpeeds.0 else cold.shipSpeeds.1
  }

  /** shipDelaysToFire[mode] */
  function ShipDelayToFire(cold: ColdGameData, mode: ShipMode): real {
    if mode == Regular then cold.shipDelaysToFire.0 else cold.shipDelaysToFire.1
  }

  /** initColdGameData */
  const InitialColdData := ColdGameData(
    (300.0, 450.0), (0.5, 0.1), (250.0, 1670.0),
    0.25, 450.0, 600.0, 60.0, 45.0, 50.0, 4.0)

  /** The tuning relations the game relies on: the play field is a proper interval, every speed,
      delay and duration is positive, and the buffed ship is faster and fires more often. */
  ghost predicate SaneColdData(cold: ColdGameData) {
    && cold.screenLimits.0 < cold.screenLimits.1
    && 0.0 < ShipSpeed(cold, Regular) < ShipSpeed(cold, Buffed)
    && 0.0 < ShipDelayToFire(cold, Buffed) < ShipDelayToFire(cold, Regular)
    && cold.enemyShipDelayToFire > 0.0 && cold.enemyShipSpeed > 0.0 && cold.projectileSpeed > 0.0
    && cold.powerupDuration > 0.0 && cold.hordeSpeedIncrease >= 0.0 && cold.hordeStepY > 0.0
    && cold.enemyShipSleepTime > 0.0
  }

  lemma InitialColdDataIsSane()
    ensures SaneColdData(InitialColdData)
  {
  }

  /** HotGameData. Fields initHotGameData leaves unset (the powerup timers, `input`, `shipActive`)
      start as 0.0 / all released / false. */
  datatype HotGameData = HotGameData(
    fastShotRemainingTime: real,
    fastMoveRemainingTime: real,
    remainingTimeEnemyShipAlarm: real,
    lastFrameTime: real,
    shipLastShotTime: real,
    enemyShipLastShotTime: real,
    hordeSpeed: real,
    gameState: GameState,
    menuButton: MenuButton,
    input: Input,
    fastShotActive: bool,
    fastMoveActive: bool,
    enemyShipGoingLeft: bool,
    enemyShipDefeated: bool,
    enemyShipActive: bool,
    shipActive: bool)

  /** Which buttons a state's menu offers: START/QUIT before and during play, RESTART/QUIT on the
      end screens. */
  predicate ButtonFits(s: GameState, b: MenuButton) {
    match s
    case Menu | Playing | Paused => b != Restart
    case Win | Lose => b != Start
    case Close => true
  }

  /** initHotGameData, at clock reading `now`. */
  function InitHotGameData(now: real): (h: HotGameData)
    ensures h.gameState == Menu && h.menuButton == Start && ButtonFits(h.gameState, h.menuButton)
    ensures h.lastFrameTime == now && h.hordeSpeed > 0.0
    ensures !h.enemyShipActive && !h.enemyShipDefeated && h.enemyShipGoingLeft
    ensures !h.fastShotActive && !h.fastMoveActive
  {
    HotGameData(0.0, 0.0, 4.0, now, 0.0, 0.0, 150.0, Menu, Start, NoInput,
                false, false, true, false, false, false)
  }

  /** updateMenu as written: up or down toggles START/QUIT on the main menu and RESTART/QUIT on
      the end screens. */
  function MenuAfter(h: HotGameData): (r: HotGameData)
    ensures r == h.(menuButton := r.menuButton)
    ensures !(h.input.up || h.input.down) || h.gameState !in {Menu, Win, Lose} ==> r == h
    ensures (h.input.up || h.input.down) && h.gameState in {Menu, Win, Lose} ==> r.menuButton != h.menuButton
    ensures ButtonFits(h.gameState, h.menuButton) ==> ButtonFits(r.gameState, r.menuButton)
  {
    if h.gameState == Menu then
      if h.input.up || h.input.down then
        if h.menuButton == Start then h.(menuButton := Quit) else h.(menuButton := Start)
      else h
    else if h.gameState == Win || h.gameState == Lose then
      if h.input.up || h.input.down then
        if h.menuButton == Restart then h.(menuButton := Quit) else h.(menuButton := Restart)
      else h
    else h
  }

  /** Two presses on a menu whose selection fits it bring the selection back. */
  lemma MenuToggleTwice(h: HotGameData)
    requires ButtonFits(h.gameState, h.menuButton) && (h.input.up || h.input.down)
    ensures MenuAfter(MenuAfter(h)) == h
  {
  }

  /** updateGameState as written: every test reads the state captured on entry, except the
      arm that compares the current state with QUIT, which holds only because MENU and QUIT are
      both 0. */
  function GameStateAfter(h: HotGameData): (r: HotGameData)
    ensures r == h.(gameState := r.gameState)
    ensures h.gameState == Playing ==> r.gameState == (if h.input.pause then Menu else Playing)
    ensures h.gameState == Menu ==>
      r.gameState == (if !h.input.select then Menu else if h.menuButton == Start then Playing else Close)
    ensures h.gameState in {Win, Lose} ==>
      r.gameState == (if h.input.select && h.menuButton == Quit then Close else h.gameState)
    ensures h.gameState in {Paused, Close} ==> r == h
  {
    var gameState := h.gameState;
    var h1 := if gameState == Playing && h.input.pause then h.(gameState := Menu) else h;
    var h2 :=
      if gameState == Menu && h1.input.select then
        if h1.menuButton == Start then h1.(gameState := Playing)
        else if StateCode(h1.gameState) == ButtonCode(Quit) then h1.(gameState := Close)
        else h1
      else h1;
    if (gameState == Win || gameState == Lose) && h2.input.select then
      if h2.menuButton == Restart then h2
      else if h2.menuButton == Quit then h2.(gameState := Close)
      else h2
    else h2
  }

  /** Pausing goes to the menu and does not act on a select pressed in the same frame. */
  lemma PauseIgnoresSelect(h: HotGameData)
    requires h.gameState == Playing && h.input.pause && h.input.select
    ensures GameStateAfter(h).gameState == Menu
  {
  }

  /** RESTART on an end screen changes nothing. */
  lemma RestartIsNoOp(h: HotGameData)
    requires h.gameState in {Win, Lose} && h.menuButton == Restart
    ensures GameStateAfter(h) == h && MenuAfter(h.(input := NoInput)) == h.(input := NoInput)
  {
  }

  /** CLOSE is final for both halves of the state machine. */
  lemma CloseIsFinal(h: HotGameData)
    requires h.gameState == Close
    ensures GameStateAfter(h) == h && MenuAfter(h) == h
  {
  }

  /** A transition keeps the selection fitting the menu it lands on. */
  lemma TransitionKeepsButtonFitting(h: HotGameData)
    requires ButtonFits(h.gameState, h.menuButton)
    ensures ButtonFits(GameStateAfter(h).gameState, GameStateAfter(h).menuButton)
  {
  }
}
