/**
 * The game's global state in index.js and its transitions: the per-tick
 * `update`, `startGame`, `endGame`, `showMainMenuDialog`, the enemy refresh
 * fired by the spawn interval, and the player's key handler.
 */
module Game {
  import opened Options
  import opened Rules
  import opened Components
  import opened Spawner

  /**
   * The game variables, the canvas size, and the best score as both the
   * in-memory `bestScore` variable and the value kept in local storage.
   * `None` stands for an `undefined` variable or a missing storage entry.
   */
  datatype GameState = GameState(
    canvasWidth: nat,
    canvasHeight: nat,
    mainMenu: bool,
    gameOver: bool,
    player: Option<Component>,
    enemies: seq<Component>,
    startTime: int,
    bestScore: Option<int>,
    storedBestScore: Option<int>)

  datatype Phase = Menu | Running | Ended

  function PhaseOf(s: GameState): Phase {
    if s.gameOver then Ended else if s.mainMenu then Menu else Running
  }

  /**
   * What every reachable state satisfies: outside the menu there is a
   * player, the menu is never over, the player is the only player-flagged
   * component, and a cached best score is the stored one.
   */
  predicate Inv(s: GameState) {
    && (!s.mainMenu ==> s.player.Some?)
    && !(s.mainMenu && s.gameOver)
    && (s.player.Some? ==> s.player.value.isPlayer)
    && (forall i :: 0 <= i < |s.enemies| ==> !s.enemies[i].isPlayer)
    && (s.bestScore.Some? ==> s.bestScore == s.storedBestScore)
  }

  /** The player collides with at least one enemy. */
  predicate CollidesWithAny(p: Component, enemies: seq<Component>) {
    exists i :: 0 <= i < |enemies| && CheckCollision(p, enemies[i])
  }

  /** The collision loop of `update`, which stops at the first enemy the player hits. */
  method DetectCollision(p: Component, enemies: seq<Component>) returns (collided: bool)
    ensures collided <==> CollidesWithAny(p, enemies)
  {
    collided := false;
    var i := 0;
    while i < |enemies|
      invariant 0 <= i <= |enemies|
      invariant forall j :: 0 <= j < i ==> !CheckCollision(p, enemies[j])
    {
      if CheckCollision(p, enemies[i]) {
        collided := true;
        break;
      }
      i := i + 1;
    }
  }

  /** `newPos()` applied to every enemy. */
  function AdvanceAll(enemies: seq<Component>): (r: seq<Component>)
    ensures |r| == |enemies|
    ensures forall i :: 0 <= i < |enemies| ==> r[i] == NewPos(enemies[i])
  {
    seq(|enemies|, i requires 0 <= i < |enemies| => NewPos(enemies[i]))
  }

  /** The best score `endGame` compares against: the cached one, else the stored one. */
  function PreviousBest(s: GameState): Option<int> {
    if s.bestScore.None? then s.storedBestScore else s.bestScore
  }

  /**
   * `endGame()` at time `now`: the game is over and the score is
   * `now - startTime`; the best score becomes the score when there was none,
   * otherwise the larger of the two, and is written to storage only when the
   * score beats it. Nothing moves.
   */
  function EndGame(s: GameState, now: int): (r: GameState)
    ensures r.gameOver
    ensures r.(gameOver := s.gameOver, bestScore := s.bestScore, storedBestScore := s.storedBestScore) == s
    ensures var score := now - s.startTime;
      var prev := PreviousBest(s);
      && r.bestScore == Some(if prev.None? || prev.value < score then score else prev.value)
      && (if prev.None? || score > prev.value then r.storedBestScore == Some(score) else r.storedBestScore == s.storedBestScore)
  {
    var score := now - s.startTime;
    var loaded := if s.bestScore.None? then s.storedBestScore else s.bestScore;
    if loaded.None? || score > loaded.value then
      s.(gameOver := true, bestScore := Some(score), storedBestScore := Some(score))
    else
      s.(gameOver := true, bestScore := loaded)
  }

  /**
   * `update()`, one tick: outside the menu a collision ends the game; then,
   * unless the game is over, the player (outside the menu) and every enemy
   * take one step.
   */
  function Update(s: GameState, now: int): (r: GameState)
    requires !s.mainMenu ==> s.player.Some?
    ensures r.(player := s.player, enemies := s.enemies, gameOver := s.gameOver,
               bestScore := s.bestScore, storedBestScore := s.storedBestScore) == s
    ensures var hit := !s.mainMenu && CollidesWithAny(s.player.value, s.enemies);
      && (r.gameOver <==> s.gameOver || hit)
      && (hit ==> r == EndGame(s, now))
      && (!hit ==> r.bestScore == s.bestScore && r.storedBestScore == s.storedBestScore)
    ensures r.gameOver ==> r.player == s.player && r.enemies == s.enemies
    ensures !r.gameOver ==> r.enemies == AdvanceAll(s.enemies)
    ensures !r.gameOver ==> r.player == (if s.mainMenu then s.player else Some(NewPos(s.player.value)))
  {
    var afterCheck :=
      if !s.mainMenu && CollidesWithAny(s.player.value, s.enemies) then EndGame(s, now) else s;
    if !afterCheck.gameOver then
      afterCheck.(
        player := if !s.mainMenu then Some(NewPos(s.player.value)) else s.player,
        enemies := AdvanceAll(s.enemies))
    else
      afterCheck
  }

  /** In the menu a tick never ends the game and leaves the best scores alone. */
  lemma UpdateInMenu(s: GameState, now: int)
    requires s.mainMenu
    ensures var r := Update(s, now);
      && r.gameOver == s.gameOver
      && r.bestScore == s.bestScore
      && r.storedBestScore == s.storedBestScore
      && r.player == s.player
  {}

  /** A running game whose player touches an enemy ends on this tick, and nothing moves. */
  lemma UpdateOnCollision(s: GameState, now: int)
    requires !s.mainMenu && s.player.Some?
    requires CollidesWithAny(s.player.value, s.enemies)
    ensures var r := Update(s, now);
      && r.gameOver
      && r.player == s.player
      && r.enemies == s.enemies
      && r == EndGame(s, now)
  {}

  /**
   * Without a collision, a tick of a game that is not over moves every
   * enemy exactly once, moves the player exactly when the game is running,
   * and changes nothing else.
   */
  lemma UpdateAdvances(s: GameState, now: int)
    requires !s.mainMenu ==> s.player.Some?
    requires !s.gameOver
    requires s.mainMenu || !CollidesWithAny(s.player.value, s.enemies)
    ensures var r := Update(s, now);
      && !r.gameOver
      && |r.enemies| == |s.enemies|
      && (forall i :: 0 <= i < |s.enemies| ==> r.enemies[i] == NewPos(s.enemies[i]))
      && (s.mainMenu ==> r.player == s.player)
      && (!s.mainMenu ==> r.player == Some(NewPos(s.player.value)))
      && r.(player := s.player, enemies := s.enemies) == s
  {}

  /** A tick keeps the menu in the menu, takes a running game to running or ended, and an ended game stays ended. */
  lemma UpdatePhase(s: GameState, now: int)
    requires Inv(s)
    ensures var p := PhaseOf(Update(s, now));
      && (PhaseOf(s) == Menu ==> p == Menu)
      && (PhaseOf(s) == Running ==> p == Running || p == Ended)
      && (PhaseOf(s) == Ended ==> p == Ended)
  {}

  /** The best score after `endGame` is at least the score and never below the previous best. */
  lemma EndGameBestNeverDecreases(s: GameState, now: int)
    ensures var r := EndGame(s, now);
      && r.bestScore.Some?
      && r.bestScore.value >= now - s.startTime
      && (PreviousBest(s).Some? ==> r.bestScore.value >= PreviousBest(s).value)
      && (PreviousBest(s).Some? ==> r.bestScore.value == (if now - s.startTime > PreviousBest(s).value then now - s.startTime else PreviousBest(s).value))
  {}

  /**
   * A player that collides on the very first tick, at its start time, scores
   * zero; with no best score cached or stored, zero becomes the best and is stored.
   */
  lemma ImmediateCollisionScoresZero(s: GameState)
    requires !s.mainMenu && s.player.Some?
    requires CollidesWithAny(s.player.value, s.enemies)
    requires s.bestScore.None? && s.storedBestScore.None?
    ensures var r := Update(s, s.startTime);
      r.gameOver && r.bestScore == Some(0) && r.storedBestScore == Some(0)
  {}

  /** Every enemy of `es` is a fresh spawn on a canvas of the given size. */
  predicate FreshBatch(es: seq<Component>, width: nat, height: nat) {
    forall i :: 0 <= i < |es| ==> IsFreshEnemy(es[i], width, height)
  }

  /** A batch generated from no existing enemies consists of fresh spawns only. */
  lemma GenerateEnemiesIsFreshBatch(width: nat, height: nat, ds: seq<EnemyDraws>)
    requires |ds| == NUM_OF_ENEMIES && ValidBatchDraws(ds)
    ensures var r := GenerateEnemies([], width, height, ds);
      r.Some? ==> FreshBatch(r.value, width, height)
  {}

  /**
   * `showMainMenuDialog()`: back to the menu with a fresh batch of enemies;
   * the player variable and the scores are kept.
   */
  function ShowMainMenu(s: GameState, ds: seq<EnemyDraws>): (r: Option<GameState>)
    requires |ds| == NUM_OF_ENEMIES && ValidBatchDraws(ds)
    ensures r.Some? ==> r.value.mainMenu && !r.value.gameOver && PhaseOf(r.value) == Menu
    ensures r.Some? ==> |r.value.enemies| == NUM_OF_ENEMIES
    ensures r.Some? ==> FreshBatch(r.value.enemies, s.canvasWidth, s.canvasHeight)
    ensures r.Some? ==> r.value.(mainMenu := s.mainMenu, gameOver := s.gameOver, enemies := s.enemies) == s
  {
    match GenerateEnemies([], s.canvasWidth, s.canvasHeight, ds)
    case None => None
    case Some(es) =>
      GenerateEnemiesIsFreshBatch(s.canvasWidth, s.canvasHeight, ds);
      Some(s.(mainMenu := true, gameOver := false, enemies := es))
  }

  /** The state the page is in once its script has run `showMainMenuDialog()` for the first time. */
  function Load(width: nat, height: nat, stored: Option<int>, ds: seq<EnemyDraws>): (r: Option<GameState>)
    requires |ds| == NUM_OF_ENEMIES && ValidBatchDraws(ds)
    ensures r.Some? ==> Inv(r.value) && PhaseOf(r.value) == Menu
    ensures r.Some? ==> r.value.player.None? && r.value.storedBestScore == stored
  {
    var blank := GameState(width, height, true, false, None, [], 0, None, stored);
    var r := ShowMainMenu(blank, ds);
    if r.Some? then
      FreshBatchHasNoPlayer(width, height, ds);
      r
    else
      r
  }

  /**
   * `startGame()` at time `now`: leave the menu with a new player at rest
   * in the centre, a fresh batch of enemies, and the clock started.
   * `gameOver` is left as it was.
   */
  function StartGame(s: GameState, now: int, ds: seq<EnemyDraws>): (r: Option<GameState>)
    requires |ds| == NUM_OF_ENEMIES && ValidBatchDraws(ds)
    ensures r.Some? ==> !r.value.mainMenu && r.value.startTime == now
    ensures r.Some? ==> r.value.player == Some(NewPlayer(s.canvasWidth, s.canvasHeight))
    ensures r.Some? ==> |r.value.enemies| == NUM_OF_ENEMIES
    ensures r.Some? ==> FreshBatch(r.value.enemies, s.canvasWidth, s.canvasHeight)
    ensures r.Some? ==> r.value.(mainMenu := s.mainMenu, player := s.player, enemies := s.enemies, startTime := s.startTime) == s
  {
    match GenerateEnemies([], s.canvasWidth, s.canvasHeight, ds)
    case None => None
    case Some(es) =>
      GenerateEnemiesIsFreshBatch(s.canvasWidth, s.canvasHeight, ds);
      Some(s.(mainMenu := false, player := Some(NewPlayer(s.canvasWidth, s.canvasHeight)), enemies := es, startTime := now))
  }

  /** A game started from the menu is running. */
  lemma StartFromMenuRuns(s: GameState, now: int, ds: seq<EnemyDraws>)
    requires Inv(s) && PhaseOf(s) == Menu
    requires |ds| == NUM_OF_ENEMIES && ValidBatchDraws(ds)
    ensures StartGame(s, now, ds).Some? ==> PhaseOf(StartGame(s, now, ds).value) == Running
  {}

  /** The spawn interval's `generateNewEnemies()` on the game's enemies. */
  function Refresh(s: GameState, ds: seq<EnemyDraws>): (r: Option<GameState>)
    requires |ds| == NUM_OF_ENEMIES && ValidBatchDraws(ds)
    ensures r.Some? ==> |r.value.enemies| >= NUM_OF_ENEMIES
    ensures r.Some? ==> r.value.(enemies := s.enemies) == s
  {
    match GenerateNewEnemies(s.enemies, s.canvasWidth, s.canvasHeight, ds)
    case None => None
    case Some(es) => Some(s.(enemies := es))
  }

  /** The key handler: once a player exists, a key press steers it. */
  function KeyDown(s: GameState, key: string): (r: GameState)
    ensures r.(player := s.player) == s
    ensures s.player.None? ==> r == s
    ensures s.player.Some? ==> r.player == Some(OnKeyDown(key, s.player.value))
  {
    if s.player.Some? then s.(player := Some(OnKeyDown(key, s.player.value))) else s
  }

  /** No enemy of a freshly generated batch is flagged as the player. */
  lemma FreshBatchHasNoPlayer(width: nat, height: nat, ds: seq<EnemyDraws>)
    requires |ds| == NUM_OF_ENEMIES && ValidBatchDraws(ds)
    ensures var r := GenerateEnemies([], width, height, ds);
      r.Some? ==> forall i :: 0 <= i < |r.value| ==> !r.value[i].isPlayer
  {}

  /** Every transition of the game keeps the state invariant. */
  lemma TransitionsKeepInv(s: GameState, now: int, key: string, ds: seq<EnemyDraws>)
    requires Inv(s)
    requires |ds| == NUM_OF_ENEMIES && ValidBatchDraws(ds)
    ensures Inv(Update(s, now))
    ensures Inv(KeyDown(s, key))
    ensures ShowMainMenu(s, ds).Some? ==> Inv(ShowMainMenu(s, ds).value)
    ensures StartGame(s, now, ds).Some? ==> Inv(StartGame(s, now, ds).value)
    ensures Refresh(s, ds).Some? ==> Inv(Refresh(s, ds).value)
  {
    UpdateKeepsInv(s, now);
    if ShowMainMenu(s, ds).Some? || StartGame(s, now, ds).Some? {
      FreshBatchHasNoPlayer(s.canvasWidth, s.canvasHeight, ds);
    }
    RefreshKeepsInv(s, ds);
  }

  lemma UpdateKeepsInv(s: GameState, now: int)
    requires Inv(s)
    ensures Inv(Update(s, now))
  {
    var r := Update(s, now);
    if !s.mainMenu && CollidesWithAny(s.player.value, s.enemies) {
      assert r == EndGame(s, now);
    } else if !s.gameOver {
      assert r.enemies == AdvanceAll(s.enemies);
    }
  }

  lemma RefreshKeepsInv(s: GameState, ds: seq<EnemyDraws>)
    requires Inv(s)
    requires |ds| == NUM_OF_ENEMIES && ValidBatchDraws(ds)
    ensures Refresh(s, ds).Some? ==> Inv(Refresh(s, ds).value)
  {
    if Refresh(s, ds).Some? {
      var r := GenerateNewEnemies(s.enemies, s.canvasWidth, s.canvasHeight, ds).value;
      var kept := KeepInGameArea(s.enemies, s.canvasWidth, s.canvasHeight);
      forall i | 0 <= i < |r|
        ensures !r[i].isPlayer
      {
        if i < |kept| {
          assert r[i] == r[..|kept|][i] == kept[i];
          assert kept[i] in s.enemies;
        }
      }
    }
  }
}
