/**
 * Enemy creation in index.js: the spawn-position rejection test, one new
 * enemy, a batch of `NUM_OF_ENEMIES` enemies and the periodic refresh that
 * keeps the enemies still on the canvas.
 */
module Spawner {
  import opened Options
  import opened Rules
  import opened Colour
  import opened Components

  /** The acceptance test of the spawn loop: off the canvas, with margin, on both axes. */
  predicate SpawnAccepted(x: real, y: real, width: nat, height: nat): (ok: bool)
    ensures ok ==> !InCanvas(x, y, width, height)
    ensures ok <==> !(-MAX_COMPONENT_WIDTH <= x <= width as real) && !(-MAX_COMPONENT_WIDTH <= y <= height as real)
  {
    && (x < -MAX_COMPONENT_WIDTH || x > width as real)
    && (y < -MAX_COMPONENT_WIDTH || y > height as real)
  }

  /** Every position the spawn test accepts is outside the game area, whatever the box size. */
  lemma AcceptedSpawnNotInGameArea(c: Component, width: nat, height: nat)
    requires SpawnAccepted(c.x, c.y, width, height)
    requires c.width >= 0.0 && c.height >= 0.0
    ensures !IsInGameArea(c, width, height)
  {}

  /**
   * A box no larger than the maximum width placed at an accepted position
   * cannot collide with any component lying in the game area, the player included.
   */
  lemma AcceptedSpawnClearOfGameArea(e: Component, p: Component, width: nat, height: nat)
    requires SpawnAccepted(e.x, e.y, width, height)
    requires e.width <= MAX_COMPONENT_WIDTH && e.height <= MAX_COMPONENT_WIDTH
    requires IsInGameArea(p, width, height)
    ensures !CheckCollision(p, e) && !CheckCollision(e, p)
  {}

  predicate IsUnitPair(draw: (real, real)) {
    IsUnitDraw(draw.0) && IsUnitDraw(draw.1)
  }

  predicate ValidPositionDraws(draws: seq<(real, real)>) {
    forall i :: 0 <= i < |draws| ==> IsUnitPair(draws[i])
  }

  /** The candidate `(x, y)` one pass of the spawn loop draws, `SPAWN_OFFSET` beyond each edge. */
  function Candidate(draw: (real, real), width: nat, height: nat): (p: (real, real))
    requires IsUnitPair(draw)
    ensures -SPAWN_OFFSET <= p.0 < width as real + SPAWN_OFFSET
    ensures -SPAWN_OFFSET <= p.1 < height as real + SPAWN_OFFSET
  {
    (GetRandom(-SPAWN_OFFSET, width as real + SPAWN_OFFSET, draw.0),
     GetRandom(-SPAWN_OFFSET, height as real + SPAWN_OFFSET, draw.1))
  }

  predicate Accepts(draw: (real, real), width: nat, height: nat)
    requires IsUnitPair(draw)
  {
    var p := Candidate(draw, width, height);
    SpawnAccepted(p.0, p.1, width, height)
  }

  /** The index of the first draw the spawn loop accepts, if any draw is accepted. */
  function FirstAccepted(draws: seq<(real, real)>, width: nat, height: nat): (r: Option<nat>)
    requires ValidPositionDraws(draws)
    ensures r.Some? ==> r.value < |draws| && Accepts(draws[r.value], width, height)
    ensures r.Some? ==> forall j :: 0 <= j < r.value ==> !Accepts(draws[j], width, height)
    ensures r.None? <==> forall j :: 0 <= j < |draws| ==> !Accepts(draws[j], width, height)
  {
    if |draws| == 0 then None
    else if Accepts(draws[0], width, height) then Some(0)
    else
      match FirstAccepted(draws[1..], width, height)
      case None => None
      case Some(i) => Some(i + 1)
  }

  /**
   * The position the spawn loop settles on: the candidate of the first
   * accepted draw; `None` when every supplied draw is rejected, that is, when
   * the loop would still be drawing.
   */
  function SpawnPosition(draws: seq<(real, real)>, width: nat, height: nat): (r: Option<(real, real)>)
    requires ValidPositionDraws(draws)
    ensures r.Some? ==> SpawnAccepted(r.value.0, r.value.1, width, height)
  {
    match FirstAccepted(draws, width, height)
    case None => None
    case Some(i) => Some(Candidate(draws[i], width, height))
  }

  /** The rejection loop `while (!validSpawnPosition) { ... }` over the supplied draws. */
  method FindSpawnPosition(draws: seq<(real, real)>, width: nat, height: nat) returns (pos: Option<(real, real)>)
    requires ValidPositionDraws(draws)
    ensures pos == SpawnPosition(draws, width, height)
  {
    var i := 0;
    while i < |draws|
      invariant 0 <= i <= |draws|
      invariant forall j :: 0 <= j < i ==> !Accepts(draws[j], width, height)
    {
      var p := Candidate(draws[i], width, height);
      if SpawnAccepted(p.0, p.1, width, height) {
        assert FirstAccepted(draws, width, height) == Some(i);
        return Some(p);
      }
      i := i + 1;
    }
    return None;
  }

  /**
   * On every canvas the loop has a positive chance to stop: any draw pair
   * whose two draws are both below 90 / (side + 200) is accepted.
   */
  lemma LowDrawsAccepted(draw: (real, real), width: nat, height: nat)
    requires IsUnitPair(draw)
    requires draw.0 * (width as real + 2.0 * SPAWN_OFFSET) < SPAWN_OFFSET - MAX_COMPONENT_WIDTH
    requires draw.1 * (height as real + 2.0 * SPAWN_OFFSET) < SPAWN_OFFSET - MAX_COMPONENT_WIDTH
    ensures Accepts(draw, width, height)
  {
    var p := Candidate(draw, width, height);
    assert p.0 == (width as real + 2.0 * SPAWN_OFFSET) * draw.0 - SPAWN_OFFSET;
    assert p.1 == (height as real + 2.0 * SPAWN_OFFSET) * draw.1 - SPAWN_OFFSET;
  }

  /** The `Math.random` draws one call of `generateNewEnemy` consumes. */
  datatype EnemyDraws = EnemyDraws(grey: real, width: real, positions: seq<(real, real)>, speeds: SpeedDraws)

  predicate ValidEnemyDraws(d: EnemyDraws) {
    IsUnitDraw(d.grey) && IsUnitDraw(d.width) && ValidPositionDraws(d.positions) && ValidSpeedDraws(d.speeds)
  }

  predicate ValidBatchDraws(ds: seq<EnemyDraws>) {
    forall i :: 0 <= i < |ds| ==> ValidEnemyDraws(ds[i])
  }

  /** What every enemy `generateNewEnemy` pushes satisfies. */
  predicate IsFreshEnemy(e: Component, width: nat, height: nat) {
    && !e.isPlayer
    && e.width == e.height
    && MIN_COMPONENT_WIDTH <= e.width < MAX_COMPONENT_WIDTH
    && IsGrey(e.color)
    && SpawnAccepted(e.x, e.y, width, height)
    && IsEnemySpeed(e.speedX)
    && IsEnemySpeed(e.speedY)
  }

  /**
   * `generateNewEnemy()`: a grey square enemy of random width at the first
   * accepted spawn position; `None` when no supplied position draw is accepted.
   */
  function GenerateNewEnemy(width: nat, height: nat, d: EnemyDraws): (r: Option<Component>)
    requires ValidEnemyDraws(d)
  {
    var color := GreyColour(GreyLevel(d.grey));
    var size := GetRandom(MIN_COMPONENT_WIDTH, MAX_COMPONENT_WIDTH, d.width);
    match SpawnPosition(d.positions, width, height)
    case None => None
    case Some(p) => Some(NewComponent(size, size, color, p.0, p.1, false, d.speeds))
  }

  /**
   * A new enemy exists exactly when some position draw is accepted; it is
   * then a fresh enemy (grey, square, sized and sped within the limits, at an
   * accepted position) and lies outside the game area.
   */
  lemma GenerateNewEnemySpec(width: nat, height: nat, d: EnemyDraws)
    requires ValidEnemyDraws(d)
    ensures var r := GenerateNewEnemy(width, height, d);
      && (r.Some? <==> exists j :: 0 <= j < |d.positions| && Accepts(d.positions[j], width, height))
      && (r.Some? ==> IsFreshEnemy(r.value, width, height))
      && (r.Some? ==> !IsInGameArea(r.value, width, height))
  {
    var level := GreyLevel(d.grey);
    GreyColourShape(level);
    var r := GenerateNewEnemy(width, height, d);
    if r.Some? {
      AcceptedSpawnNotInGameArea(r.value, width, height);
    }
  }

  /** The loop `for (i = 0; i < n; i++) generateNewEnemy();`, one draw record per enemy. */
  function SpawnAll(width: nat, height: nat, ds: seq<EnemyDraws>): (r: Option<seq<Component>>)
    requires ValidBatchDraws(ds)
    ensures r.Some? ==> |r.value| == |ds|
    ensures r.Some? ==> forall i :: 0 <= i < |ds| ==> GenerateNewEnemy(width, height, ds[i]) == Some(r.value[i])
    ensures r.None? <==> exists i :: 0 <= i < |ds| && GenerateNewEnemy(width, height, ds[i]).None?
  {
    if |ds| == 0 then Some([])
    else
      var front := ds[..|ds| - 1];
      match SpawnAll(width, height, front)
      case None => None
      case Some(prev) =>
        match GenerateNewEnemy(width, height, ds[|ds| - 1])
        case None => None
        case Some(e) =>
          var batch := prev + [e];
          assert forall i :: 0 <= i < |ds| ==> GenerateNewEnemy(width, height, ds[i]) == Some(batch[i]) by {
            forall i | 0 <= i < |ds|
              ensures GenerateNewEnemy(width, height, ds[i]) == Some(batch[i])
            {
              if i < |front| {
                assert front[i] == ds[i] && batch[i] == prev[i];
                assert GenerateNewEnemy(width, height, front[i]) == Some(prev[i]);
              } else {
                assert batch[i] == e;
                assert ds[i] == ds[|ds| - 1];
              }
            }
          }
          Some(batch)
  }

  /**
   * `generateEnemies(existing)`: the existing enemies, in order, followed by
   * `NUM_OF_ENEMIES` freshly spawned ones.
   */
  function GenerateEnemies(existing: seq<Component>, width: nat, height: nat, ds: seq<EnemyDraws>): (r: Option<seq<Component>>)
    requires |ds| == NUM_OF_ENEMIES && ValidBatchDraws(ds)
    ensures r.Some? ==> |r.value| == |existing| + NUM_OF_ENEMIES
    ensures r.Some? ==> r.value[..|existing|] == existing
    ensures r.Some? ==> forall i :: |existing| <= i < |r.value| ==> IsFreshEnemy(r.value[i], width, height)
    ensures r.None? <==> exists i :: 0 <= i < |ds| && GenerateNewEnemy(width, height, ds[i]).None?
  {
    match SpawnAll(width, height, ds)
    case None => None
    case Some(batch) =>
      var r := existing + batch;
      assert forall i :: |existing| <= i < |r| ==> IsFreshEnemy(r[i], width, height) by {
        forall i | |existing| <= i < |r|
          ensures IsFreshEnemy(r[i], width, height)
        {
          var k := i - |existing|;
          assert r[i] == batch[k];
          GenerateNewEnemySpec(width, height, ds[k]);
        }
      }
      Some(r)
  }

  /** The loop in `generateNewEnemies` keeping each enemy still inside the game area. */
  function KeepInGameArea(enemies: seq<Component>, width: nat, height: nat): (r: seq<Component>)
    ensures |r| <= |enemies|
    ensures forall i :: 0 <= i < |r| ==> IsInGameArea(r[i], width, height)
    ensures forall e :: e in r ==> e in enemies
    ensures forall i :: 0 <= i < |enemies| && IsInGameArea(enemies[i], width, height) ==> enemies[i] in r
  {
    if |enemies| == 0 then []
    else
      var kept := KeepInGameArea(enemies[..|enemies| - 1], width, height);
      var last := enemies[|enemies| - 1];
      assert forall i :: 0 <= i < |enemies| - 1 ==> enemies[i] == enemies[..|enemies| - 1][i];
      if IsInGameArea(last, width, height) then kept + [last] else kept
  }

  /** The positions of the enemies inside the game area, in increasing order. */
  function InGameAreaIndices(enemies: seq<Component>, width: nat, height: nat): (idx: seq<nat>)
    ensures forall k :: 0 <= k < |idx| ==> idx[k] < |enemies|
  {
    if |enemies| == 0 then []
    else
      var prev := InGameAreaIndices(enemies[..|enemies| - 1], width, height);
      if IsInGameArea(enemies[|enemies| - 1], width, height) then prev + [|enemies| - 1] else prev
  }

  /** The kept enemies are those at the in-area positions, in the same order. */
  lemma {:induction false} KeepInGameAreaAtIndices(enemies: seq<Component>, width: nat, height: nat)
    ensures var idx := InGameAreaIndices(enemies, width, height);
      && var r := KeepInGameArea(enemies, width, height);
      && |r| == |idx|
      && forall k :: 0 <= k < |idx| ==> r[k] == enemies[idx[k]]
    decreases |enemies|
  {
    if |enemies| > 0 {
      var n := |enemies| - 1;
      KeepInGameAreaAtIndices(enemies[..n], width, height);
    }
  }

  predicate StrictlyIncreasing(idx: seq<nat>) {
    forall k, l :: 0 <= k < l < |idx| ==> idx[k] < idx[l]
  }

  /** The in-area positions are strictly increasing. */
  lemma {:induction false} InGameAreaIndicesIncreasing(enemies: seq<Component>, width: nat, height: nat)
    ensures StrictlyIncreasing(InGameAreaIndices(enemies, width, height))
    decreases |enemies|
  {
    if |enemies| > 0 {
      var n := |enemies| - 1;
      InGameAreaIndicesIncreasing(enemies[..n], width, height);
      var prev := InGameAreaIndices(enemies[..n], width, height);
      var idx := InGameAreaIndices(enemies, width, height);
      assert forall k :: 0 <= k < |prev| ==> prev[k] < n;
      if IsInGameArea(enemies[n], width, height) {
        assert idx == prev + [n];
        forall k, l | 0 <= k < l < |idx|
          ensures idx[k] < idx[l]
        {
          if l == |prev| {
            assert idx[k] == prev[k];
          } else {
            assert idx[k] == prev[k] && idx[l] == prev[l];
          }
        }
      } else {
        assert idx == prev;
      }
    }
  }

  /** A position is listed exactly when the enemy there is inside the game area. */
  lemma {:induction false} InGameAreaIndicesExact(enemies: seq<Component>, width: nat, height: nat)
    ensures var idx := InGameAreaIndices(enemies, width, height);
      forall i :: 0 <= i < |enemies| ==> (i in idx <==> IsInGameArea(enemies[i], width, height))
    decreases |enemies|
  {
    if |enemies| > 0 {
      var n := |enemies| - 1;
      var front := enemies[..n];
      InGameAreaIndicesExact(front, width, height);
      var idx := InGameAreaIndices(enemies, width, height);
      var prev := InGameAreaIndices(front, width, height);
      forall i | 0 <= i < |enemies|
        ensures i in idx <==> IsInGameArea(enemies[i], width, height)
      {
        if i < n {
          assert enemies[i] == front[i];
          assert i in idx <==> i in prev;
        }
      }
    }
  }

  /** An enemy list entirely inside the game area is kept whole. */
  lemma {:induction false} KeepAllInGameArea(enemies: seq<Component>, width: nat, height: nat)
    requires forall i :: 0 <= i < |enemies| ==> IsInGameArea(enemies[i], width, height)
    ensures KeepInGameArea(enemies, width, height) == enemies
    decreases |enemies|
  {
    if |enemies| > 0 {
      var n := |enemies| - 1;
      KeepAllInGameArea(enemies[..n], width, height);
      assert enemies[..n] + [enemies[n]] == enemies;
    }
  }

  /**
   * `generateNewEnemies()`: the enemies inside the game area, in their order,
   * followed by a fresh batch. The batch is never trimmed, so the result
   * holds at least `NUM_OF_ENEMIES` enemies.
   */
  function GenerateNewEnemies(enemies: seq<Component>, width: nat, height: nat, ds: seq<EnemyDraws>): (r: Option<seq<Component>>)
    requires |ds| == NUM_OF_ENEMIES && ValidBatchDraws(ds)
    ensures r.Some? ==> |r.value| >= NUM_OF_ENEMIES
    ensures r.Some? ==>
      var kept := KeepInGameArea(enemies, width, height);
      && |r.value| == |kept| + NUM_OF_ENEMIES
      && r.value[..|kept|] == kept
      && forall i :: |kept| <= i < |r.value| ==> IsFreshEnemy(r.value[i], width, height)
    ensures r.None? <==> exists i :: 0 <= i < |ds| && GenerateNewEnemy(width, height, ds[i]).None?
  {
    GenerateEnemies(KeepInGameArea(enemies, width, height), width, height, ds)
  }

  /**
   * After a refresh an enemy is inside the game area exactly when it is one
   * of the retained ones: every fresh enemy starts outside.
   */
  lemma RefreshInAreaExactlyRetained(enemies: seq<Component>, width: nat, height: nat, ds: seq<EnemyDraws>)
    requires |ds| == NUM_OF_ENEMIES && ValidBatchDraws(ds)
    ensures GenerateNewEnemies(enemies, width, height, ds).Some? ==>
      var r := GenerateNewEnemies(enemies, width, height, ds).value;
      var kept := KeepInGameArea(enemies, width, height);
      forall i :: 0 <= i < |r| ==> (IsInGameArea(r[i], width, height) <==> i < |kept|)
  {
    if GenerateNewEnemies(enemies, width, height, ds).None? {
      return;
    }
    var r := GenerateNewEnemies(enemies, width, height, ds).value;
    var kept := KeepInGameArea(enemies, width, height);
    forall i | 0 <= i < |r|
      ensures IsInGameArea(r[i], width, height) <==> i < |kept|
    {
      if i < |kept| {
        assert r[i] == r[..|kept|][i] == kept[i];
      } else {
        AcceptedSpawnNotInGameArea(r[i], width, height);
      }
    }
  }

  /**
   * The refresh does not cap the collection: when every enemy is still in
   * the game area, all of them stay and a full batch is added.
   */
  lemma RefreshGrowsWhenAllInArea(enemies: seq<Component>, width: nat, height: nat, ds: seq<EnemyDraws>)
    requires |ds| == NUM_OF_ENEMIES && ValidBatchDraws(ds)
    requires forall i :: 0 <= i < |enemies| ==> IsInGameArea(enemies[i], width, height)
    ensures var r := GenerateNewEnemies(enemies, width, height, ds);
      r.Some? ==> |r.value| == |enemies| + NUM_OF_ENEMIES && r.value[..|enemies|] == enemies
  {
    KeepAllInGameArea(enemies, width, height);
  }
}
