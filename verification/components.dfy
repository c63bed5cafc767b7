/**
 * The `Component` class of index.js: a coloured rectangle with a position
 * and a speed, used both for the player and for every enemy.
 */
module Components {
  import opened Rules

  /** A rectangle of the game; `(x, y)` is its top-left corner, y grows downwards. */
  datatype Component = Component(
    width: real,
    height: real,
    color: string,
    x: real,
    y: real,
    isPlayer: bool,
    speedX: real,
    speedY: real)

  /** The four `Math.random` draws an enemy's constructor consumes, in order. */
  datatype SpeedDraws = SpeedDraws(directionX: real, directionY: real, magnitudeX: real, magnitudeY: real)

  predicate ValidSpeedDraws(d: SpeedDraws) {
    IsUnitDraw(d.directionX) && IsUnitDraw(d.directionY) && IsUnitDraw(d.magnitudeX) && IsUnitDraw(d.magnitudeY)
  }

  function Abs(v: real): real {
    if v < 0.0 then -v else v
  }

  /** An enemy's speed on one axis: non-zero, below the maximum, at least the minimum. */
  predicate IsEnemySpeed(v: real) {
    MIN_COMPONENT_SPEED <= Abs(v) < MAX_COMPONENT_SPEED
  }

  /** `getRandom(-1, 1) > 0 ? 1 : -1`: a direction that is positive for draws above one half. */
  function Direction(r: real): (sign: real)
    requires IsUnitDraw(r)
    ensures sign == 1.0 || sign == -1.0
    ensures sign == 1.0 <==> r > 0.5
  {
    if GetRandom(-1.0, 1.0, r) > 0.0 then 1.0 else -1.0
  }

  /**
   * `new Component(width, height, color, x, y, isPlayer)`: a player starts at
   * rest; an enemy gets a random speed and sign on each axis.
   */
  function NewComponent(width: real, height: real, color: string, x: real, y: real, isPlayer: bool, d: SpeedDraws): (c: Component)
    requires isPlayer || ValidSpeedDraws(d)
    ensures c.width == width && c.height == height && c.color == color
    ensures c.x == x && c.y == y && c.isPlayer == isPlayer
    ensures isPlayer ==> c.speedX == 0.0 && c.speedY == 0.0
    ensures !isPlayer ==> IsEnemySpeed(c.speedX) && IsEnemySpeed(c.speedY)
  {
    if isPlayer then
      Component(width, height, color, x, y, isPlayer, 0.0, 0.0)
    else
      var sx := GetRandom(MIN_COMPONENT_SPEED, MAX_COMPONENT_SPEED, d.magnitudeX) * Direction(d.directionX);
      var sy := GetRandom(MIN_COMPONENT_SPEED, MAX_COMPONENT_SPEED, d.magnitudeY) * Direction(d.directionY);
      Component(width, height, color, x, y, isPlayer, sx, sy)
  }

  /** `newPos()`: one tick of linear motion, no clamping to the canvas. */
  function NewPos(c: Component): (r: Component)
    ensures r.(x := c.x, y := c.y) == c
    ensures r.x - c.x == c.speedX && r.y - c.y == c.speedY
  {
    c.(x := c.x + c.speedX, y := c.y + c.speedY)
  }

  /** `k` consecutive ticks of `NewPos`. */
  function Advance(c: Component, k: nat): Component {
    if k == 0 then c else NewPos(Advance(c, k - 1))
  }

  /**
   * After `k` ticks a component has moved by `k` times its speed on each
   * axis, and nothing but its position has changed.
   */
  lemma {:induction false} AdvanceDisplacement(c: Component, k: nat)
    ensures Advance(c, k) == c.(x := c.x + k as real * c.speedX, y := c.y + k as real * c.speedY)
  {
    if k > 0 {
      AdvanceDisplacement(c, k - 1);
      assert (k - 1) as real * c.speedX + c.speedX == k as real * c.speedX;
      assert (k - 1) as real * c.speedY + c.speedY == k as real * c.speedY;
    }
  }

  predicate HasArea(c: Component) {
    c.width > 0.0 && c.height > 0.0
  }

  function Max(u: real, v: real): real {
    if u < v then v else u
  }

  function Min(u: real, v: real): real {
    if u < v then u else v
  }

  /**
   * `a.checkCollision(b)`: the boxes overlap, every comparison strict. For
   * boxes with area, that is: on each axis the larger of the two left (top)
   * edges lies below the smaller of the two right (bottom) edges.
   */
  predicate CheckCollision(a: Component, b: Component): (hit: bool)
    ensures HasArea(a) && HasArea(b) ==>
      (hit <==> && Max(a.x, b.x) < Min(a.x + a.width, b.x + b.width)
                && Max(a.y, b.y) < Min(a.y + a.height, b.y + b.height))
  {
    && a.x < b.x + b.width
    && a.x + a.width > b.x
    && a.y < b.y + b.height
    && a.y + a.height > b.y
  }

  /** Collision does not depend on which component asks. */
  lemma CheckCollisionSymmetric(a: Component, b: Component)
    ensures CheckCollision(a, b) == CheckCollision(b, a)
  {}

  /** `(px, py)` lies in the open interior of `c`'s box. */
  predicate StrictlyInside(c: Component, px: real, py: real) {
    c.x < px < c.x + c.width && c.y < py < c.y + c.height
  }

  /**
   * For boxes with area, a collision is exactly a point the two open boxes
   * share; so boxes that only touch along an edge or at a corner never collide.
   */
  lemma CollisionIffSharedInterior(a: Component, b: Component)
    requires HasArea(a) && HasArea(b)
    ensures CheckCollision(a, b) <==> exists px, py :: StrictlyInside(a, px, py) && StrictlyInside(b, px, py)
  {
    if CheckCollision(a, b) {
      var lowX := if a.x < b.x then b.x else a.x;
      var highX := if a.x + a.width < b.x + b.width then a.x + a.width else b.x + b.width;
      var lowY := if a.y < b.y then b.y else a.y;
      var highY := if a.y + a.height < b.y + b.height then a.y + a.height else b.y + b.height;
      var px, py := (lowX + highX) / 2.0, (lowY + highY) / 2.0;
      assert StrictlyInside(a, px, py) && StrictlyInside(b, px, py);
    }
  }

  /** Boxes that share only an edge or a corner do not collide. */
  lemma TouchingDoesNotCollide(a: Component, b: Component)
    requires a.x + a.width == b.x || b.x + b.width == a.x || a.y + a.height == b.y || b.y + b.height == a.y
    ensures !CheckCollision(a, b)
  {}

  /** Two components moving with the same speed keep their collision status. */
  lemma CollisionKeptUnderCommonMove(a: Component, b: Component)
    requires a.speedX == b.speedX && a.speedY == b.speedY
    ensures CheckCollision(NewPos(a), NewPos(b)) == CheckCollision(a, b)
  {}

  predicate InClosedBox(c: Component, px: real, py: real) {
    c.x <= px <= c.x + c.width && c.y <= py <= c.y + c.height
  }

  predicate InCanvas(px: real, py: real, width: nat, height: nat) {
    0.0 <= px <= width as real && 0.0 <= py <= height as real
  }

  /**
   * `isInGameArea()`: the whole box lies in the canvas [0, width] x [0, height];
   * for a box of non-negative size, exactly when its top-left and its
   * bottom-right corners are both on the canvas.
   */
  predicate IsInGameArea(c: Component, width: nat, height: nat): (inside: bool)
    ensures c.width >= 0.0 && c.height >= 0.0 ==>
      (inside <==> InCanvas(c.x, c.y, width, height) && InCanvas(c.x + c.width, c.y + c.height, width, height))
  {
    && c.x >= 0.0
    && c.y >= 0.0
    && c.x + c.width <= width as real
    && c.y + c.height <= height as real
  }

  /** `isInGameArea` holds exactly when every point of the box is on the canvas. */
  lemma InGameAreaIffBoxOnCanvas(c: Component, width: nat, height: nat)
    requires c.width >= 0.0 && c.height >= 0.0
    ensures IsInGameArea(c, width, height) <==> forall px, py :: InClosedBox(c, px, py) ==> InCanvas(px, py, width, height)
  {
    if forall px, py :: InClosedBox(c, px, py) ==> InCanvas(px, py, width, height) {
      assert InClosedBox(c, c.x, c.y);
      assert InClosedBox(c, c.x + c.width, c.y + c.height);
    }
  }

  /** `createPlayer()`'s component: red, of the maximum width, at rest, its corner at the canvas centre. */
  function NewPlayer(width: nat, height: nat): (p: Component)
    ensures p.isPlayer && p.color == "red"
    ensures p.width == MAX_COMPONENT_WIDTH && p.height == MAX_COMPONENT_WIDTH
    ensures 2.0 * p.x == width as real && 2.0 * p.y == height as real
    ensures p.speedX == 0.0 && p.speedY == 0.0
  {
    NewComponent(MAX_COMPONENT_WIDTH, MAX_COMPONENT_WIDTH, "red",
      width as real / 2.0, height as real / 2.0, true, SpeedDraws(0.0, 0.0, 0.0, 0.0))
  }

  predicate IsArrowKey(key: string) {
    key == "ArrowUp" || key == "ArrowDown" || key == "ArrowLeft" || key == "ArrowRight"
  }

  /**
   * The player's `onkeydown` handler: an arrow key sets the speed on its axis
   * to the maximum in its direction and stops the other axis; any other key
   * changes nothing.
   */
  function OnKeyDown(key: string, p: Component): (r: Component)
    ensures r.(speedX := p.speedX, speedY := p.speedY) == p
    ensures !IsArrowKey(key) ==> r == p
    ensures IsArrowKey(key) ==> (r.speedX == 0.0 <==> r.speedY != 0.0)
    ensures IsArrowKey(key) ==> Abs(r.speedX) + Abs(r.speedY) == MAX_COMPONENT_SPEED
    ensures key == "ArrowUp" ==> r.speedY < 0.0
    ensures key == "ArrowDown" ==> r.speedY > 0.0
    ensures key == "ArrowLeft" ==> r.speedX < 0.0
    ensures key == "ArrowRight" ==> r.speedX > 0.0
  {
    var playerSpeed := MAX_COMPONENT_SPEED;
    match key
    case "ArrowUp" => p.(speedX := 0.0, speedY := -playerSpeed)
    case "ArrowDown" => p.(speedX := 0.0, speedY := playerSpeed)
    case "ArrowLeft" => p.(speedX := -playerSpeed, speedY := 0.0)
    case "ArrowRight" => p.(speedX := playerSpeed, speedY := 0.0)
    case _ => p
  }

  /** Only the last arrow key pressed decides the player's speed. */
  lemma LastArrowKeyWins(first: string, last: string, p: Component)
    requires IsArrowKey(last)
    ensures OnKeyDown(last, OnKeyDown(first, p)) == OnKeyDown(last, p)
  {}

  /**
   * Each arrow key moves the player, on the next tick, by the maximum speed
   * in its own direction (up is towards smaller y) and not at all on the other axis.
   */
  lemma ArrowKeyDirections(p: Component)
    ensures var up := NewPos(OnKeyDown("ArrowUp", p)); up.y == p.y - MAX_COMPONENT_SPEED && up.x == p.x
    ensures var down := NewPos(OnKeyDown("ArrowDown", p)); down.y == p.y + MAX_COMPONENT_SPEED && down.x == p.x
    ensures var left := NewPos(OnKeyDown("ArrowLeft", p)); left.x == p.x - MAX_COMPONENT_SPEED && left.y == p.y
    ensures var right := NewPos(OnKeyDown("ArrowRight", p)); right.x == p.x + MAX_COMPONENT_SPEED && right.y == p.y
  {}
}
