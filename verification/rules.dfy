/** The game constants of index.js and the uniform random draw built on `Math.random`. */
module Rules {

  const NUM_OF_ENEMIES: nat := 100
  const MAX_COMPONENT_SPEED: real := 2.0
  const MIN_COMPONENT_SPEED: real := 0.1
  const MAX_COMPONENT_WIDTH: real := 10.0
  const MIN_COMPONENT_WIDTH: real := 2.0
  const SPAWN_OFFSET: real := MAX_COMPONENT_WIDTH * 10.0

  /** A value `Math.random` can return: a real in [0, 1). */
  predicate IsUnitDraw(r: real) {
    0.0 <= r < 1.0
  }

  /** A length `d` scaled by a unit draw. */
  function Scale(d: real, r: real): (v: real)
    requires IsUnitDraw(r)
    ensures 0.0 <= d ==> 0.0 <= v <= d
    ensures 0.0 < d ==> v < d
    ensures r == 0.0 ==> v == 0.0
  {
    assert 0.0 <= d ==> d * r <= d * 1.0;
    assert 0.0 < d ==> d * r < d * 1.0;
    d * r
  }

  /** `getRandom(a, b)`: the unit draw `r` mapped onto [a, b). */
  function GetRandom(a: real, b: real, r: real): (v: real)
    requires IsUnitDraw(r)
    ensures a <= b ==> a <= v <= b
    ensures a < b ==> v < b
    ensures r == 0.0 ==> v == a
  {
    Scale(b - a, r) + a
  }
}
