/** Compile-time constants of the game (src/constants.rs), plus the three
    names src/map.rs imports under other spellings (WIDTH, HEIGHT,
    COORDINATE_79), which carry the same values. */
module Constants {

  const MAP_WIDTH: int := 80
  const MAP_HEIGHT: int := 50
  const MAP_TOTAL_DIMENSION: int := MAP_WIDTH * MAP_HEIGHT
  const COORDINATE_X: int := 79
  const COORDINATE_Y: int := 49
  const MAX_ROOMS: int := 30
  const MIN_SIZE_ROOM: int := 6
  const MAX_SIZE_ROOM: int := 10
  const VISIBLE_TILES_RANGE: int := 8

  const WIDTH: int := 80
  const HEIGHT: int := 50
  const COORDINATE_79: int := 79

  /** Number of distinct `usize` values on a 64-bit target: `as usize`
      casts and `usize` arithmetic are taken modulo this. */
  const USIZE_MODULUS: int := 0x1_0000_0000_0000_0000

  function Min(a: int, b: int): int { if a <= b then a else b }
  function Max(a: int, b: int): int { if a >= b then a else b }
  function Abs(a: int): nat { if a >= 0 then a else -a }
}
