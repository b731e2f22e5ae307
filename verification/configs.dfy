/** Compile-time constants of the client. */
module Configs {

  const WIDTH: int := 800
  const HEIGHT: int := 600
  const TILE_SIZE: int := 64
}
