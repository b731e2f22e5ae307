/**
 * The per-frame movement resolver of the world. W/A/S/D build a candidate
 * position; collision is resolved one axis at a time: x is tried first and
 * rolled back if the region query reports `COLLISION`, then y is tried from
 * the already resolved x. Nothing moves while the command line is open.
 *
 * The region query (`checkBlockState` on the player's world hitbox) is the
 * parameter `probe`: it maps a player position to the mask of the tiles the
 * hitbox overlaps there. The per-frame displacement `speed * dt` is `step`.
 *
 * The world hitbox is a separate piece of state: it is moved to the player
 * only by the two `updateWorldHitbox` calls of the resolver, the second of
 * which happens before the y rollback. So after a blocked vertical move the
 * hitbox stays at the rejected y, and in command mode it does not move.
 */
module Movement {
  import opened BlockStates

  /** The movement keys held this frame. */
  datatype Keys = Keys(w: bool, a: bool, s: bool, d: bool)

  /**
   * The local player's movement state; (hitX, hitY) is the position the world
   * hitbox was last placed at, with the resolver's zero offsets.
   */
  datatype Player = Player(x: int, y: int, facingRight: bool, walking: bool, hitX: int, hitY: int)

  /** Region query: the collision mask of the hitbox for a player standing at (x, y). */
  type Probe = (int, int) -> Mask

  function Sign(b: bool): int { if b then 1 else 0 }

  /** Net horizontal displacement of the held keys: right minus left. */
  function DeltaX(keys: Keys, step: int): int { step * (Sign(keys.d) - Sign(keys.a)) }

  /** Net vertical displacement of the held keys: down minus up. */
  function DeltaY(keys: Keys, step: int): int { step * (Sign(keys.s) - Sign(keys.w)) }

  predicate Blocked(probe: Probe, x: int, y: int) {
    Has(probe(x, y), COLLISION)
  }

  /** `handlePlayerMovement(state, dt)`, with the key updates applied in the order W, A, S, D. */
  function HandlePlayerMovement(commandMode: bool, p: Player, keys: Keys, step: int, probe: Probe): (r: Player)
    ensures commandMode ==> r == p
    ensures !commandMode ==> r.walking == (keys.w || keys.a || keys.s || keys.d)
    ensures !commandMode ==> r.facingRight == (keys.d || (!keys.a && p.facingRight))
    ensures !commandMode ==>
      r.x == if Blocked(probe, p.x + DeltaX(keys, step), p.y) then p.x else p.x + DeltaX(keys, step)
    ensures !commandMode ==>
      r.y == if Blocked(probe, r.x, p.y + DeltaY(keys, step)) then p.y else p.y + DeltaY(keys, step)
    ensures !commandMode ==> r.hitX == r.x && r.hitY == p.y + DeltaY(keys, step)
  {
    if commandMode then p
    else
      var x0, y0 := p.x, p.y;
      var y1 := if keys.w then y0 - step else y0;
      var x1, facing1 := if keys.a then x0 - step else x0, if keys.a then false else p.facingRight;
      var y2 := if keys.s then y1 + step else y1;
      var x2, facing2 := if keys.d then x1 + step else x1, if keys.d then true else facing1;
      var moving := keys.w || keys.a || keys.s || keys.d;
      var rx := if Has(probe(x2, y0), COLLISION) then x0 else x2;
      var ry := if Has(probe(rx, y2), COLLISION) then y0 else y2;
      Player(rx, ry, facing2, moving, rx, y2)
  }

  /** With no key held the player stays put, whatever the map reports. */
  lemma NoKeysNoMove(p: Player, step: int, probe: Probe)
    ensures var r := HandlePlayerMovement(false, p, Keys(false, false, false, false), step, probe);
      r.x == p.x && r.y == p.y && !r.walking && r.facingRight == p.facingRight
  {
  }

  /** A and D together cancel horizontally and leave the player facing right. */
  lemma OppositeKeysCancel(p: Player, step: int, probe: Probe)
    ensures var r := HandlePlayerMovement(false, p, Keys(false, true, false, true), step, probe);
      r.x == p.x && r.y == p.y && r.facingRight && r.walking
  {
  }

  /**
   * Each axis moves either all the way or not at all: the final position is
   * the original or the candidate on each axis independently.
   */
  lemma AxesMoveAllOrNothing(commandMode: bool, p: Player, keys: Keys, step: int, probe: Probe)
    ensures var r := HandlePlayerMovement(commandMode, p, keys, step, probe);
      && (r.x == p.x || r.x == p.x + DeltaX(keys, step))
      && (r.y == p.y || r.y == p.y + DeltaY(keys, step))
  {
  }

  /**
   * The resolver never ends a frame inside a solid region it started
   * outside of: if the start position is free, so is the resolved one.
   */
  lemma StaysOutOfCollision(p: Player, keys: Keys, step: int, probe: Probe)
    requires !Blocked(probe, p.x, p.y)
    ensures var r := HandlePlayerMovement(false, p, keys, step, probe);
      !Blocked(probe, r.x, r.y)
  {
    var r := HandlePlayerMovement(false, p, keys, step, probe);
    var cx, cy := p.x + DeltaX(keys, step), p.y + DeltaY(keys, step);
    if r.y == cy {
      assert !Blocked(probe, r.x, cy);
    } else if r.x == cx {
      assert !Blocked(probe, cx, p.y);
    }
  }

  /**
   * Wall sliding: a diagonal move that is blocked horizontally but free
   * vertically keeps x and still moves y.
   */
  lemma SlidesAlongWall(p: Player, keys: Keys, step: int, probe: Probe)
    requires Blocked(probe, p.x + DeltaX(keys, step), p.y)
    requires !Blocked(probe, p.x, p.y + DeltaY(keys, step))
    ensures var r := HandlePlayerMovement(false, p, keys, step, probe);
      r.x == p.x && r.y == p.y + DeltaY(keys, step)
  {
  }

  /**
   * The hitbox is left where the resolver last probed: it coincides with the
   * player exactly when the vertical candidate was accepted or there was none.
   */
  lemma HitboxLagsAfterRollback(p: Player, keys: Keys, step: int, probe: Probe)
    ensures var r := HandlePlayerMovement(false, p, keys, step, probe);
      (r.hitX, r.hitY) == (r.x, r.y) <==> !Blocked(probe, r.x, p.y + DeltaY(keys, step)) || DeltaY(keys, step) == 0
  {
  }
}
