/**
 * The interaction prompts: each frame the region under the player's hitbox is
 * queried; `enterHouse` mirrors the `ENTERABLE` bit, while `allowBreak` is
 * raised by the `BREAKABLE` bit and never lowered.
 */
module Interaction {
  import opened BlockStates

  datatype Flags = Flags(enterHouse: bool, allowBreak: bool)

  /** `checkIfPosIsEnterable()` given the mask of the player's hitbox. */
  function CheckIfPosIsEnterable(f: Flags, mask: Mask): (r: Flags)
    ensures r.enterHouse <==> Has(mask, ENTERABLE)
    ensures r.allowBreak == f.allowBreak
  {
    if Has(mask, ENTERABLE) then f.(enterHouse := true) else f.(enterHouse := false)
  }

  /** `checkIfPosIsBreakable()` given the mask of the player's hitbox. */
  function CheckIfPosIsBreakable(f: Flags, mask: Mask): (r: Flags)
    ensures r.allowBreak <==> f.allowBreak || Has(mask, BREAKABLE)
    ensures r.enterHouse == f.enterHouse
  {
    if Has(mask, BREAKABLE) then f.(allowBreak := true) else f
  }

  /** Both checks of one frame, enterable first, on the same mask. */
  function CheckFrame(f: Flags, mask: Mask): (r: Flags)
    ensures r.enterHouse <==> Has(mask, ENTERABLE)
    ensures r.allowBreak <==> f.allowBreak || Has(mask, BREAKABLE)
  {
    CheckIfPosIsBreakable(CheckIfPosIsEnterable(f, mask), mask)
  }

  /** The checks of many frames, one mask per frame. */
  function CheckFrames(f: Flags, masks: seq<Mask>): Flags
    decreases |masks|
  {
    if |masks| == 0 then f else CheckFrames(CheckFrame(f, masks[0]), masks[1..])
  }

  /**
   * Over any run of frames, `enterHouse` reflects only the last frame's mask,
   * and `allowBreak` holds exactly when it held before or some frame's mask
   * was breakable.
   */
  lemma {:induction false} FlagsOverFrames(f: Flags, masks: seq<Mask>)
    ensures |masks| > 0 ==> (CheckFrames(f, masks).enterHouse <==> Has(masks[|masks| - 1], ENTERABLE))
    ensures |masks| == 0 ==> CheckFrames(f, masks) == f
    ensures CheckFrames(f, masks).allowBreak
            <==> f.allowBreak || exists i :: 0 <= i < |masks| && Has(masks[i], BREAKABLE)
    decreases |masks|
  {
    if |masks| > 0 {
      var rest := masks[1..];
      FlagsOverFrames(CheckFrame(f, masks[0]), rest);
      assert forall i :: 0 <= i < |rest| ==> rest[i] == masks[i + 1];
      if exists i :: 0 <= i < |masks| && Has(masks[i], BREAKABLE) {
        var i :| 0 <= i < |masks| && Has(masks[i], BREAKABLE);
        if i > 0 { assert Has(rest[i - 1], BREAKABLE); }
      }
    }
  }
}
