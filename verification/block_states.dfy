/**
 * The `BlockState` bit mask: the result of a collision query is an `int`
 * whose low three bits say whether the queried region is solid, breakable
 * and enterable. Callers test one flag at a time with `mask & FLAG`.
 */
module BlockStates {

  const NONE: int := 0
  const COLLISION: int := 1
  const BREAKABLE: int := 2
  const ENTERABLE: int := 4

  /** Every value a combination of the three flags can take. */
  type Mask = m: int | 0 <= m < 8

  predicate IsFlag(bit: int) {
    bit == COLLISION || bit == BREAKABLE || bit == ENTERABLE
  }

  /** `mask & bit` is non-zero, for a single-bit flag and a non-negative mask. */
  predicate Has(mask: int, bit: int)
    requires 0 <= mask
    requires IsFlag(bit)
  {
    (mask / bit) % 2 == 1
  }

  /** The mask with exactly the given flags set. */
  function FromFlags(solid: bool, breakable: bool, enterable: bool): (m: Mask)
    ensures Has(m, COLLISION) <==> solid
    ensures Has(m, BREAKABLE) <==> breakable
    ensures Has(m, ENTERABLE) <==> enterable
  {
    (if solid then COLLISION else NONE)
    + (if breakable then BREAKABLE else NONE)
    + (if enterable then ENTERABLE else NONE)
  }

  /** Bitwise OR of two masks, flag by flag. */
  function Or(a: Mask, b: Mask): (m: Mask)
    ensures forall bit | IsFlag(bit) :: Has(m, bit) <==> Has(a, bit) || Has(b, bit)
  {
    FromFlags(
      Has(a, COLLISION) || Has(b, COLLISION),
      Has(a, BREAKABLE) || Has(b, BREAKABLE),
      Has(a, ENTERABLE) || Has(b, ENTERABLE))
  }

  /** The three flags are distinct single bits: each tests true only on itself. */
  lemma FlagsAreDistinctBits()
    ensures forall bit, other | IsFlag(bit) && IsFlag(other) :: Has(bit, other) <==> bit == other
    ensures !Has(NONE, COLLISION) && !Has(NONE, BREAKABLE) && !Has(NONE, ENTERABLE)
  {
  }

  /** A mask is determined by its three flags, so each flag can be read on its own. */
  lemma MaskIsItsFlags(m: Mask)
    ensures m == FromFlags(Has(m, COLLISION), Has(m, BREAKABLE), Has(m, ENTERABLE))
  {
    assert m == 0 || m == 1 || m == 2 || m == 3 || m == 4 || m == 5 || m == 6 || m == 7;
  }

  /** `Or` agrees with the hardware OR of the C++ `int`s it models. */
  lemma OrIsBitwiseOr(a: Mask, b: Mask)
    ensures Or(a, b) == ((a as bv3) | (b as bv3)) as int
  {
    MaskIsItsFlags(a);
    MaskIsItsFlags(b);
  }
}
