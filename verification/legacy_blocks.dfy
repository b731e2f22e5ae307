/**
 * The legacy `Block` of the client headers. Its `addComponent<T>` appends
 * unconditionally, so a block can hold several components of one kind;
 * `getComponent<T>` is the same first-match scan as the current block's,
 * which is why the duplicates are never observed through it.
 */
module LegacyBlocks {
  import opened Options
  import opened Components
  import Blocks

  /** The legacy tile kinds, in the order of their ordinals. */
  datatype BlockType =
    | Grass | HorizontalDirt | VerticalDirt | VerticalLeftDirt | IntersectionDirt
    | Tree | HorizontalUpDirt | VerticalRightDirt | HorizontalDownDirt
    | TopLeftCornerDirt | TopRightCornerDirt | BottomRightCornerDirt | BottomLeftCornerDirt
    | House | SingleFence | FenceRow | RightEndFence | LeftEndFence | TopEndFence
    | BottomEndFence | TopLeftCornerFence | TopRightCornerFence | BottomRightCornerFence
    | BottomLeftCornerFence | FenceCol | HouseBig | Empty

  datatype Block = Block(btype: BlockType, name: string, components: seq<Component>)

  /** `addComponent<T>(args...)`: always `push_back`, whatever is already there. */
  function AddComponent(b: Block, c: Component): (r: Block)
    ensures r.btype == b.btype && r.name == b.name
    ensures |r.components| == |b.components| + 1
    ensures r.components[..|b.components|] == b.components
    ensures r.components[|b.components|] == c
  {
    Block(b.btype, b.name, b.components + [c])
  }

  /** `getComponent<T>() const`: the first component of kind `k`, or `None` for null. */
  function GetComponent(b: Block, k: Kind): (r: Option<Component>)
    ensures r.None? <==> !HasKind(b.components, k)
    ensures r.Some? ==> KindOf(r.value) == k
    ensures r.Some? ==> exists i :: (0 <= i < |b.components| && b.components[i] == r.value
                                     && forall j :: 0 <= j < i ==> KindOf(b.components[j]) != k)
  {
    FirstOfKind(b.components, k)
  }

  /** After `addComponent<T>`, `getComponent<T>` is not null. */
  lemma AddThenGetNonNull(b: Block, c: Component)
    ensures GetComponent(AddComponent(b, c), KindOf(c)).Some?
  {
    assert AddComponent(b, c).components[|b.components|] == c;
  }

  /** A second component of a kind already present is stored but never returned by the lookup. */
  lemma SecondAddInvisible(b: Block, c: Component)
    requires HasKind(b.components, KindOf(c))
    ensures GetComponent(AddComponent(b, c), KindOf(c)) == GetComponent(b, KindOf(c))
  {
    FirstOfKindPrefix(b.components, [c], KindOf(c));
  }

  /** Duplicates do arise: two collision components on one block, the first one wins. */
  lemma DuplicatesArise()
    ensures var b := AddComponent(AddComponent(Block(Grass, "grass", []), Collision(true)), Collision(false));
      && !UniqueKinds(b.components)
      && |b.components| == 2
      && GetComponent(b, CollisionKind) == Some(Collision(true))
  {
    var b := AddComponent(AddComponent(Block(Grass, "grass", []), Collision(true)), Collision(false));
    assert b.components == [Collision(true), Collision(false)];
    assert KindOf(b.components[0]) == KindOf(b.components[1]);
  }

  /** A sequence of legacy `addComponent` calls. */
  function AddAll(b: Block, cs: seq<Component>): (r: Block)
    ensures r.btype == b.btype && r.name == b.name
    ensures r.components == b.components + cs
    decreases |cs|
  {
    if |cs| == 0 then b
    else
      assert b.components + cs == (b.components + [cs[0]]) + cs[1..];
      AddAll(AddComponent(b, cs[0]), cs[1..])
  }

  /** Two component lists that answer every `getComponent` query alike. */
  predicate SameLookups(a: seq<Component>, b: seq<Component>) {
    forall k :: FirstOfKind(a, k) == FirstOfKind(b, k)
  }

  /** One legacy append and one deduplicating add keep two lists answering alike. */
  lemma AddKeepsSameLookups(legacy: seq<Component>, current: Blocks.Block, c: Component)
    requires SameLookups(legacy, current.components)
    ensures SameLookups(legacy + [c], Blocks.AddComponent(current, c).components)
  {
    forall k ensures FirstOfKind(legacy + [c], k) == FirstOfKind(Blocks.AddComponent(current, c).components, k) {
      Blocks.AddThenGet(current, c, k);
      if k == KindOf(c) {
        if HasKind(legacy, k) {
          FirstOfKindPrefix(legacy, [c], k);
        } else {
          FirstOfKindAppendNew(legacy, c);
        }
      } else {
        FirstOfKindAppendOther(legacy, c, k);
      }
    }
  }

  /**
   * Contrast with the current block: after the same additions, the legacy
   * list may be longer, but every `getComponent` answers as it would on the
   * deduplicating block.
   */
  lemma {:induction false} LookupsAgreeWithDedup(legacy: seq<Component>, current: Blocks.Block, cs: seq<Component>)
    requires SameLookups(legacy, current.components)
    ensures SameLookups(legacy + cs, Blocks.AddAll(current, cs).components)
    decreases |cs|
  {
    if |cs| == 0 {
      assert legacy + cs == legacy;
    } else {
      var next := Blocks.AddComponent(current, cs[0]);
      AddKeepsSameLookups(legacy, current, cs[0]);
      LookupsAgreeWithDedup(legacy + [cs[0]], next, cs[1..]);
      assert Blocks.AddAll(current, cs) == Blocks.AddAll(next, cs[1..]);
      assert legacy + cs == (legacy + [cs[0]]) + cs[1..];
    }
  }

  /** From an empty block, legacy and current blocks answer every lookup alike after the same additions. */
  lemma LegacyLookupsMatchCurrent(b: Block, cb: Blocks.Block, cs: seq<Component>, k: Kind)
    requires b.components == [] && cb.components == []
    ensures GetComponent(AddAll(b, cs), k) == Blocks.GetComponent(Blocks.AddAll(cb, cs), k)
  {
    LookupsAgreeWithDedup([], cb, cs);
    assert [] + cs == cs;
  }
}
