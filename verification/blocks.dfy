/**
 * The current `Block`: a typed, named tile definition that holds at most one
 * capability component of each kind. `addComponent<T>` refuses a second
 * component of a kind the block already has; `getComponent<T>` returns the
 * first component of the requested kind.
 */
module Blocks {
  import opened Options
  import opened Components

  /** The tile kinds, in the order of their ordinals (the tile atlas relies on it). */
  datatype BlockType =
    | Grass | HorizontalDirt | VerticalDirt | VerticalLeftDirt | IntersectionDirt
    | Tree | HorizontalUpDirt | VerticalRightDirt | HorizontalDownDirt
    | TopLeftCornerDirt | TopRightCornerDirt | BottomRightCornerDirt | Empty1
    | BottomLeftCornerDirt | Grass2
    | SingleFence | FenceRow | TopLeftCornerFence | TopRightCornerFence
    | BottomLeftCornerFence | BottomRightCornerFence | FenceCol
    | StonePath1 | StonePath2
    | TopLeftHouse1 | Empty2 | TopRightHouse1 | BottomLeftHouse1 | BottomRightHouse1
    | TopLeftHouse2 | TopRightHouse2 | BottomLeftHouse2 | BottomRightHouse2
    | LeftEndFence | RightEndFence | Empty

  datatype Block = Block(btype: BlockType, name: string, components: seq<Component>)

  /** A block as its constructor leaves it: no components. */
  function NewBlock(t: BlockType, name: string): (b: Block)
    ensures b.btype == t && b.name == name
    ensures forall k :: !HasKind(b.components, k)
  {
    Block(t, name, [])
  }

  /** `getComponent<T>()`: the first component of kind `k`, or `None` for null. */
  function GetComponent(b: Block, k: Kind): (r: Option<Component>)
    ensures r.None? <==> !HasKind(b.components, k)
    ensures r.Some? ==> KindOf(r.value) == k
    ensures r.Some? ==> exists i :: (0 <= i < |b.components| && b.components[i] == r.value
                                     && forall j :: 0 <= j < i ==> KindOf(b.components[j]) != k)
  {
    FirstOfKind(b.components, k)
  }

  /**
   * `addComponent<T>(args...)`: a component of a kind the block already has
   * is dropped; any other is appended.
   */
  function AddComponent(b: Block, c: Component): (r: Block)
    ensures r.btype == b.btype && r.name == b.name
    ensures HasKind(b.components, KindOf(c)) ==> r == b
    ensures !HasKind(b.components, KindOf(c)) ==> r.components == b.components + [c]
    ensures UniqueKinds(b.components) ==> UniqueKinds(r.components)
    ensures HasKind(r.components, KindOf(c))
  {
    if GetComponent(b, KindOf(c)).Some? then b
    else
      var cs := b.components + [c];
      assert cs[|b.components|] == c;
      Block(b.btype, b.name, cs)
  }

  /** What `getComponent` sees after `addComponent`: the new component only if its kind was missing. */
  lemma AddThenGet(b: Block, c: Component, k: Kind)
    ensures GetComponent(AddComponent(b, c), k)
         == if k == KindOf(c) && !HasKind(b.components, k) then Some(c) else GetComponent(b, k)
  {
    if !HasKind(b.components, KindOf(c)) {
      if k == KindOf(c) {
        FirstOfKindAppendNew(b.components, c);
      } else {
        FirstOfKindAppendOther(b.components, c, k);
      }
    }
  }

  /** The components a sequence of `addComponent` calls leaves on a block. */
  function AddAll(b: Block, cs: seq<Component>): (r: Block)
    ensures r.btype == b.btype && r.name == b.name
    decreases |cs|
  {
    if |cs| == 0 then b else AddAll(AddComponent(b, cs[0]), cs[1..])
  }

  /** Invariant: however components are added, a block never holds two of one kind. */
  lemma {:induction false} AddAllKeepsKindsUnique(b: Block, cs: seq<Component>)
    requires UniqueKinds(b.components)
    ensures UniqueKinds(AddAll(b, cs).components)
    decreases |cs|
  {
    if |cs| > 0 {
      AddAllKeepsKindsUnique(AddComponent(b, cs[0]), cs[1..]);
    }
  }

  /** The set of kinds present in a component list. */
  function KindsOf(cs: seq<Component>): set<Kind> {
    set i | 0 <= i < |cs| :: KindOf(cs[i])
  }

  /** The kinds of a non-empty list are its head's kind and its tail's kinds. */
  lemma KindsOfCons(cs: seq<Component>)
    requires |cs| > 0
    ensures KindsOf(cs) == {KindOf(cs[0])} + KindsOf(cs[1..])
  {
    var rest := cs[1..];
    forall k | k in KindsOf(cs) ensures k in {KindOf(cs[0])} + KindsOf(rest) {
      var i :| 0 <= i < |cs| && KindOf(cs[i]) == k;
      if i > 0 { assert rest[i - 1] == cs[i]; }
    }
    forall k | k in KindsOf(rest) ensures k in KindsOf(cs) {
      var i :| 0 <= i < |rest| && KindOf(rest[i]) == k;
      assert cs[i + 1] == rest[i];
    }
  }

  /** There are only three kinds. */
  lemma AtMostThreeKinds(s: set<Kind>)
    ensures |s| <= 3
  {
    var all := {CollisionKind, EnterableKind, BreakableKind};
    assert s <= all by {
      forall k | k in s ensures k in all {
        match k
        case CollisionKind =>
        case EnterableKind =>
        case BreakableKind =>
      }
    }
    assert all == (all - s) + s;
  }

  /** With one component per kind and three kinds, a block holds at most three components. */
  lemma {:induction false} UniqueKindsAtMostThree(cs: seq<Component>)
    requires UniqueKinds(cs)
    ensures |KindsOf(cs)| == |cs|
    ensures |cs| <= 3
  {
    if |cs| > 0 {
      var rest := cs[1..];
      UniqueKindsAtMostThree(rest);
      KindsOfCons(cs);
      assert KindOf(cs[0]) !in KindsOf(rest) by {
        forall i | 0 <= i < |rest| ensures KindOf(rest[i]) != KindOf(cs[0]) {
          assert rest[i] == cs[i + 1];
        }
      }
    }
    AtMostThreeKinds(KindsOf(cs));
  }

  /**
   * The tagged-variant view of a component list: each kind maps to the first
   * component of that kind, as a first-match scan would find it.
   */
  function KindMap(cs: seq<Component>): (m: map<Kind, Component>)
    ensures m.Keys == KindsOf(cs)
    decreases |cs|
  {
    if |cs| == 0 then map[]
    else
      KindsOfCons(cs);
      KindMap(cs[1..])[KindOf(cs[0]) := cs[0]]
  }

  /** The linear `dynamic_cast` scan is a lookup in the tagged-variant map. */
  lemma {:induction false} GetComponentIsKindMapLookup(b: Block, k: Kind)
    ensures GetComponent(b, k) == if k in KindMap(b.components) then Some(KindMap(b.components)[k]) else None
    decreases |b.components|
  {
    var cs := b.components;
    if |cs| > 0 && KindOf(cs[0]) != k {
      var b' := Block(b.btype, b.name, cs[1..]);
      GetComponentIsKindMapLookup(b', k);
      assert cs == [cs[0]] + cs[1..];
    }
  }

  /** `addComponent` is insert-if-absent on the tagged-variant map. */
  lemma AddComponentIsInsertIfAbsent(b: Block, c: Component)
    ensures KindMap(AddComponent(b, c).components)
         == if KindOf(c) in KindMap(b.components) then KindMap(b.components)
            else KindMap(b.components)[KindOf(c) := c]
  {
    var r := AddComponent(b, c);
    var m, m' := KindMap(b.components), KindMap(r.components);
    if KindOf(c) !in m {
      forall k ensures (k in m') <==> (k in m[KindOf(c) := c]) {
        AddThenGet(b, c, k);
        GetComponentIsKindMapLookup(b, k);
        GetComponentIsKindMapLookup(r, k);
      }
      forall k | k in m' ensures m'[k] == m[KindOf(c) := c][k] {
        AddThenGet(b, c, k);
        GetComponentIsKindMapLookup(b, k);
        GetComponentIsKindMapLookup(r, k);
      }
    }
  }
}
