/**
 * `BlockFactory`: the registry of block definitions. It owns the blocks in a
 * `name -> Block` map and keeps a secondary `type -> Block*` index. Here the
 * index stores the owning map's key instead of a pointer. The index is filled
 * with `emplace`, which never overwrites, so the block registered first for a
 * type is the one found by type.
 */
module BlockFactory {
  import opened Options
  import opened Components
  import opened Blocks

  /** The component classes named in one `addBlock<Components...>` call: never empty. */
  type KindList = ks: seq<Kind> | |ks| > 0 witness [CollisionKind]

  datatype Factory = Factory(blocks: map<string, Block>, typeIndex: map<BlockType, string>)

  /** A factory with nothing registered. */
  const Empty: Factory := Factory(map[], map[])

  /**
   * The registry invariant: every index entry names a registered block of that
   * type; every registered block is stored under its own name, has its type
   * indexed, and holds at most one component per kind.
   */
  predicate Valid(f: Factory) {
    && (forall t :: t in f.typeIndex ==>
          f.typeIndex[t] in f.blocks && f.blocks[f.typeIndex[t]].btype == t)
    && (forall n :: n in f.blocks ==>
          f.blocks[n].name == n && f.blocks[n].btype in f.typeIndex
          && UniqueKinds(f.blocks[n].components))
  }

  lemma EmptyIsValid()
    ensures Valid(Empty)
  {
  }

  /** The block the type index resolves `t` to, or `None`. */
  function BlockOfType(f: Factory, t: BlockType): (r: Option<Block>)
    requires Valid(f)
    ensures r.Some? <==> t in f.typeIndex
    ensures r.Some? ==> r.value.btype == t && r.value.name in f.blocks && f.blocks[r.value.name] == r.value
  {
    if t in f.typeIndex then Some(f.blocks[f.typeIndex[t]]) else None
  }

  /**
   * `addComponentsToBlock<T, Rest...>(block, args...)`: adds one component per
   * listed kind, in order, each built from the same argument pack.
   */
  function AddComponentsToBlock(b: Block, kinds: KindList, a: Args): (r: Block)
    ensures r.btype == b.btype && r.name == b.name
    ensures UniqueKinds(b.components) ==> UniqueKinds(r.components)
    decreases |kinds|
  {
    var b1 := AddComponent(b, Construct(kinds[0], a));
    if |kinds| == 1 then b1 else AddComponentsToBlock(b1, kinds[1..], a)
  }

  /**
   * What `getComponent` sees after `addComponentsToBlock`: kinds the block
   * had are untouched; each newly listed kind holds the component built from
   * the shared arguments; other kinds stay absent.
   */
  lemma {:induction false} AddComponentsToBlockLookup(b: Block, kinds: KindList, a: Args, k: Kind)
    ensures GetComponent(AddComponentsToBlock(b, kinds, a), k)
         == if HasKind(b.components, k) then GetComponent(b, k)
            else if k in kinds then Some(Construct(k, a))
            else None
    decreases |kinds|
  {
    var b1 := AddComponent(b, Construct(kinds[0], a));
    AddThenGet(b, Construct(kinds[0], a), k);
    if |kinds| > 1 {
      AddComponentsToBlockLookup(b1, kinds[1..], a, k);
      assert k in kinds <==> k == kinds[0] || k in kinds[1..] by {
        assert kinds == [kinds[0]] + kinds[1..];
      }
    }
  }

  /**
   * `addBlock<Components...>(type, name, args...)`: a name already registered
   * changes nothing; a fresh name is stored with the listed components, and
   * the type index gains an entry only if the type had none.
   */
  function AddBlock(f: Factory, t: BlockType, name: string, kinds: KindList, a: Args): (r: Factory)
    ensures name in f.blocks ==> r == f
    ensures name !in f.blocks ==>
      && r.blocks.Keys == f.blocks.Keys + {name}
      && (forall n :: n in f.blocks ==> r.blocks[n] == f.blocks[n])
      && r.blocks[name].btype == t && r.blocks[name].name == name
    ensures t in f.typeIndex ==> r.typeIndex == f.typeIndex
    ensures t !in f.typeIndex && name !in f.blocks ==> r.typeIndex == f.typeIndex[t := name]
    ensures Valid(f) ==> Valid(r)
  {
    if name in f.blocks then f
    else
      var b := AddComponentsToBlock(NewBlock(t, name), kinds, a);
      var index := if t in f.typeIndex then f.typeIndex else f.typeIndex[t := name];
      Factory(f.blocks[name := b], index)
  }

  /** The freshly registered block holds exactly the listed kinds, built from the shared arguments. */
  lemma AddBlockComponents(f: Factory, t: BlockType, name: string, kinds: KindList, a: Args, k: Kind)
    requires name !in f.blocks
    ensures GetComponent(AddBlock(f, t, name, kinds, a).blocks[name], k)
         == if k in kinds then Some(Construct(k, a)) else None
  {
    AddComponentsToBlockLookup(NewBlock(t, name), kinds, a, k);
  }

  /** Registering a name twice is the same as registering it once. */
  lemma AddBlockIdempotent(f: Factory, t: BlockType, t': BlockType, name: string,
                           kinds: KindList, kinds': KindList, a: Args, a': Args)
    ensures AddBlock(AddBlock(f, t, name, kinds, a), t', name, kinds', a') == AddBlock(f, t, name, kinds, a)
  {
  }

  /** A later registration never changes which block a type already resolves to. */
  lemma AddBlockKeepsTypeResolution(f: Factory, t: BlockType, name: string, kinds: KindList, a: Args, t': BlockType)
    requires Valid(f)
    requires t' in f.typeIndex
    ensures BlockOfType(AddBlock(f, t, name, kinds, a), t') == BlockOfType(f, t')
  {
  }

  /**
   * `addComponentToBlock<T>(type, args...)`: an unindexed type changes
   * nothing; otherwise the component goes to the block the type resolves to,
   * exactly as `addComponent` on that block, and nothing else changes.
   */
  function AddComponentToBlock(f: Factory, t: BlockType, k: Kind, a: Args): (r: Factory)
    requires Valid(f)
    ensures t !in f.typeIndex ==> r == f
    ensures t in f.typeIndex ==>
      && r.typeIndex == f.typeIndex
      && r.blocks.Keys == f.blocks.Keys
      && r.blocks[f.typeIndex[t]] == AddComponent(f.blocks[f.typeIndex[t]], Construct(k, a))
      && (forall n :: n in f.blocks && n != f.typeIndex[t] ==> r.blocks[n] == f.blocks[n])
    ensures Valid(r)
  {
    if t in f.typeIndex then
      var n := f.typeIndex[t];
      Factory(f.blocks[n := AddComponent(f.blocks[n], Construct(k, a))], f.typeIndex)
    else f
  }

  /** One call of `addBlock<Components...>(type, name, args...)`. */
  datatype Registration = Registration(btype: BlockType, name: string, kinds: KindList, args: Args)

  /** A sequence of registrations, applied in order. */
  function RegisterAll(f: Factory, regs: seq<Registration>): (r: Factory)
    ensures Valid(f) ==> Valid(r)
    decreases |regs|
  {
    if |regs| == 0 then f
    else
      var g := regs[0];
      RegisterAll(AddBlock(f, g.btype, g.name, g.kinds, g.args), regs[1..])
  }

  /** First registration wins: once a type is indexed, no later registration re-points it. */
  lemma {:induction false} TypeIndexIsStable(f: Factory, regs: seq<Registration>, t: BlockType)
    requires Valid(f)
    requires t in f.typeIndex
    ensures t in RegisterAll(f, regs).typeIndex
    ensures BlockOfType(RegisterAll(f, regs), t).Some?
    ensures RegisterAll(f, regs).typeIndex[t] == f.typeIndex[t]
    decreases |regs|
  {
    if |regs| > 0 {
      var g := regs[0];
      TypeIndexIsStable(AddBlock(f, g.btype, g.name, g.kinds, g.args), regs[1..], t);
    }
  }

  /**
   * The type index after a run of registrations points at the first
   * registration of that type whose name was fresh.
   */
  lemma FirstFreshRegistrationWins(f: Factory, before: seq<Registration>, g: Registration, after: seq<Registration>)
    requires Valid(f)
    requires g.btype !in RegisterAll(f, before).typeIndex
    requires g.name !in RegisterAll(f, before).blocks
    ensures g.btype in RegisterAll(f, before + [g] + after).typeIndex
    ensures RegisterAll(f, before + [g] + after).typeIndex[g.btype] == g.name
  {
    RegisterAllSplit(f, before, [g] + after);
    assert before + [g] + after == before + ([g] + after);
    var mid := RegisterAll(f, before);
    var next := AddBlock(mid, g.btype, g.name, g.kinds, g.args);
    assert RegisterAll(mid, [g] + after) == RegisterAll(next, after) by {
      assert ([g] + after)[0] == g && ([g] + after)[1..] == after;
    }
    TypeIndexIsStable(next, after, g.btype);
  }

  /** Registering `xs + ys` is registering `xs`, then `ys`. */
  lemma {:induction false} RegisterAllSplit(f: Factory, xs: seq<Registration>, ys: seq<Registration>)
    ensures RegisterAll(f, xs + ys) == RegisterAll(RegisterAll(f, xs), ys)
    decreases |xs|
  {
    if |xs| == 0 {
      assert xs + ys == ys;
    } else {
      var g := xs[0];
      assert (xs + ys)[0] == g;
      assert (xs + ys)[1..] == xs[1..] + ys;
      RegisterAllSplit(AddBlock(f, g.btype, g.name, g.kinds, g.args), xs[1..], ys);
    }
  }

  /** Two fences registered for one type: the first name is what the type resolves to. */
  lemma FenceScenario()
    ensures var f := RegisterAll(Empty, [
              Registration(SingleFence, "fence", [CollisionKind], Args(true, 0, 0)),
              Registration(SingleFence, "fence2", [CollisionKind], Args(false, 0, 0))]);
      && f.blocks.Keys == {"fence", "fence2"}
      && f.typeIndex == map[SingleFence := "fence"]
      && GetComponent(f.blocks["fence"], CollisionKind) == Some(Collision(true))
  {
    var a := Registration(SingleFence, "fence", [CollisionKind], Args(true, 0, 0));
    var b := Registration(SingleFence, "fence2", [CollisionKind], Args(false, 0, 0));
    var f1 := AddBlock(Empty, a.btype, a.name, a.kinds, a.args);
    AddBlockComponents(Empty, a.btype, a.name, a.kinds, a.args, CollisionKind);
    assert [a, b][1..] == [b];
    assert RegisterAll(Empty, [a, b]) == RegisterAll(f1, [b]);
    assert "fence" != "fence2";
  }
}
