/**
 * Block capabilities. The C++ code attaches polymorphic `BlockComponent`
 * subclasses to a block and finds them again with `dynamic_cast`; here each
 * subclass is a constructor of `Component` and the class it belongs to is its
 * `Kind`. The first-match scan over a component list is shared by the current
 * and the legacy `Block`.
 */
module Components {
  import opened Options

  datatype Kind = CollisionKind | EnterableKind | BreakableKind

  datatype Component =
    | Collision(isSolid: bool)
    | Enterable(isEnterable: bool)
    | Breakable(isBreakable: bool, numHits: int, multiplier: int)

  function KindOf(c: Component): Kind {
    match c
    case Collision(_) => CollisionKind
    case Enterable(_) => EnterableKind
    case Breakable(_, _, _) => BreakableKind
  }

  /**
   * The argument pack forwarded to a component constructor. A factory call
   * forwards the same pack to every component kind it attaches; each kind
   * takes the fields its constructor accepts.
   */
  datatype Args = Args(flag: bool, numHits: int, multiplier: int)

  /** `std::make_unique<T>(args...)` for the component class of kind `k`. */
  function Construct(k: Kind, a: Args): (c: Component)
    ensures KindOf(c) == k
    ensures c.Collision? ==> c.isSolid == a.flag
    ensures c.Enterable? ==> c.isEnterable == a.flag
    ensures c.Breakable? ==> c == Breakable(a.flag, a.numHits, a.multiplier)
  {
    match k
    case CollisionKind => Collision(a.flag)
    case EnterableKind => Enterable(a.flag)
    case BreakableKind => Breakable(a.flag, a.numHits, a.multiplier)
  }

  /** Some component in `cs` is of kind `k`. */
  predicate HasKind(cs: seq<Component>, k: Kind) {
    exists i :: 0 <= i < |cs| && KindOf(cs[i]) == k
  }

  /** No two components in `cs` are of the same kind. */
  predicate UniqueKinds(cs: seq<Component>) {
    forall i, j :: 0 <= i < j < |cs| ==> KindOf(cs[i]) != KindOf(cs[j])
  }

  /**
   * The position of the first component of kind `k`, scanning from the
   * front as the `for` loop in `getComponent<T>` does.
   */
  function FirstIndexOf(cs: seq<Component>, k: Kind): (r: Option<nat>)
    ensures r.Some? ==> r.value < |cs| && KindOf(cs[r.value]) == k
    ensures r.Some? ==> forall j :: 0 <= j < r.value ==> KindOf(cs[j]) != k
    ensures r.None? <==> !HasKind(cs, k)
  {
    if |cs| == 0 then None
    else if KindOf(cs[0]) == k then Some(0)
    else match FirstIndexOf(cs[1..], k)
      case None => None
      case Some(i) => Some(i + 1)
  }

  /** `getComponent<T>()`: the first component of kind `k`, or null. */
  function FirstOfKind(cs: seq<Component>, k: Kind): (r: Option<Component>)
    ensures r.None? <==> !HasKind(cs, k)
    ensures r.Some? ==> KindOf(r.value) == k
    ensures r.Some? ==> exists i :: (0 <= i < |cs| && cs[i] == r.value
                                     && forall j :: 0 <= j < i ==> KindOf(cs[j]) != k)
  {
    match FirstIndexOf(cs, k)
    case None => None
    case Some(i) => Some(cs[i])
  }

  /** The first-match lookup never looks past the first component of the kind it wants. */
  lemma FirstOfKindPrefix(cs: seq<Component>, more: seq<Component>, k: Kind)
    requires HasKind(cs, k)
    ensures FirstOfKind(cs + more, k) == FirstOfKind(cs, k)
  {
    var i := FirstIndexOf(cs, k).value;
    assert (cs + more)[i] == cs[i];
    assert forall j :: 0 <= j < |cs| ==> (cs + more)[j] == cs[j];
  }

  /** Appending components of other kinds does not change a lookup. */
  lemma FirstOfKindAppendOther(cs: seq<Component>, c: Component, k: Kind)
    requires KindOf(c) != k
    ensures FirstOfKind(cs + [c], k) == FirstOfKind(cs, k)
  {
    if HasKind(cs, k) {
      FirstOfKindPrefix(cs, [c], k);
    } else {
      assert forall j :: 0 <= j < |cs| ==> (cs + [c])[j] == cs[j];
      assert !HasKind(cs + [c], k);
    }
  }

  /** Appending a component of a kind the list lacks makes the lookup find it. */
  lemma FirstOfKindAppendNew(cs: seq<Component>, c: Component)
    requires !HasKind(cs, KindOf(c))
    ensures FirstOfKind(cs + [c], KindOf(c)) == Some(c)
  {
    var k := KindOf(c);
    assert KindOf((cs + [c])[|cs|]) == k;
    assert forall j :: 0 <= j < |cs| ==> (cs + [c])[j] == cs[j];
  }
}
