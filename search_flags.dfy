/**
 * The two enums that configure an InjectComponent field
 * (InjectComponentEnums.cs): the [Flags] enum SearchOptions, whose
 * members are bits of the underlying 32-bit integer, and SearchOrder.
 */
module SearchFlags {
  import opened Wrappers

  /** A SearchOptions value, as its underlying 32-bit integer. */
  type SearchOptions = bv32

  const GameObjectOnly: SearchOptions := 1
  const GameObjectAndChildren: SearchOptions := 2
  const GameObjectAndParents: SearchOptions := 4
  const SearchAll: SearchOptions := 6
  const AllowDisabled: SearchOptions := 8

  /** Every named SearchOptions member, in declaration order. */
  const Members: seq<SearchOptions> :=
    [GameObjectOnly, GameObjectAndChildren, GameObjectAndParents, SearchAll, AllowDisabled]

  /** Bit k of x is set (bit 0 is the least significant). */
  predicate BitAt(x: SearchOptions, k: nat)
    requires k < 32
  {
    (x >> k) & 1 == 1
  }

  /** x has exactly one bit set. */
  predicate IsSingleBit(x: SearchOptions) {
    x != 0 && x & (x - 1) == 0
  }

  /** The three scope flags are single bits, pairwise disjoint, at bits 1, 2 and 3. */
  lemma ScopeFlagsAreDistinctBits()
    ensures IsSingleBit(GameObjectAndChildren) && BitAt(GameObjectAndChildren, 1)
    ensures IsSingleBit(GameObjectAndParents) && BitAt(GameObjectAndParents, 2)
    ensures IsSingleBit(AllowDisabled) && BitAt(AllowDisabled, 3)
    ensures GameObjectAndChildren & GameObjectAndParents == 0
    ensures GameObjectAndChildren & AllowDisabled == 0
    ensures GameObjectAndParents & AllowDisabled == 0
  {
  }

  /** SearchAll is exactly the union of the children and parents scopes. */
  lemma SearchAllIsChildrenOrParents()
    ensures SearchAll == GameObjectAndChildren | GameObjectAndParents
    ensures !IsSingleBit(SearchAll)
  {
  }

  /** GameObjectOnly is bit 0 and shares no bit with any other member. */
  lemma GameObjectOnlyIsDisjoint()
    ensures IsSingleBit(GameObjectOnly) && BitAt(GameObjectOnly, 0)
    ensures forall i :: 1 <= i < |Members| ==> Members[i] & GameObjectOnly == 0
  {
  }

  /** The order in which the two hierarchy directions are searched. */
  datatype SearchOrder = ChildrenFirst | ParentsFirst {
    /** The enum's underlying integer. */
    function Value(): (v: int)
      ensures v == 1 || v == 2
    {
      match this
      case ChildrenFirst => 1
      case ParentsFirst => 2
    }
  }

  /** The member of SearchOrder whose underlying integer is v, if any. */
  function SearchOrderOf(v: int): (r: Option<SearchOrder>)
    ensures r.None? <==> v != 1 && v != 2
    ensures r.Some? ==> r.value.Value() == v
  {
    if v == 1 then Some(ChildrenFirst)
    else if v == 2 then Some(ParentsFirst)
    else None
  }

  /** SearchOrder has exactly two members, 1 and 2, and they are distinct. */
  lemma SearchOrderValues()
    ensures ChildrenFirst.Value() == 1 && ParentsFirst.Value() == 2
    ensures forall o: SearchOrder :: SearchOrderOf(o.Value()) == Some(o)
    ensures forall o: SearchOrder :: (o.Value() == 1 <==> o == ChildrenFirst) && (o.Value() == 2 <==> o == ParentsFirst)
  {
  }
}
