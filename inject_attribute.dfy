/**
 * The attribute placed on a component field (InjectComponentAttribute.cs).
 * Its constructor decodes a SearchOptions bitmask into four booleans and
 * stores the search order unchanged; the properties have private setters,
 * so an attribute is a value.
 */
module InjectAttribute {
  import opened SearchFlags

  datatype InjectComponentAttribute = InjectComponentAttribute(
    searchChildren: bool,
    searchParents: bool,
    searchAll: bool,
    allowDisabled: bool,
    searchOrder: SearchOrder)

  /** The attribute's constructor, with the source's default arguments. */
  function New(searchOptions: SearchOptions := GameObjectOnly,
               searchOrder: SearchOrder := ChildrenFirst): (a: InjectComponentAttribute)
    ensures a.searchOrder == searchOrder
    ensures a.searchChildren <==> BitAt(searchOptions, 1)
    ensures a.searchParents <==> BitAt(searchOptions, 2)
    ensures a.allowDisabled <==> BitAt(searchOptions, 3)
    ensures a.searchAll <==> a.searchChildren && a.searchParents
  {
    InjectComponentAttribute(
      searchChildren := searchOptions & GameObjectAndChildren != 0,
      searchParents := searchOptions & GameObjectAndParents != 0,
      searchAll := searchOptions & SearchAll == SearchAll,
      allowDisabled := searchOptions & AllowDisabled != 0,
      searchOrder := searchOrder)
  }

  /** The bits the constructor reads: children, parents and disabled. */
  const DecodedBits: SearchOptions := GameObjectAndChildren | GameObjectAndParents | AllowDisabled

  /** With the default arguments every flag is off and children come first. */
  lemma DefaultAttribute()
    ensures New() == InjectComponentAttribute(false, false, false, false, ChildrenFirst)
  {
  }

  /** Two masks that agree on bits 1, 2 and 3 decode alike; bit 0 and the high bits are ignored. */
  lemma DecodesOnlyScopeBits(x: SearchOptions, y: SearchOptions, order: SearchOrder)
    requires x & DecodedBits == y & DecodedBits
    ensures New(x, order) == New(y, order)
  {
  }

  /** In particular setting or clearing GameObjectOnly changes nothing. */
  lemma GameObjectOnlyIsIgnored(x: SearchOptions, order: SearchOrder)
    ensures New(x | GameObjectOnly, order) == New(x & !GameObjectOnly, order)
  {
    DecodesOnlyScopeBits(x | GameObjectOnly, x & !GameObjectOnly, order);
  }

  /** An attribute some argument list can produce: searchAll is the conjunction of the two scopes. */
  predicate Constructible(a: InjectComponentAttribute) {
    a.searchAll == (a.searchChildren && a.searchParents)
  }

  /** The mask made of the decoded bits of a only; CanonicalIsSmallest shows it is the least such mask. */
  function Canonical(a: InjectComponentAttribute): (x: SearchOptions)
    ensures x & !DecodedBits == 0
  {
    (if a.searchChildren then GameObjectAndChildren else 0)
    | (if a.searchParents then GameObjectAndParents else 0)
    | (if a.allowDisabled then AllowDisabled else 0)
  }

  /** Decoding the canonical mask gives back every constructible attribute. */
  lemma CanonicalRoundTrip(a: InjectComponentAttribute)
    requires Constructible(a)
    ensures New(Canonical(a), a.searchOrder) == a
  {
  }

  /** Every mask that decodes to a has at least the bits of a's canonical mask. */
  lemma CanonicalIsSmallest(x: SearchOptions, order: SearchOrder)
    ensures Canonical(New(x, order)) & !x == 0
  {
    NewIsCanonical(x, order);
  }

  /** Every decoded attribute is constructible, and its canonical mask is the input's decoded bits. */
  lemma NewIsCanonical(x: SearchOptions, order: SearchOrder)
    ensures Constructible(New(x, order))
    ensures Canonical(New(x, order)) == x & DecodedBits
  {
  }
}
