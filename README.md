# InjectComponent — a verified model

InjectComponent is a Unity editor extension. A field marked with
`[InjectComponent]` is filled in automatically, at inspector-draw time, with
a component found on the owning GameObject (or in its children). This project
models the extension's two pieces of logic in Dafny:

- **Search-option decoding** (`search_flags.dfy`, `inject_attribute.dfy`).
  `SearchOptions` is a `[Flags]` enum over a 32-bit integer, modelled as a
  `bv32` with the named constants 1, 2, 4, 6 and 8. `SearchOrder` is a
  two-member datatype with its underlying values 1 and 2. The attribute
  constructor is the function `InjectAttribute.New`, with the same default
  arguments. It turns the mask into four booleans and passes the order
  through unchanged. Its contract states each boolean as "bit k of the mask
  is set", where bit k is defined by a shift (`BitAt`). This is a different
  formulation from the mask test in the constructor's body. `Canonical`
  maps an attribute back to its smallest mask and gives the decoder its
  round-trip partner.
- **The drawer's one-shot state machine** (`drawer.dfy`). The class
  `InjectComponentDrawer` has the latch `didSearch`, plus two ghost counters
  that record warnings and assignments. Its invariant says that the latch is
  set exactly when one of those counters stands at one. Each `OnGUI` call is
  specified by the pure function `Decide`, which picks one of four branches:
  already searched, misconfigured, declined, or searched. The host's
  per-object property storage is the `PropertyValues` object: a map from
  inspected object to reference, where `None` plays the role of null. On the
  multi-object path, a `for` loop writes each target's own lookup result. It
  is proved equal to `WriteEach`, and `WriteEachReads` gives the value every
  object ends up with. `Outcomes` runs `Decide` over any sequence of calls.
  The lemmas about it prove the latch properties for all call sequences.

The drawer reads one boolean, `searchChildren`, from its attribute. The
attribute in `InjectComponentAttribute.cs` has no such member; it has
`SearchChildren`, `SearchParents` and the others. So the drawer belongs to an
older, single-boolean variant of the attribute. The model follows the code:
the drawer takes `searchChildren` as a constant of the drawer instance, and
it is not connected to the flag decoder. No shown code implements a
parents-first or children-first search, so the model has none.

Host inputs:
- `isComponentField` is the result of the reflection test `IsAssignableFrom`.
- `editable` and `multi` are the property's editability and the serialized
  object's multi-edit state.
- `targets` are the serialized object's target objects; the first one is the
  single target.
- `GetComponent` and `GetComponentInChildren` are the two total functions of
  a `Host` value. They are left uninterpreted.

`multi` is not tied to the number of targets. In the host it is true exactly
when there is more than one target; the model admits every combination, and
without `multi` only the first target is written.

The value tested for null at line 35 is the shared property's value, which is
modelled as the first target's value.

## Model

| member | source | states |
|---|---|---|
| SearchFlags.ScopeFlagsAreDistinctBits | InjectComponentEnums.cs:9-12 | GameObjectAndChildren, GameObjectAndParents and AllowDisabled are single bits (bits 1, 2 and 3), pairwise disjoint |
| SearchFlags.SearchAllIsChildrenOrParents | InjectComponentEnums.cs:9-11 | SearchAll is the bitwise OR of the children and parents flags and is not a single bit |
| SearchFlags.GameObjectOnlyIsDisjoint | InjectComponentEnums.cs:6-13 | GameObjectOnly is bit 0 and shares no bit with any other SearchOptions member |
| SearchFlags.SearchOrder.Value | InjectComponentEnums.cs:20-21 | a member's underlying integer is 1 or 2; the exact value of each member is stated by SearchOrderValues |
| SearchFlags.SearchOrderOf | InjectComponentEnums.cs:18-22 | an integer names a SearchOrder member exactly when it is 1 or 2, and then that member's value is the integer |
| SearchFlags.SearchOrderValues | InjectComponentEnums.cs:20-21 | ChildrenFirst is 1, ParentsFirst is 2; decoding a member's value gives the member back, and each value identifies exactly one member |
| InjectAttribute.New | InjectComponentAttribute.cs:19-27 | the stored order is the argument; SearchChildren, SearchParents and AllowDisabled hold iff bits 1, 2 and 3 of the mask are set; SearchAll holds iff SearchChildren and SearchParents both hold |
| InjectAttribute.DefaultAttribute | InjectComponentAttribute.cs:19-26 | with the default arguments all four booleans are false and the order is ChildrenFirst |
| InjectAttribute.DecodesOnlyScopeBits | InjectComponentAttribute.cs:23-26 | two masks that agree on bits 1, 2 and 3 give equal attributes: bit 0 and the high bits are ignored |
| InjectAttribute.GameObjectOnlyIsIgnored | InjectComponentAttribute.cs:23-26 | setting or clearing GameObjectOnly does not change the decoded attribute |
| InjectAttribute.Canonical | InjectComponentAttribute.cs:23-25 | the canonical mask of an attribute uses only the three decoded bits |
| InjectAttribute.CanonicalIsSmallest | InjectComponentAttribute.cs:23-26 | the canonical mask of a decoded attribute has no bit outside the input mask, so it is the least mask decoding to those flags |
| InjectAttribute.CanonicalRoundTrip | InjectComponentAttribute.cs:22-26 | every attribute whose SearchAll equals SearchChildren && SearchParents is produced by decoding its canonical mask with its order |
| InjectAttribute.NewIsCanonical | InjectComponentAttribute.cs:22-26 | every decoded attribute satisfies SearchAll == SearchChildren && SearchParents, and its canonical mask is the input masked to bits 1, 2 and 3 |
| Drawer.WriteEach | Editor/InjectComponentDrawer.cs:48-60 | the multi-edit writes give entries to exactly the objects that had one plus the targets |
| Drawer.WriteEachReads | Editor/InjectComponentDrawer.cs:48-60 | after the multi-edit writes, each target holds its own lookup result, whatever the other targets hold, and every other object keeps its value |
| Drawer.MultiEditOverwritesLaterTargets | Editor/InjectComponentDrawer.cs:35-60 | with the first target null and a later target holding a reference, the multi-edit writes replace that reference with the later target's own lookup result |
| Drawer.Decide | Editor/InjectComponentDrawer.cs:20-38 | a call does nothing iff latched; warns iff unlatched and not a component field; searches iff unlatched, a component field, editable and null; it latches iff it warns or searches |
| Drawer.Outcomes | Editor/InjectComponentDrawer.cs:12-40 | a run of calls yields one branch per call |
| Drawer.LatchAfterIsSomeLatch | Editor/InjectComponentDrawer.cs:20-40 | after a run of calls the latch is set iff it started set or some call warned or searched |
| Drawer.OutcomesSnoc | Editor/InjectComponentDrawer.cs:20-40 | one more call adds exactly the branch Decide picks from the latch so far, and updates the latch by that branch |
| Drawer.RunAgreesStep | Editor/InjectComponentDrawer.cs:20-74 | a recorded run extends by one draw whose frame is read from the last state, whose branch is Decide's from the latch so far and whose new state is Written from that branch |
| Drawer.LatchesAtMostOnce | Editor/InjectComponentDrawer.cs:12-40 | over any sequence of calls, at most one call warns or assigns, and none does if the drawer starts latched |
| Drawer.LatchedStaysIdle | Editor/InjectComponentDrawer.cs:20-23 | once latched, every later call takes the do-nothing branch |
| Drawer.IdleAfterLatch | Editor/InjectComponentDrawer.cs:20-40 | after a call that warns or searches, every later call does nothing, so the warning is issued at most once |
| Drawer.DeclinedKeepsSearchOpen | Editor/InjectComponentDrawer.cs:35-40 | declined calls (read-only or already filled) do not latch: after any run of them, a call on an editable null field searches |
| Drawer.InjectComponentDrawer.constructor | Editor/InjectComponentDrawer.cs:9-14 | a new drawer is unlatched, has warned and assigned nothing, and keeps the field's type test and the attribute's switch |
| Drawer.InjectComponentDrawer.DrawRepeatedly | Editor/InjectComponentDrawer.cs:9-74 | successive draws by one drawer, with the property states before each draw and after the last: the first state is the initial values and the last the final ones, each draw saw its editability and the value on its first target in the state before it, the branches are those Outcomes gives for those frames, each state follows from the previous by the branch taken (Written), the latch ends as LatchAfter gives, and at most one draw warns or assigns |
| Drawer.InjectComponentDrawer.OnGUI | Editor/InjectComponentDrawer.cs:16-74 | the branch taken (a ghost result) is Decide's; the latch is set iff it was set or the branch latches; values change only on the search branch: the single target gets GetComponentInChildren or GetComponent by searchChildren, or on multi-edit each target gets its own result; a latched call or a non-null shown value changes nothing; at most one warning and one assignment per drawer (Valid) |

## Left out

- Drawing (`EditorGUI.PropertyField`, `Rect`, `GUIContent`) is GUI output with no effect on the logic.
- The text of the warning and `Debug.LogWarningFormat` are left out; a warning is the ghost counter `warnings`.
- Reflection (`IsAssignableFrom` on the field type) is the boolean `isComponentField`.
- `SerializedObject` reconstruction, `FindProperty` and `ApplyModifiedProperties` are host serialization. Each per-target write is one map update.
- The stale inspector after a multi-object edit is left out. The source states in a comment that this behaviour is knowingly wrong.
- The engine's hierarchy traversal inside `GetComponent` and `GetComponentInChildren` is a foreign engine call. The two lookups are uninterpreted functions.
- No shown code reads `SearchParents`, `SearchAll`, `AllowDisabled` or `SearchOrder`. The ordered and parent searches and the handling of disabled objects are therefore not modelled.
- `(Component)` casts that could throw on a non-component target are not modelled; targets are assumed to be components.
- The multi-edit writes may also clear a reference: a later target whose own lookup finds nothing ends up null even if it held a reference (MultiEditOverwritesLaterTargets with `find(b) == None`).
- The multi-edit path checks only the shown (first) target for null. Other targets are overwritten whatever they held. The model states this precisely but does not treat it as a defect.
- SearchFlags.SearchOrderOf: C# also allows an out-of-range integer cast to `SearchOrder`. The model's `SearchOrder` holds only the two named members.
