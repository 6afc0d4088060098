/**
 * The property drawer for InjectComponent fields
 * (Editor/InjectComponentDrawer.cs). Each drawer instance keeps a latch,
 * didSearch; every OnGUI call either does nothing, reports a field that is
 * not a component field once and latches, declines without latching, or
 * latches and fills the field from a host lookup on one target or on each
 * target of a multi-object edit.
 *
 * The host editor is abstract: the targets and component references are
 * opaque types, and GetComponent / GetComponentInChildren are functions
 * supplied by the caller.
 */
module Drawer {
  import opened Wrappers

  /** An inspected object (a Component in the host). */
  type Target(==)
  /** A component reference; None plays the role of null. */
  type Ref(==)

  /** The host's two lookups, as they stand during one call. */
  datatype Host = Host(
    getComponent: Target -> Option<Ref>,
    getComponentInChildren: Target -> Option<Ref>)

  /** The lookup the drawer uses: in children when searchChildren is set, else on the object itself. */
  function Finder(host: Host, searchChildren: bool): Target -> Option<Ref> {
    if searchChildren then host.getComponentInChildren else host.getComponent
  }

  /** The decorated property's value on t; an object without an entry reads as null. */
  function Read(values: map<Target, Option<Ref>>, t: Target): Option<Ref> {
    if t in values then values[t] else None
  }

  /** Writing find(t) into the property of each target of ts, one after another. */
  function WriteEach(values: map<Target, Option<Ref>>, ts: seq<Target>,
                     find: Target -> Option<Ref>): (r: map<Target, Option<Ref>>)
    ensures r.Keys == values.Keys + (set t | t in ts)
    decreases |ts|
  {
    if ts == [] then values
    else
      var last := ts[|ts| - 1];
      WriteEach(values, ts[..|ts| - 1], find)[last := find(last)]
  }

  /** After WriteEach, a target holds its own lookup result and every other object keeps its value. */
  lemma {:induction false} WriteEachReads(values: map<Target, Option<Ref>>, ts: seq<Target>,
                                          find: Target -> Option<Ref>, t: Target)
    ensures Read(WriteEach(values, ts, find), t) == if t in ts then find(t) else Read(values, t)
  {
    if ts != [] {
      var init := ts[..|ts| - 1];
      assert ts == init + [ts[|ts| - 1]];
      WriteEachReads(values, init, find, t);
    }
  }

  /**
   * The multi-edit writes replace every target's value, including a
   * non-null one: only the shown (first) target is tested for null.
   */
  lemma MultiEditOverwritesLaterTargets(values: map<Target, Option<Ref>>, a: Target, b: Target,
                                        find: Target -> Option<Ref>)
    requires a != b && Read(values, a) == None && Read(values, b) != None
    ensures Read(WriteEach(values, [a, b], find), b) == find(b)
  {
    WriteEachReads(values, [a, b], find, b);
  }

  /** Which branch of OnGUI a call takes. */
  datatype Outcome =
    | AlreadySearched  // the latch is set: nothing happens
    | Misconfigured    // not a component field: warn and latch
    | Declined         // read-only or already filled: nothing happens, no latch
    | Searched         // latch and assign the lookup result

  /** The branches that set the latch. */
  predicate Latches(o: Outcome) {
    o == Misconfigured || o == Searched
  }

  /** The branch taken, given the latch, the field's type test, editability and the value shown. */
  function Decide(didSearch: bool, isComponentField: bool, editable: bool, shown: Option<Ref>): (o: Outcome)
    ensures o == AlreadySearched <==> didSearch
    ensures o == Misconfigured <==> !didSearch && !isComponentField
    ensures o == Searched <==> !didSearch && isComponentField && editable && shown == None
    ensures Latches(o) <==> !didSearch && (!isComponentField || (editable && shown == None))
  {
    if didSearch then AlreadySearched
    else if !isComponentField then Misconfigured
    else if !editable || shown != None then Declined
    else Searched
  }

  /** What a single call sees: whether the property is editable and the value it shows. */
  datatype Frame = Frame(editable: bool, shown: Option<Ref>)

  /** The host inputs of one draw: editability, multi-object editing, the targets and the lookups. */
  datatype Draw = Draw(editable: bool, multi: bool, targets: seq<Target>, host: Host)

  /** The branches taken by successive calls on one drawer, starting from the latch didSearch. */
  function Outcomes(didSearch: bool, isComponentField: bool, frames: seq<Frame>): (r: seq<Outcome>)
    ensures |r| == |frames|
    decreases |frames|
  {
    if frames == [] then []
    else
      var o := Decide(didSearch, isComponentField, frames[0].editable, frames[0].shown);
      [o] + Outcomes(didSearch || Latches(o), isComponentField, frames[1..])
  }

  /**
   * The latch after successive calls on one drawer that started with the
   * latch didSearch; LatchAfterIsSomeLatch ties it to Outcomes.
   */
  function LatchAfter(didSearch: bool, isComponentField: bool, frames: seq<Frame>): bool
    decreases |frames|
  {
    if frames == [] then didSearch
    else
      var o := Decide(didSearch, isComponentField, frames[0].editable, frames[0].shown);
      LatchAfter(didSearch || Latches(o), isComponentField, frames[1..])
  }

  /** The latch ends set iff it started set or some call warned or searched. */
  lemma {:induction false} LatchAfterIsSomeLatch(didSearch: bool, isComponentField: bool, frames: seq<Frame>)
    ensures var r := Outcomes(didSearch, isComponentField, frames);
      LatchAfter(didSearch, isComponentField, frames) <==>
        didSearch || Count(r, Searched) + Count(r, Misconfigured) > 0
    decreases |frames|
  {
    if frames != [] {
      var o := Decide(didSearch, isComponentField, frames[0].editable, frames[0].shown);
      var r := Outcomes(didSearch, isComponentField, frames);
      assert r[0] == o && r[1..] == Outcomes(didSearch || Latches(o), isComponentField, frames[1..]);
      LatchAfterIsSomeLatch(didSearch || Latches(o), isComponentField, frames[1..]);
    }
  }

  /** One more call extends the run by the branch Decide picks from the latch so far. */
  lemma {:induction false} OutcomesSnoc(didSearch: bool, isComponentField: bool, frames: seq<Frame>, f: Frame)
    ensures var o := Decide(LatchAfter(didSearch, isComponentField, frames), isComponentField, f.editable, f.shown);
      && Outcomes(didSearch, isComponentField, frames + [f]) == Outcomes(didSearch, isComponentField, frames) + [o]
      && LatchAfter(didSearch, isComponentField, frames + [f]) == (LatchAfter(didSearch, isComponentField, frames) || Latches(o))
    decreases |frames|
  {
    if frames != [] {
      var o := Decide(didSearch, isComponentField, frames[0].editable, frames[0].shown);
      assert (frames + [f])[0] == frames[0];
      assert (frames + [f])[1..] == frames[1..] + [f];
      OutcomesSnoc(didSearch || Latches(o), isComponentField, frames[1..], f);
    }
  }

  /** The number of occurrences of o in r. */
  function Count(r: seq<Outcome>, o: Outcome): nat {
    if r == [] then 0 else (if r[0] == o then 1 else 0) + Count(r[1..], o)
  }

  /** Over any sequence of calls, at most one call warns or assigns, and none does once latched. */
  lemma {:induction false} LatchesAtMostOnce(didSearch: bool, isComponentField: bool, frames: seq<Frame>)
    ensures var r := Outcomes(didSearch, isComponentField, frames);
      Count(r, Searched) + Count(r, Misconfigured) <= (if didSearch then 0 else 1)
    decreases |frames|
  {
    if frames != [] {
      var o := Decide(didSearch, isComponentField, frames[0].editable, frames[0].shown);
      var r := Outcomes(didSearch, isComponentField, frames);
      assert r[1..] == Outcomes(didSearch || Latches(o), isComponentField, frames[1..]);
      LatchesAtMostOnce(didSearch || Latches(o), isComponentField, frames[1..]);
    }
  }

  /** Once a set latch is passed in, every call does nothing. */
  lemma {:induction false} LatchedStaysIdle(isComponentField: bool, frames: seq<Frame>, j: nat)
    requires j < |frames|
    ensures Outcomes(true, isComponentField, frames)[j] == AlreadySearched
  {
    if j > 0 {
      LatchedStaysIdle(isComponentField, frames[1..], j - 1);
    }
  }

  /** After a call that warns or assigns, every later call does nothing. */
  lemma {:induction false} IdleAfterLatch(didSearch: bool, isComponentField: bool, frames: seq<Frame>, i: nat, j: nat)
    requires i < j < |frames|
    requires Latches(Outcomes(didSearch, isComponentField, frames)[i])
    ensures Outcomes(didSearch, isComponentField, frames)[j] == AlreadySearched
    decreases |frames|
  {
    var o := Decide(didSearch, isComponentField, frames[0].editable, frames[0].shown);
    if i == 0 {
      LatchedStaysIdle(isComponentField, frames[1..], j - 1);
    } else {
      IdleAfterLatch(didSearch || Latches(o), isComponentField, frames[1..], i - 1, j - 1);
    }
  }

  /** Declining does not latch: after any run of declined calls, an editable empty field is searched. */
  lemma {:induction false} DeclinedKeepsSearchOpen(frames: seq<Frame>)
    requires forall k :: 0 <= k < |frames| ==> !frames[k].editable || frames[k].shown != None
    ensures var r := Outcomes(false, true, frames + [Frame(true, None)]);
      (forall k :: 0 <= k < |frames| ==> r[k] == Declined) && r[|frames|] == Searched
  {
    if frames != [] {
      assert (frames + [Frame(true, None)])[1..] == frames[1..] + [Frame(true, None)];
      DeclinedKeepsSearchOpen(frames[1..]);
    }
  }

  /**
   * A run of draws from latch didSearch, as the redraw loop records it:
   * each frame is what its draw saw in the state before it, the branches
   * are those of Outcomes, and each state follows from the one before by
   * Written.
   */
  ghost predicate RunAgrees(didSearch: bool, isComponentField: bool, searchChildren: bool, draws: seq<Draw>, n: nat,
                            frames: seq<Frame>, outcomes: seq<Outcome>, states: seq<map<Target, Option<Ref>>>)
  {
    && n <= |draws| && |frames| == n && |outcomes| == n && |states| == n + 1
    && (forall k :: 0 <= k < |draws| ==> |draws[k].targets| > 0)
    && (forall k :: 0 <= k < n ==>
          frames[k] == Frame(draws[k].editable, Read(states[k], draws[k].targets[0])))
    && (forall k :: 0 <= k < n ==>
          states[k + 1] == Written(states[k], outcomes[k], draws[k].multi, draws[k].targets,
                                   draws[k].host, searchChildren))
    && outcomes == Outcomes(didSearch, isComponentField, frames)
  }

  /** A run extends by one draw that saw the last state and took the branch Decide picks. */
  lemma RunAgreesStep(didSearch: bool, isComponentField: bool, searchChildren: bool, draws: seq<Draw>, n: nat,
                      frames: seq<Frame>, outcomes: seq<Outcome>, states: seq<map<Target, Option<Ref>>>,
                      after: map<Target, Option<Ref>>)
    requires RunAgrees(didSearch, isComponentField, searchChildren, draws, n, frames, outcomes, states)
    requires n < |draws|
    ensures var d := draws[n];
      var frame := Frame(d.editable, Read(states[n], d.targets[0]));
      var o := Decide(LatchAfter(didSearch, isComponentField, frames), isComponentField, frame.editable, frame.shown);
      after == Written(states[n], o, d.multi, d.targets, d.host, searchChildren) ==>
        RunAgrees(didSearch, isComponentField, searchChildren, draws, n + 1,
                  frames + [frame], outcomes + [o], states + [after])
  {
    var frame := Frame(draws[n].editable, Read(states[n], draws[n].targets[0]));
    OutcomesSnoc(didSearch, isComponentField, frames, frame);
  }

  /** The decorated property's value on every inspected object, as the host stores it. */
  class PropertyValues {
    var values: map<Target, Option<Ref>>
  }

  /**
   * The property values after a call that took branch o: only the search
   * branch writes, to the single target or to each multi-edit target.
   */
  function Written(values: map<Target, Option<Ref>>, o: Outcome, multi: bool, targets: seq<Target>,
                   host: Host, searchChildren: bool): map<Target, Option<Ref>>
    requires |targets| > 0
  {
    if o != Searched then values
    else if multi then WriteEach(values, targets, Finder(host, searchChildren))
    else values[targets[0] := Finder(host, searchChildren)(targets[0])]
  }

  class InjectComponentDrawer {
    /** Whether the field's declared type is a Component type. */
    const isComponentField: bool
    /** The attribute's searchChildren switch. */
    const searchChildren: bool
    /** Set once a call has warned or searched; never cleared. */
    var didSearch: bool
    /** Calls that reported the misconfiguration. */
    ghost var warnings: nat
    /** Calls that assigned lookup results. */
    ghost var searches: nat

    ghost predicate Valid()
      reads this
    {
      warnings + searches <= 1 && (didSearch <==> warnings + searches == 1)
    }

    /** A fresh drawer, as the host creates one whenever the inspector is rebuilt. */
    constructor (isComponentField: bool, searchChildren: bool)
      ensures Valid() && !didSearch && warnings == 0 && searches == 0
      ensures this.isComponentField == isComponentField && this.searchChildren == searchChildren
    {
      this.isComponentField := isComponentField;
      this.searchChildren := searchChildren;
      didSearch := false;
      warnings := 0;
      searches := 0;
    }

    /**
     * One inspector draw of the field. targets are the inspected objects
     * (the first is the single target); the value shown, and tested for
     * null, is the first target's.
     */
    method OnGUI(property: PropertyValues, editable: bool, multi: bool, targets: seq<Target>, host: Host)
      returns (ghost outcome: Outcome)
      requires Valid() && |targets| > 0
      modifies this, property
      ensures Valid()
      ensures outcome == Decide(old(didSearch), isComponentField, editable, Read(old(property.values), targets[0]))
      ensures var o := outcome;
        && didSearch == (old(didSearch) || Latches(o))
        && warnings == old(warnings) + (if o == Misconfigured then 1 else 0)
        && searches == old(searches) + (if o == Searched then 1 else 0)
        && property.values == Written(old(property.values), o, multi, targets, host, searchChildren)
      ensures old(didSearch) ==> didSearch && property.values == old(property.values)
      ensures Read(old(property.values), targets[0]) != None ==> property.values == old(property.values)
      ensures multi && didSearch && !old(didSearch) && isComponentField ==>
        forall t :: Read(property.values, t) ==
          if t in targets then Finder(host, searchChildren)(t) else Read(old(property.values), t)
    {
      outcome := Decide(didSearch, isComponentField, editable, Read(property.values, targets[0]));
      if didSearch {
        return;
      }
      if !isComponentField {
        warnings := warnings + 1;
        didSearch := true;
        return;
      }
      if !editable || Read(property.values, targets[0]) != None {
        return;
      }
      didSearch := true;
      searches := searches + 1;
      var shouldSearchChildren := searchChildren;
      if multi {
        ghost var before := property.values;
        for i := 0 to |targets|
          modifies property
          invariant property.values == WriteEach(before, targets[..i], Finder(host, shouldSearchChildren))
        {
          var target := targets[i];
          var found := if shouldSearchChildren then host.getComponentInChildren(target)
                       else host.getComponent(target);
          assert targets[..i + 1][..i] == targets[..i];
          property.values := property.values[target := found];
        }
        assert targets[..|targets|] == targets;
        forall t
          ensures Read(property.values, t) ==
            if t in targets then Finder(host, searchChildren)(t) else Read(before, t)
        {
          WriteEachReads(before, targets, Finder(host, searchChildren), t);
        }
      } else {
        var target := targets[0];
        property.values := property.values[target :=
          if shouldSearchChildren then host.getComponentInChildren(target)
          else host.getComponent(target)];
      }
    }

    /**
     * The host's redraw loop: successive draws of the field by this one
     * drawer. states are the property values before each draw and after
     * the last; frames records what each draw saw (editability and the value
     * on its first target in the state before it); the branches taken are
     * exactly those of Outcomes over those frames, each draw moves the state
     * by Written, and the latch ends as LatchAfter says.
     */
    method DrawRepeatedly(property: PropertyValues, draws: seq<Draw>)
      returns (ghost frames: seq<Frame>, ghost outcomes: seq<Outcome>,
               ghost states: seq<map<Target, Option<Ref>>>)
      requires Valid()
      requires forall k :: 0 <= k < |draws| ==> |draws[k].targets| > 0
      modifies this, property
      ensures Valid()
      ensures RunAgrees(old(didSearch), isComponentField, searchChildren, draws, |draws|, frames, outcomes, states)
      ensures states[0] == old(property.values) && states[|draws|] == property.values
      ensures didSearch == LatchAfter(old(didSearch), isComponentField, frames)
      ensures searches + warnings <= (if old(didSearch) then old(searches + warnings) else 1)
    {
      ghost var start := didSearch;
      frames, outcomes, states := [], [], [property.values];
      for k := 0 to |draws|
        invariant Valid()
        invariant RunAgrees(start, isComponentField, searchChildren, draws, k, frames, outcomes, states)
        invariant states[0] == old(property.values) && states[k] == property.values
        invariant didSearch == LatchAfter(start, isComponentField, frames)
        invariant start ==> didSearch && searches + warnings == old(searches + warnings)
      {
        var d := draws[k];
        ghost var before := property.values;
        ghost var frame := Frame(d.editable, Read(before, d.targets[0]));
        var o := OnGUI(property, d.editable, d.multi, d.targets, d.host);
        OutcomesSnoc(start, isComponentField, frames, frame);
        RunAgreesStep(start, isComponentField, searchChildren, draws, k, frames, outcomes, states, property.values);
        frames, outcomes, states := frames + [frame], outcomes + [o], states + [property.values];
      }
    }
  }
}
