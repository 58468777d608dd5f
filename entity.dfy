/** The per-entity component: a dictionary from attribute names to
    instances, seeded from an attribute set, with name-based access and
    bulk operations over one named instance or all of them. */
module Entity {
  import opened Types
  import opened Modifiers
  import opened Aggregation
  import opened Instance
  import opened AttributeSets
  import opened Factory

  // ----- The ID of a modifier built by the entity -----

  /** `source_type_time`: the ID the entity gives a modifier it builds;
      `stamp` is the formatted clock. */
  function AppliedId(source: string, kind: ModifierType, stamp: string): string {
    source + "_" + KindName(kind) + "_" + stamp
  }

  /** Two modifiers of one kind applied from one source at the same clock
      text share their ID, so the second replaces the first. */
  lemma SameFrameApplyReplaces(st: InstanceState, source: string, kind: ModifierType, stamp: string,
                               a1: ModifierApplication, v1: real, d1: real, p1: int,
                               a2: ModifierApplication, v2: real, d2: real, p2: int, now1: real, now2: real)
    requires UniqueIds(st.modifiers)
    ensures var id := AppliedId(source, kind, stamp);
      var first := Created(id, source, kind, a1, v1, d1, p1);
      var second := Created(id, source, kind, a2, v2, d2, p2);
      Added(Added(st, Some(first), now1), Some(second), now2).modifiers
        == RemoveFirstId(st.modifiers, id) + [Activated(second, now2)]
  {
    var id := AppliedId(source, kind, stamp);
    SameIdReplaces(st, Created(id, source, kind, a1, v1, d1, p1), Created(id, source, kind, a2, v2, d2, p2), now1, now2);
  }

  /** A modifier added without a source is tagged with the default source,
      so a removal by that source takes it away again. */
  lemma UnsourcedIsClearedByDefaultSource(st: InstanceState, kind: ModifierType, value: real, stamp: string,
                                          duration: real, now: real, later: real)
    requires UniqueIds(st.modifiers)
    ensures var m := ByDuration(AppliedId(UnknownSource, kind, stamp), kind, value, UnknownSource, duration);
      && Activated(m, now) in Added(st, Some(m), now).modifiers
      && Activated(m, now) !in SourceCleared(Added(st, Some(m), now), UnknownSource, later).modifiers
  {
    var m := ByDuration(AppliedId(UnknownSource, kind, stamp), kind, value, UnknownSource, duration);
    AddedIsOnlyOne(st, m, now);
    ClearSourceKeepsOthers(Added(st, Some(m), now), UnknownSource, later);
  }

  // ----- Seeding from an attribute set -----

  /** The entry has a type, and that type carries `name`. */
  predicate NamedEntry(e: Entry, name: string) {
    e.attrType.Some? && e.attrType.value.name == name
  }

  /** The dictionary the entries seed: for each name the type and base value
      of the entry that writes it last; entries without a type are skipped. */
  function Seeds(s: seq<Entry>): (r: map<string, (AttributeType, real)>)
    ensures forall name :: name in r <==> exists j :: 0 <= j < |s| && NamedEntry(s[j], name)
    ensures forall name :: name in r ==> r[name].0.name == name
  {
    if s == [] then map[]
    else
      var seeds := Seeds(s[..|s| - 1]);
      var e := s[|s| - 1];
      if e.attrType.None? then seeds
      else seeds[e.attrType.value.name := (e.attrType.value, e.baseValue)]
  }

  /** A later entry with the same name overwrites an earlier one: the seed of
      a name comes from its last entry. */
  lemma {:induction false} SeedsLastWins(s: seq<Entry>, name: string)
    requires name in Seeds(s)
    ensures exists k :: (0 <= k < |s| && NamedEntry(s[k], name)
      && Seeds(s)[name] == (s[k].attrType.value, s[k].baseValue)
      && forall j :: k < j < |s| ==> !NamedEntry(s[j], name))
  {
    var p := s[..|s| - 1];
    var e := s[|s| - 1];
    if NamedEntry(e, name) {
      assert Seeds(s)[name] == (e.attrType.value, e.baseValue);
    } else {
      assert name in Seeds(p);
      SeedsLastWins(p, name);
      var k :| 0 <= k < |p| && NamedEntry(p[k], name)
        && Seeds(p)[name] == (p[k].attrType.value, p[k].baseValue)
        && forall j :: k < j < |p| ==> !NamedEntry(p[j], name);
      assert s[k] == p[k];
      assert forall j :: k < j < |s| ==> !NamedEntry(s[j], name) by {
        forall j | k < j < |s|
          ensures !NamedEntry(s[j], name)
        {
          if j < |p| {
            assert s[j] == p[j];
          }
        }
      }
    }
  }

  /** One more entry: a typed entry writes its name, an untyped one is skipped. */
  lemma SeedsStep(s: seq<Entry>, i: nat)
    requires i < |s|
    ensures Seeds(s[..i + 1]) == if s[i].attrType.None? then Seeds(s[..i])
      else Seeds(s[..i])[s[i].attrType.value.name := (s[i].attrType.value, s[i].baseValue)]
  {
    assert s[..i + 1][..i] == s[..i];
  }

  // ----- Removal by source -----

  /** The IDs of the modifiers from `source`, in list order. */
  function SourceIds(s: seq<ModifierState>, source: string): (r: seq<string>)
    ensures forall x :: x in r ==> exists j :: 0 <= j < |s| && s[j].id == x && s[j].source == source
  {
    if s == [] then []
    else
      var last := s[|s| - 1];
      SourceIds(s[..|s| - 1], source) + (if last.source == source then [last.id] else [])
  }

  /** The modifiers not from `source`, in list order. */
  function OtherSources(s: seq<ModifierState>, source: string): (r: seq<ModifierState>)
    ensures |r| <= |s|
    ensures forall x :: x in r <==> x in s && x.source != source
  {
    if s == [] then []
    else
      var last := s[|s| - 1];
      assert s == s[..|s| - 1] + [last];
      OtherSources(s[..|s| - 1], source) + (if last.source != source then [last] else [])
  }

  /** The modifiers whose IDs are not among `ids`, in list order. */
  function WithoutIds(s: seq<ModifierState>, ids: seq<string>): seq<ModifierState> {
    if s == [] then []
    else
      var last := s[|s| - 1];
      WithoutIds(s[..|s| - 1], ids) + (if last.id !in ids then [last] else [])
  }

  /** The removals of `ids`, one after the other in order. */
  function RemovedAll(st: InstanceState, ids: seq<string>, now: real): InstanceState {
    if ids == [] then st
    else Removed(RemovedAll(st, ids[..|ids| - 1], now), ids[|ids| - 1], now)
  }

  lemma {:induction false} WithoutConcat(a: seq<ModifierState>, b: seq<ModifierState>, ids: seq<string>)
    ensures WithoutIds(a + b, ids) == WithoutIds(a, ids) + WithoutIds(b, ids)
    decreases |b|
  {
    if b == [] {
      assert a + b == a;
    } else {
      var p := b[..|b| - 1];
      assert (a + b)[..|a + b| - 1] == a + p;
      WithoutConcat(a, p, ids);
    }
  }

  /** A list none of whose IDs is among `ids` is kept whole. */
  lemma {:induction false} WithoutNone(s: seq<ModifierState>, ids: seq<string>)
    requires forall j :: 0 <= j < |s| ==> s[j].id !in ids
    ensures WithoutIds(s, ids) == s
  {
    if s != [] {
      WithoutNone(s[..|s| - 1], ids);
    }
  }

  /** Filtering by two lists of IDs is filtering by their concatenation. */
  lemma {:induction false} WithoutTwice(s: seq<ModifierState>, a: seq<string>, b: seq<string>)
    ensures WithoutIds(WithoutIds(s, a), b) == WithoutIds(s, a + b)
  {
    if s != [] {
      var p := s[..|s| - 1];
      var last := s[|s| - 1];
      WithoutTwice(p, a, b);
      WithoutConcat(WithoutIds(p, a), if last.id !in a then [last] else [], b);
      assert [last][..0] == [];
    }
  }

  /** An ID no modifier carries can be dropped from the filter. */
  lemma {:induction false} WithoutIrrelevant(s: seq<ModifierState>, ids: seq<string>, x: string)
    requires forall j :: 0 <= j < |s| ==> s[j].id != x
    ensures WithoutIds(s, ids + [x]) == WithoutIds(s, ids)
  {
    if s != [] {
      WithoutIrrelevant(s[..|s| - 1], ids, x);
    }
  }

  /** With unique IDs, removing the first modifier with an ID removes every one. */
  lemma RemoveFirstIsFilter(s: seq<ModifierState>, x: string)
    requires UniqueIds(s)
    ensures RemoveFirstId(s, x) == WithoutIds(s, [x])
  {
    var k := FirstWithId(s, x);
    if k < |s| {
      var a, b := s[..k], s[k + 1..];
      assert s == a + [s[k]] + b;
      assert forall j :: 0 <= j < |b| ==> b[j].id != x by {
        forall j | 0 <= j < |b|
          ensures b[j].id != x
        {
          assert b[j] == s[k + 1 + j];
        }
      }
      DropOne(a, s[k], b, x);
    } else {
      WithoutNone(s, [x]);
    }
  }

  /** Filtering out the one modifier that carries an ID. */
  lemma DropOne(a: seq<ModifierState>, m: ModifierState, b: seq<ModifierState>, x: string)
    requires m.id == x
    requires forall j :: 0 <= j < |a| ==> a[j].id != x
    requires forall j :: 0 <= j < |b| ==> b[j].id != x
    ensures WithoutIds(a + [m] + b, [x]) == a + b
  {
    WithoutNone(a, [x]);
    WithoutNone(b, [x]);
    WithoutSingle(m, [x]);
    assert x in [x];
    WithoutConcat(a, [m], [x]);
    assert WithoutIds(a + [m], [x]) == a;
    WithoutConcat(a + [m], b, [x]);
    assert WithoutIds(a + [m] + b, [x]) == a + b;
  }

  lemma WithoutSingle(m: ModifierState, ids: seq<string>)
    ensures WithoutIds([m], ids) == if m.id in ids then [] else [m]
  {
    assert [m][..0] == [];
  }

  lemma PrefixUnique(s: seq<ModifierState>)
    requires s != [] && UniqueIds(s)
    ensures UniqueIds(s[..|s| - 1])
    ensures forall j :: 0 <= j < |s| - 1 ==> s[j].id != s[|s| - 1].id
  {
  }

  /** Removals one after the other filter the IDs out and keep IDs unique. */
  lemma {:induction false} RemovedAllFilters(st: InstanceState, ids: seq<string>, now: real)
    requires UniqueIds(st.modifiers)
    ensures RemovedAll(st, ids, now).modifiers == WithoutIds(st.modifiers, ids)
    ensures UniqueIds(RemovedAll(st, ids, now).modifiers)
    ensures RemovedAll(st, ids, now).baseValue == st.baseValue
  {
    if ids == [] {
      WithoutNone(st.modifiers, ids);
    } else {
      var init := ids[..|ids| - 1];
      var x := ids[|ids| - 1];
      var r := RemovedAll(st, init, now);
      RemovedAllFilters(st, init, now);
      RemoveFirstIsFilter(r.modifiers, x);
      RemoveFirstIdUnique(r.modifiers, x);
      WithoutTwice(st.modifiers, init, [x]);
      assert init + [x] == ids;
      if !HasId(r.modifiers, x) {
        assert RemoveFirstId(r.modifiers, x) == r.modifiers;
      }
    }
  }

  /** With unique IDs, filtering out the IDs from a source leaves exactly the
      modifiers from other sources. */
  lemma {:induction false} SourceIdsFilter(s: seq<ModifierState>, source: string)
    requires UniqueIds(s)
    ensures WithoutIds(s, SourceIds(s, source)) == OtherSources(s, source)
  {
    if s != [] {
      var p := s[..|s| - 1];
      var last := s[|s| - 1];
      var ids := SourceIds(p, source);
      PrefixUnique(s);
      SourceIdsFilter(p, source);
      assert WithoutIds(s, SourceIds(s, source)) ==
        WithoutIds(p, SourceIds(s, source)) + (if last.id !in SourceIds(s, source) then [last] else []);
      if last.source == source {
        assert SourceIds(s, source) == ids + [last.id];
        WithoutIrrelevant(p, ids, last.id);
      } else {
        assert SourceIds(s, source) == ids;
        assert last.id !in ids;
      }
    }
  }

  /** A removal by source on one instance: the IDs of the modifiers from
      the source, collected in list order, removed one after the other. */
  function SourceCleared(st: InstanceState, source: string, now: real): InstanceState {
    RemovedAll(st, SourceIds(st.modifiers, source), now)
  }

  /** A removal by source removes exactly that source's modifiers, keeping
      all others in order, keeps IDs unique and changes no base value. */
  lemma ClearSourceKeepsOthers(st: InstanceState, source: string, now: real)
    requires UniqueIds(st.modifiers)
    ensures SourceCleared(st, source, now).modifiers == OtherSources(st.modifiers, source)
    ensures UniqueIds(SourceCleared(st, source, now).modifiers)
    ensures SourceCleared(st, source, now).baseValue == st.baseValue
  {
    RemovedAllFilters(st, SourceIds(st.modifiers, source), now);
    SourceIdsFilter(st.modifiers, source);
  }

  /** The first loop of a removal by source: the IDs from the source. */
  method CollectSourceIds(mods: seq<ModifierState>, source: string) returns (ids: seq<string>)
    ensures ids == SourceIds(mods, source)
  {
    ids := [];
    var i := 0;
    while i < |mods|
      invariant 0 <= i <= |mods|
      invariant ids == SourceIds(mods[..i], source)
    {
      assert mods[..i + 1][..i] == mods[..i];
      if mods[i].source == source {
        ids := ids + [mods[i].id];
      }
      i := i + 1;
    }
    assert mods[..i] == mods;
  }

  /** The second loop of a removal by source: each ID removed in turn. */
  method RemoveEach(inst: ModifiableAttributeInstance, ids: seq<string>, now: real)
    requires inst.Valid()
    modifies inst
    ensures inst.Valid()
    ensures inst.Snapshot() == RemovedAll(old(inst.Snapshot()), ids, now)
  {
    var k := 0;
    while k < |ids|
      invariant 0 <= k <= |ids|
      invariant inst.Snapshot() == RemovedAll(old(inst.Snapshot()), ids[..k], now)
      invariant inst.Valid()
    {
      assert ids[..k + 1][..k] == ids[..k];
      var _ := inst.RemoveModifier(ids[k], now);
      k := k + 1;
    }
    assert ids[..k] == ids;
  }

  /** A removal by source on one instance. */
  method ClearSource(inst: ModifiableAttributeInstance, source: string, now: real)
    requires inst.Valid()
    modifies inst
    ensures inst.Valid()
    ensures inst.Snapshot() == SourceCleared(old(inst.Snapshot()), source, now)
    ensures inst.modifiers == OtherSources(old(inst.modifiers), source)
  {
    ClearSourceKeepsOthers(inst.Snapshot(), source, now);
    var toRemove := CollectSourceIds(inst.modifiers, source);
    RemoveEach(inst, toRemove, now);
  }

  /** The component: its attribute set and the instances by name. */
  class EntityAttributes {
    var attributeSet: AttributeSet?
    var attributes: map<string, ModifiableAttributeInstance>

    /** Every instance keeps unique modifier IDs, and no instance is held
        under two names. */
    ghost predicate Valid()
      reads this, attributes.Values
    {
      && (forall k :: k in attributes ==> attributes[k].Valid())
      && (forall k1, k2 :: k1 in attributes && k2 in attributes && k1 != k2 ==> attributes[k1] != attributes[k2])
    }

    constructor (attributeSet: AttributeSet?)
      ensures Valid()
      ensures this.attributeSet == attributeSet && attributes == map[]
    {
      this.attributeSet := attributeSet;
      attributes := map[];
    }

    /** Rebuilds the dictionary from the set: one new instance per name
        with a type, seeded with the base value of its last entry. Without
        a set nothing changes. */
    method InitializeAttributes()
      requires Valid()
      modifies this
      ensures Valid()
      ensures attributeSet == old(attributeSet)
      ensures attributeSet == null ==> attributes == old(attributes)
      ensures attributeSet != null ==> attributes.Keys == Seeds(attributeSet.attributes).Keys
      ensures attributeSet != null ==> forall k :: k in attributes ==>
        && fresh(attributes[k])
        && attributes[k].attrType == Seeds(attributeSet.attributes)[k].0
        && attributes[k].Snapshot() == InstanceState(Seeds(attributeSet.attributes)[k].1, [], {}, [])
    {
      if attributeSet == null {
        return;
      }
      var entries := attributeSet.attributes;
      attributes := map[];
      var i := 0;
      while i < |entries|
        invariant 0 <= i <= |entries|
        invariant attributeSet == old(attributeSet) && entries == attributeSet.attributes
        invariant attributes.Keys == Seeds(entries[..i]).Keys
        invariant forall k :: k in attributes ==>
          && fresh(attributes[k]) && attributes[k].Valid()
          && attributes[k].attrType == Seeds(entries[..i])[k].0
          && attributes[k].Snapshot() == InstanceState(Seeds(entries[..i])[k].1, [], {}, [])
        invariant forall k1, k2 :: k1 in attributes && k2 in attributes && k1 != k2 ==> attributes[k1] != attributes[k2]
      {
        SeedsStep(entries, i);
        var entry := entries[i];
        if entry.attrType.Some? {
          var inst := new ModifiableAttributeInstance(entry.attrType.value, entry.baseValue);
          attributes := attributes[entry.attrType.value.name := inst];
        }
        i := i + 1;
      }
      assert entries[..i] == entries;
    }

    /** Installs a new set and rebuilds the dictionary from it; a null set
        leaves the dictionary as it was. */
    method SetAttributeSet(newSet: AttributeSet?)
      requires Valid()
      modifies this
      ensures Valid() && attributeSet == newSet
      ensures newSet == null ==> attributes == old(attributes)
      ensures newSet != null ==> attributes.Keys == Seeds(newSet.attributes).Keys
      ensures newSet != null ==> forall k :: k in attributes ==>
        && fresh(attributes[k])
        && attributes[k].attrType == Seeds(newSet.attributes)[k].0
        && attributes[k].Snapshot() == InstanceState(Seeds(newSet.attributes)[k].1, [], {}, [])
    {
      attributeSet := newSet;
      InitializeAttributes();
    }

    /** The current value of the named attribute; 0 for an unknown name. */
    function GetValue(name: string, now: real): (r: real)
      reads this, attributes.Values
      ensures name !in attributes ==> r == 0.0
      ensures name in attributes ==> r == ValueOf(attributes[name].baseValue, attributes[name].modifiers, now)
    {
      if name in attributes then attributes[name].CurrentValue(now) else 0.0
    }

    /** The base value of the named attribute; 0 for an unknown name. */
    function GetBaseValue(name: string): (r: real)
      reads this, attributes.Values
      ensures name !in attributes ==> r == 0.0
      ensures name in attributes ==> r == attributes[name].baseValue
    {
      if name in attributes then attributes[name].baseValue else 0.0
    }

    /** The number of modifiers the named attribute holds; 0 for an unknown name. */
    function GetModifierCount(name: string): (r: nat)
      reads this, attributes.Values
      ensures name !in attributes ==> r == 0
      ensures name in attributes ==> r == |attributes[name].modifiers|
    {
      if name in attributes then |attributes[name].modifiers| else 0
    }

    /** Only the instance under `name`, if any, went from `before` to its
        new state by `step`; every other instance is as it was. */
    twostate predicate OnlyNamed(name: string, step: InstanceState -> InstanceState)
      reads this, attributes.Values
    {
      && attributes == old(attributes)
      && forall k :: k in attributes ==>
           attributes[k].Snapshot() == if k == name then step(old(attributes[k].Snapshot())) else old(attributes[k].Snapshot())
    }
  
    /** Every instance went from its old state by `step`. */
    twostate predicate EveryInstance(step: InstanceState -> InstanceState)
      reads this, attributes.Values
    {
      && attributes == old(attributes)
      && forall k :: k in attributes ==> attributes[k].Snapshot() == step(old(attributes[k].Snapshot()))
    }

    /** Clears the modifiers of a known attribute, then sets its base, so
        that its value is exactly the new one; an unknown name changes nothing. */
    method SetValue(name: string, value: real, now: real)
      requires Valid()
      modifies attributes.Values
      ensures Valid()
      ensures OnlyNamed(name, st => Rebased(Cleared(st), value, now))
      ensures name in attributes ==> attributes[name].modifiers == [] && GetValue(name, now) == value
    {
      if name in attributes {
        var inst := attributes[name];
        inst.ClearAllModifiers(now);
        inst.SetBaseValue(value, now);
        NoModifiersIsBase(value, now);
      }
    }

    /** Sets the base of a known attribute, keeping its modifiers. */
    method SetBaseValue(name: string, value: real, now: real)
      requires Valid()
      modifies attributes.Values
      ensures Valid()
      ensures OnlyNamed(name, st => Rebased(st, value, now))
      ensures name in attributes ==> attributes[name].modifiers == old(attributes[name].modifiers)
      ensures name in attributes ==> GetBaseValue(name) == value
    {
      if name in attributes {
        attributes[name].SetBaseValue(value, now);
      }
    }

    /** Builds a modifier with the ID `source_type_time` and adds it to a
        known attribute; an unknown name changes nothing. */
    method ApplyModifier(name: string, kind: ModifierType, value: real, stamp: string, now: real,
                         application: ModifierApplication := Permanent, duration: real := 0.0,
                         source: string := UnknownSource, priority: int := 0)
      requires Valid()
      modifies attributes.Values
      ensures Valid()
      ensures OnlyNamed(name, st => Added(st, Some(Created(AppliedId(source, kind, stamp), source, kind, application, value, duration, priority)), now))
      ensures name in attributes ==>
        (attributes[name].HasModifier(AppliedId(source, kind, stamp)) <==>
         Live(Activated(Created(AppliedId(source, kind, stamp), source, kind, application, value, duration, priority), now)))
    {
      if name !in attributes {
        return;
      }
      var id := AppliedId(source, kind, stamp);
      var m := Created(id, source, kind, application, value, duration, priority);
      attributes[name].AddModifier(Some(m), now);
    }

    /** Adds a ready-made modifier (None for a null one) to a known attribute. */
    method ApplyPrebuiltModifier(name: string, m: Option<ModifierState>, now: real)
      requires Valid()
      modifies attributes.Values
      ensures Valid()
      ensures OnlyNamed(name, st => Added(st, m, now))
    {
      if name in attributes {
        attributes[name].AddModifier(m, now);
      }
    }

    /** Removes a modifier by ID from a known attribute; false for an unknown
        attribute or ID. */
    method RemoveModifier(name: string, id: string, now: real) returns (found: bool)
      requires Valid()
      modifies attributes.Values
      ensures Valid()
      ensures found <==> name in attributes && HasId(old(attributes[name].modifiers), id)
      ensures OnlyNamed(name, st => Removed(st, id, now))
      ensures name in attributes ==> !HasId(attributes[name].modifiers, id)
    {
      if name in attributes {
        found := attributes[name].RemoveModifier(id, now);
      } else {
        found := false;
      }
    }

    /** A flat modifier, temporary exactly when the duration is positive. */
    method AddFlat(name: string, value: real, stamp: string, now: real,
                       duration: real := 0.0, source: string := UnknownSource)
      requires Valid()
      modifies attributes.Values
      ensures Valid()
      ensures OnlyNamed(name, st => Added(st, Some(ByDuration(AppliedId(source, Flat, stamp), Flat, value, source, duration)), now))
    {
      ApplyModifier(name, Flat, value, stamp, now, DefaultApplication(duration), duration, source, 0);
    }

    /** A percentage modifier, temporary exactly when the duration is positive. */
    method AddPercentage(name: string, percentage: real, stamp: string, now: real,
                             duration: real := 0.0, source: string := UnknownSource)
      requires Valid()
      modifies attributes.Values
      ensures Valid()
      ensures OnlyNamed(name, st => Added(st, Some(ByDuration(AppliedId(source, PercentageAdd, stamp), PercentageAdd, percentage, source, duration)), now))
    {
      ApplyModifier(name, PercentageAdd, percentage, stamp, now, DefaultApplication(duration), duration, source, 0);
    }

    /** A multiplier modifier, temporary exactly when the duration is positive. */
    method AddMultiplier(name: string, percentage: real, stamp: string, now: real,
                             duration: real := 0.0, source: string := UnknownSource)
      requires Valid()
      modifies attributes.Values
      ensures Valid()
      ensures OnlyNamed(name, st => Added(st, Some(ByDuration(AppliedId(source, PercentageMultiply, stamp), PercentageMultiply, percentage, source, duration)), now))
    {
      ApplyModifier(name, PercentageMultiply, percentage, stamp, now, DefaultApplication(duration), duration, source, 0);
    }

    /** Empties the modifier list of the named attribute, or of every
        attribute when the name is empty. */
    method ClearAllModifiers(now: real, name: string := "")
      requires Valid()
      modifies attributes.Values
      ensures Valid()
      ensures name != "" ==> OnlyNamed(name, Cleared)
      ensures name == "" ==> EveryInstance(Cleared)
      ensures forall k :: k in attributes && (name == "" || k == name) ==> attributes[k].modifiers == []
    {
      if name != "" {
        if name in attributes {
          attributes[name].ClearAllModifiers(now);
        }
        return;
      }
      var keys := attributes.Keys;
      ghost var done: set<string> := {};
      while keys != {}
        invariant keys + done == attributes.Keys && keys !! done
        invariant Valid()
        invariant forall k :: k in attributes ==>
          attributes[k].Snapshot() == if k in done then Cleared(old(attributes[k].Snapshot())) else old(attributes[k].Snapshot())
        decreases keys
      {
        var k :| k in keys;
        attributes[k].ClearAllModifiers(now);
        keys := keys - {k};
        done := done + {k};
      }
    }

    /** Removes every modifier from `source`, on the named attribute or on
        every attribute when the name is empty; everything else stays. */
    method ClearModifiersBySource(source: string, now: real, name: string := "")
      requires Valid()
      modifies attributes.Values
      ensures Valid()
      ensures name != "" ==> OnlyNamed(name, st => SourceCleared(st, source, now))
      ensures name == "" ==> EveryInstance(st => SourceCleared(st, source, now))
      ensures forall k :: k in attributes && (name == "" || k == name) ==>
        attributes[k].modifiers == OtherSources(old(attributes[k].modifiers), source)
    {
      if name == "" {
        ClearSourceEverywhere(source, now);
      } else if name in attributes {
        ClearSource(attributes[name], source, now);
      }
    }

    /** The loop of a removal by source over every attribute. */
    method ClearSourceEverywhere(source: string, now: real)
      requires Valid()
      modifies attributes.Values
      ensures Valid()
      ensures EveryInstance(st => SourceCleared(st, source, now))
      ensures forall k :: k in attributes ==> attributes[k].modifiers == OtherSources(old(attributes[k].modifiers), source)
    {
      var keys := attributes.Keys;
      ghost var done: set<string> := {};
      while keys != {}
        invariant keys + done == attributes.Keys && keys !! done
        invariant Valid()
        invariant forall k :: k in attributes ==>
          attributes[k].Snapshot() == if k in done then SourceCleared(old(attributes[k].Snapshot()), source, now) else old(attributes[k].Snapshot())
        decreases keys
      {
        var k :| k in keys;
        ClearSource(attributes[k], source, now);
        keys := keys - {k};
        done := done + {k};
      }
      forall k | k in attributes
        ensures attributes[k].modifiers == OtherSources(old(attributes[k].modifiers), source)
      {
        ClearSourceKeepsOthers(old(attributes[k].Snapshot()), source, now);
      }
    }
  }
}
