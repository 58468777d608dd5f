/** An attribute instance: a base value and the list of modifiers it owns.
    It adds, removes and evicts modifiers in place and computes its current
    value with the aggregation formula. Each modifier of the list is held as
    its state. OnValueChanged is the log `notifications` of the values it was
    invoked with; the OnExpired subscriptions of the instance are the set
    `subscribed` of modifier IDs. */
module Instance {
  import opened Types
  import opened Modifiers
  import opened Aggregation

  // ----- Lists of modifiers, by ID -----

  /** No two modifiers of `s` share an ID. */
  ghost predicate UniqueIds(s: seq<ModifierState>) {
    forall i, j :: 0 <= i < j < |s| ==> s[i].id != s[j].id
  }

  /** The IDs of the modifiers of `s`. */
  function IdsOf(s: seq<ModifierState>): (r: set<string>)
    ensures forall id :: id in r <==> exists j :: 0 <= j < |s| && s[j].id == id
  {
    if s == [] then {} else IdsOf(s[..|s| - 1]) + {s[|s| - 1].id}
  }

  /** The position of the first modifier with ID `id`, or |s| when there is none. */
  function FirstWithId(s: seq<ModifierState>, id: string): (k: nat)
    ensures k <= |s|
    ensures forall j :: 0 <= j < k ==> s[j].id != id
    ensures k < |s| ==> s[k].id == id
  {
    if s == [] then 0
    else if s[0].id == id then 0
    else 1 + FirstWithId(s[1..], id)
  }

  predicate HasId(s: seq<ModifierState>, id: string) {
    FirstWithId(s, id) < |s|
  }

  /** The list without its first modifier of ID `id` (the list itself when there is none). */
  function RemoveFirstId(s: seq<ModifierState>, id: string): seq<ModifierState> {
    var k := FirstWithId(s, id);
    if k < |s| then s[..k] + s[k + 1..] else s
  }

  /** The position of the first live modifier with ID `id`, or |s| when there is none. */
  function FirstLiveWithId(s: seq<ModifierState>, id: string): (k: nat)
    ensures k <= |s|
    ensures forall j :: 0 <= j < k ==> !(s[j].id == id && Live(s[j]))
    ensures k < |s| ==> s[k].id == id && Live(s[k])
  {
    if s == [] then 0
    else if s[0].id == id && Live(s[0]) then 0
    else 1 + FirstLiveWithId(s[1..], id)
  }

  /** The values OnModifierExpired notifies while a tick at `now` walks the
      list `s` from its end down to position `i`, with subscriptions `subs`
      when the walk starts: each modifier that expires and is still
      subscribed notifies the value of the list as it is at that moment,
      its own state ticked and everything after it already evicted. */
  function TickNotices(base: real, s: seq<ModifierState>, i: nat, subs: set<string>, now: real): seq<real>
    requires i <= |s|
    decreases |s| - i
  {
    if i == |s| then []
    else
      var notice := if ExpiresAt(s[i], now) && s[i].id in subs - FiredIds(s[i + 1..], now)
                    then [ValueOf(base, s[..i] + [Ticked(s[i], now)] + AfterTick(s[i + 1..], now), now)]
                    else [];
      TickNotices(base, s, i + 1, subs, now) + notice
  }

  // ----- The whole state of an instance and its transitions -----

  /** What an instance holds besides its type. */
  datatype InstanceState = InstanceState(
    baseValue: real,
    modifiers: seq<ModifierState>,
    subscribed: set<string>,
    notifications: seq<real>)

  /** RemoveModifier: the first modifier with the ID leaves the list, is
      unsubscribed, and the new value is notified; no match changes nothing. */
  function Removed(st: InstanceState, id: string, now: real): InstanceState {
    if HasId(st.modifiers, id) then
      var rest := RemoveFirstId(st.modifiers, id);
      InstanceState(st.baseValue, rest, st.subscribed - {id}, st.notifications + [ValueOf(st.baseValue, rest, now)])
    else st
  }

  /** AddModifier: a removal of the ID first, then the modifier is
      subscribed, appended, activated, and the value notified. */
  function Added(st: InstanceState, m: Option<ModifierState>, now: real): InstanceState {
    if m.None? then st
    else
      var r := Removed(st, m.value.id, now);
      var mods := r.modifiers + [Activated(m.value, now)];
      InstanceState(r.baseValue, mods, r.subscribed + {m.value.id}, r.notifications + [ValueOf(r.baseValue, mods, now)])
  }

  /** ClearAllModifiers: every listed modifier is unsubscribed, the list
      emptied and the value, now the base, notified. */
  function Cleared(st: InstanceState): InstanceState {
    InstanceState(st.baseValue, [], st.subscribed - IdsOf(st.modifiers), st.notifications + [st.baseValue])
  }

  /** SetBaseValue: the base changes and the new value is notified. */
  function Rebased(st: InstanceState, v: real, now: real): InstanceState {
    st.(baseValue := v, notifications := st.notifications + [ValueOf(v, st.modifiers, now)])
  }

  /** Update: the tick of the list with the handler's notices, then the
      value if it moved by more than the epsilon. */
  function Tick(st: InstanceState, now: real): InstanceState {
    var mods := AfterTick(st.modifiers, now);
    var before := ValueOf(st.baseValue, st.modifiers, now);
    var after := ValueOf(st.baseValue, mods, now);
    InstanceState(st.baseValue, mods, st.subscribed - FiredIds(st.modifiers, now),
      st.notifications + TickNotices(st.baseValue, st.modifiers, 0, st.subscribed, now)
        + (if Abs(before - after) > Epsilon then [after] else []))
  }

  // ----- Lemmas about the list functions -----

  /** HasId is exactly "some modifier carries the ID". */
  lemma HasIdIff(s: seq<ModifierState>, id: string)
    ensures HasId(s, id) <==> exists j :: 0 <= j < |s| && s[j].id == id
  {
    if !HasId(s, id) {
      assert forall j :: 0 <= j < |s| ==> s[j].id != id;
    }
  }

  /** A position holding the ID with none before it is the first position of the ID. */
  lemma FirstWithIdAt(s: seq<ModifierState>, id: string, i: int)
    requires 0 <= i <= |s|
    requires forall j :: 0 <= j < i ==> s[j].id != id
    requires i < |s| ==> s[i].id == id
    ensures FirstWithId(s, id) == i
  {
  }

  /** With unique IDs, removing by ID leaves none with that ID and keeps IDs unique. */
  lemma RemoveFirstIdUnique(s: seq<ModifierState>, id: string)
    requires UniqueIds(s)
    ensures !HasId(RemoveFirstId(s, id), id)
    ensures UniqueIds(RemoveFirstId(s, id))
  {
    var k := FirstWithId(s, id);
    var r := RemoveFirstId(s, id);
    if k < |s| {
      assert forall j :: 0 <= j < |r| ==> r[j] == (if j < k then s[j] else s[j + 1]);
      assert forall j :: 0 <= j < |r| ==> r[j].id != id;
    }
    HasIdIff(r, id);
  }

  /** Appending a modifier whose ID is new keeps IDs unique. */
  lemma AppendUnique(s: seq<ModifierState>, x: ModifierState)
    requires UniqueIds(s) && !HasId(s, x.id)
    ensures UniqueIds(s + [x])
  {
    HasIdIff(s, x.id);
    assert forall j :: 0 <= j < |s| ==> (s + [x])[j] == s[j];
  }

  /** With unique IDs, an add leaves exactly one modifier with the ID, the
      new one, activated, at the end; IDs stay unique. */
  lemma AddedIsOnlyOne(st: InstanceState, m: ModifierState, now: real)
    requires UniqueIds(st.modifiers)
    ensures var mods := Added(st, Some(m), now).modifiers;
      && UniqueIds(mods) && |mods| > 0 && mods[|mods| - 1] == Activated(m, now)
      && forall j :: 0 <= j < |mods| && mods[j].id == m.id ==> j == |mods| - 1
  {
    var rest := RemoveFirstId(st.modifiers, m.id);
    RemoveFirstIdUnique(st.modifiers, m.id);
    assert Removed(st, m.id, now).modifiers == rest;
    AppendUnique(rest, Activated(m, now));
  }

  /** Removing the ID just added undoes the add on the list: what is left is
      the old list without its modifier of that ID, if it had one. */
  lemma AddThenRemove(st: InstanceState, m: ModifierState, now: real)
    requires UniqueIds(st.modifiers)
    ensures Removed(Added(st, Some(m), now), m.id, now).modifiers == RemoveFirstId(st.modifiers, m.id)
    ensures !HasId(st.modifiers, m.id) ==> Removed(Added(st, Some(m), now), m.id, now).modifiers == st.modifiers
  {
    var rest := RemoveFirstId(st.modifiers, m.id);
    RemoveFirstIdUnique(st.modifiers, m.id);
    assert Removed(st, m.id, now).modifiers == rest;
    var mods := rest + [Activated(m, now)];
    HasIdIff(rest, m.id);
    FirstWithIdAt(mods, m.id, |rest|);
    assert mods[..|rest|] == rest;
  }

  /** Adding a second modifier with the ID of the one just added replaces
      it: the list is the old one without that ID, then the second modifier. */
  lemma SameIdReplaces(st: InstanceState, m1: ModifierState, m2: ModifierState, now1: real, now2: real)
    requires UniqueIds(st.modifiers) && m1.id == m2.id
    ensures Added(Added(st, Some(m1), now1), Some(m2), now2).modifiers
      == RemoveFirstId(st.modifiers, m1.id) + [Activated(m2, now2)]
  {
    var rest := RemoveFirstId(st.modifiers, m1.id);
    RemoveFirstIdUnique(st.modifiers, m1.id);
    assert Removed(st, m1.id, now1).modifiers == rest;
    var mods := rest + [Activated(m1, now1)];
    HasIdIff(rest, m1.id);
    FirstWithIdAt(mods, m1.id, |rest|);
    assert mods[..|rest|] == rest;
  }

  /** The IDs of a concatenation are the IDs of its parts. */
  lemma {:induction false} IdsOfConcat(a: seq<ModifierState>, b: seq<ModifierState>)
    ensures IdsOf(a + b) == IdsOf(a) + IdsOf(b)
    decreases |b|
  {
    if b == [] {
      assert a + b == a;
    } else {
      assert (a + b)[..|a + b| - 1] == a + b[..|b| - 1];
      IdsOfConcat(a, b[..|b| - 1]);
    }
  }

  /** HasId is membership in IdsOf. */
  lemma HasIdIsMember(s: seq<ModifierState>, id: string)
    ensures HasId(s, id) <==> id in IdsOf(s)
  {
    HasIdIff(s, id);
  }

  /** A tick only keeps modifiers whose ID occurs in the list. */
  lemma {:induction false} AfterTickIds(s: seq<ModifierState>, now: real)
    ensures IdsOf(AfterTick(s, now)) <= IdsOf(s)
  {
    if s != [] {
      var h := if Ticked(s[0], now).isExpired then [] else [Ticked(s[0], now)];
      AfterTickIds(s[1..], now);
      IdsOfConcat(h, AfterTick(s[1..], now));
      assert s == [s[0]] + s[1..];
      IdsOfConcat([s[0]], s[1..]);
      assert IdsOf(h) <= IdsOf([s[0]]);
    }
  }

  /** A tick only fires IDs that occur in the list. */
  lemma {:induction false} FiredIdsAmong(s: seq<ModifierState>, now: real)
    ensures FiredIds(s, now) <= IdsOf(s)
  {
    if s != [] {
      FiredIdsAmong(s[1..], now);
      assert s == [s[0]] + s[1..];
      IdsOfConcat([s[0]], s[1..]);
    }
  }

  lemma TailUnique(s: seq<ModifierState>)
    requires s != [] && UniqueIds(s)
    ensures UniqueIds(s[1..]) && !HasId(s[1..], s[0].id)
  {
    HasIdIff(s[1..], s[0].id);
  }

  lemma ConsUnique(x: ModifierState, r: seq<ModifierState>)
    requires UniqueIds(r) && !HasId(r, x.id)
    ensures UniqueIds([x] + r)
  {
    HasIdIff(r, x.id);
    var u := [x] + r;
    assert forall j :: 1 <= j < |u| ==> u[j] == r[j - 1];
  }

  /** A tick keeps IDs unique. */
  lemma {:induction false} AfterTickUnique(s: seq<ModifierState>, now: real)
    requires UniqueIds(s)
    ensures UniqueIds(AfterTick(s, now))
  {
    if s != [] {
      var t := s[1..];
      TailUnique(s);
      AfterTickUnique(t, now);
      var r := AfterTick(t, now);
      if !Ticked(s[0], now).isExpired {
        AfterTickIds(t, now);
        HasIdIsMember(t, s[0].id);
        HasIdIsMember(r, s[0].id);
        ConsUnique(Ticked(s[0], now), r);
      }
    }
  }

  /** With unique IDs, the ID of a modifier that a tick expires (or that had
      expired) is no longer held after the tick. */
  lemma EvictedIdGone(s: seq<ModifierState>, i: int, now: real)
    requires UniqueIds(s) && 0 <= i < |s|
    requires ExpiresAt(s[i], now) || s[i].isExpired
    ensures s[i].id !in IdsOf(AfterTick(s, now))
  {
    var a, b := s[..i], s[i + 1..];
    ElapsedModifierIsEvicted(s, i, now);
    AfterTickIds(a + b, now);
    IdsOfConcat(a, b);
    assert s[i].id !in IdsOf(a) by {
      assert forall j :: 0 <= j < |a| ==> a[j] == s[j];
    }
    assert s[i].id !in IdsOf(b) by {
      assert forall j :: 0 <= j < |b| ==> b[j] == s[i + 1 + j];
    }
  }

  lemma AppendAssociates<T>(a: seq<T>, b: seq<T>, c: seq<T>)
    ensures a + (b + c) == (a + b) + c
  {
  }

  /** Taking away the IDs fired at one more step of a tick. */
  lemma FiredStep(subs: set<string>, fired: set<string>, id: string, raised: bool)
    ensures subs - ((if raised then {id} else {}) + fired)
      == (if raised && id in subs - fired then (subs - fired) - {id} else subs - fired)
  {
  }

  /** One step of the backward walk of a tick: the suffix from `i` is the
      modifier at `i` followed by the suffix after it. */
  lemma TickStep(s: seq<ModifierState>, i: int, now: real)
    requires 0 <= i < |s|
    ensures AfterTick(s[i..], now) == (if Ticked(s[i], now).isExpired then [] else [Ticked(s[i], now)]) + AfterTick(s[i + 1..], now)
    ensures FiredIds(s[i..], now) == (if ExpiresAt(s[i], now) then {s[i].id} else {}) + FiredIds(s[i + 1..], now)
  {
    assert s[i..][1..] == s[i + 1..];
  }

  /** One step of the backward walk of a tick over `s`: when the list holds
      the untouched prefix up to `i` followed by the ticked suffix after it,
      ticking position `i` in place and dropping it if expired gives the
      untouched prefix before `i` followed by the ticked suffix from `i`. */
  lemma WalkStep(s: seq<ModifierState>, i: int, now: real, cur: seq<ModifierState>)
    requires 0 <= i < |s|
    requires cur == s[..i + 1] + AfterTick(s[i + 1..], now)
    ensures i < |cur| && cur[i] == s[i]
    ensures cur[i := Ticked(s[i], now)] == s[..i] + [Ticked(s[i], now)] + AfterTick(s[i + 1..], now)
    ensures Ticked(s[i], now).isExpired ==>
      cur[i := Ticked(s[i], now)][..i] + cur[i := Ticked(s[i], now)][i + 1..] == s[..i] + AfterTick(s[i..], now)
    ensures !Ticked(s[i], now).isExpired ==> cur[i := Ticked(s[i], now)] == s[..i] + AfterTick(s[i..], now)
  {
    var t := Ticked(s[i], now);
    var tail := AfterTick(s[i + 1..], now);
    TickStep(s, i, now);
    assert s[..i + 1] == s[..i] + [s[i]];
    ReplaceAt(s[..i], s[i], t, tail);
    if t.isExpired {
      DropAt(s[..i], t, tail);
    } else {
      assert [t] + tail == AfterTick(s[i..], now);
      AppendAssociates(s[..i], [t], tail);
    }
  }

  /** Replacing the element between a prefix and a suffix. */
  lemma ReplaceAt<T>(p: seq<T>, x: T, y: T, tail: seq<T>)
    ensures |p| < |p + [x] + tail| && (p + [x] + tail)[|p|] == x
    ensures (p + [x] + tail)[|p| := y] == p + [y] + tail
  {
    var u := (p + [x] + tail)[|p| := y];
    assert forall j :: 0 <= j < |u| ==> u[j] == (p + [y] + tail)[j];
  }

  /** Dropping the element between a prefix and a suffix. */
  lemma DropAt<T>(p: seq<T>, y: T, tail: seq<T>)
    ensures (p + [y] + tail)[..|p|] + (p + [y] + tail)[|p| + 1..] == p + tail
  {
    var u := p + [y] + tail;
    assert u[..|p|] == p;
    assert u[|p| + 1..] == tail;
  }

  /** The three passes of the formula over modifiers already filtered and
      ordered: flat sum, percentage sum taken against the base, multipliers;
      `v` gives each modifier its current contribution. */
  method Evaluate(base: real, active: seq<ModifierState>, v: Valuation) returns (result: real)
    ensures result == Aggregate(base, active, v)
  {
    var flat := SumOfKind(active, Flat, v);
    result := base + flat;
    var totalPercentageAdd := SumOfKind(active, PercentageAdd, v);
    if totalPercentageAdd != 0.0 {
      result := result + base * (totalPercentageAdd / 100.0);
    }
    ghost var x := result;
    assert x == base + KindTotal(active, Flat, v) + PercentTerm(base, KindTotal(active, PercentageAdd, v));
    var i := 0;
    while i < |active|
      invariant 0 <= i <= |active|
      invariant result == Compounded(x, active[..i], v)
    {
      assert active[..i + 1] == active[..i] + [active[i]];
      if active[i].kind == PercentageMultiply {
        var multiplier := 1.0 + v(active[i]) / 100.0;
        CompoundedStep(x, active[..i], active[i], v, result, multiplier);
        result := result * multiplier;
      } else {
        CompoundedStep(x, active[..i], active[i], v, result, Factor(active[i], v));
      }
      i := i + 1;
    }
    assert active[..i] == active;
  }

  /** A summing pass of the formula: the contributions of the modifiers of
      one kind, in list order. */
  method SumOfKind(active: seq<ModifierState>, kind: ModifierType, v: Valuation) returns (total: real)
    ensures total == KindTotal(active, kind, v)
  {
    total := 0.0;
    var i := 0;
    while i < |active|
      invariant 0 <= i <= |active|
      invariant total == KindTotal(active[..i], kind, v)
    {
      assert active[..i + 1] == active[..i] + [active[i]];
      KindTotalAppend(active[..i], active[i], kind, v);
      if active[i].kind == kind {
        total := total + v(active[i]);
      }
      i := i + 1;
    }
    assert active[..i] == active;
  }

  /** The search loop of a removal: the position of the first modifier
      with the ID, or |s| when there is none. */
  method FindId(s: seq<ModifierState>, id: string) returns (i: nat)
    ensures i == FirstWithId(s, id)
  {
    i := 0;
    while i < |s| && s[i].id != id
      invariant i <= |s|
      invariant forall j :: 0 <= j < i ==> s[j].id != id
    {
      i := i + 1;
    }
    FirstWithIdAt(s, id, i);
  }

  /** A removal that finds the ID at position `i`. */
  lemma RemovedAt(st: InstanceState, id: string, i: nat, now: real)
    requires i == FirstWithId(st.modifiers, id) < |st.modifiers|
    ensures var rest := st.modifiers[..i] + st.modifiers[i + 1..];
      Removed(st, id, now) == InstanceState(st.baseValue, rest, st.subscribed - {id}, st.notifications + [ValueOf(st.baseValue, rest, now)])
  {
  }

  /** A modifier appended to a list without its ID is the only one with
      that ID, and the list then holds a live modifier with that ID
      exactly when the appended one is live. */
  lemma AppendedIsLast(rest: seq<ModifierState>, x: ModifierState)
    requires UniqueIds(rest) && !HasId(rest, x.id)
    ensures UniqueIds(rest + [x])
    ensures FirstWithId(rest + [x], x.id) == |rest|
    ensures (exists i :: 0 <= i < |rest + [x]| && (rest + [x])[i].id == x.id && Live((rest + [x])[i])) <==> Live(x)
  {
    AppendUnique(rest, x);
    HasIdIff(rest, x.id);
    FirstWithIdAt(rest + [x], x.id, |rest|);
    var s := rest + [x];
    assert forall j :: 0 <= j < |rest| ==> s[j] == rest[j];
    assert s[|rest|] == x;
  }

  /** An attribute's runtime state: a type, a base value and its modifiers. */
  class ModifiableAttributeInstance {
    const attrType: AttributeType
    var baseValue: real
    var modifiers: seq<ModifierState>
    /** IDs of the modifiers whose OnExpired this instance is subscribed to. */
    var subscribed: set<string>
    /** The values OnValueChanged was invoked with, oldest first. */
    var notifications: seq<real>

    /** The class invariant: modifier IDs are unique. */
    ghost predicate Valid()
      reads this`modifiers
    {
      UniqueIds(modifiers)
    }

    function Snapshot(): InstanceState
      reads this`baseValue, this`modifiers, this`subscribed, this`notifications
    {
      InstanceState(baseValue, modifiers, subscribed, notifications)
    }

    /** The CurrentValue property as a function of the clock. */
    function CurrentValue(now: real): real
      reads this`baseValue, this`modifiers
    {
      ValueOf(baseValue, modifiers, now)
    }

    constructor (attrType: AttributeType, baseValue: real)
      ensures Valid()
      ensures this.attrType == attrType && this.baseValue == baseValue
      ensures modifiers == [] && subscribed == {} && notifications == []
    {
      this.attrType := attrType;
      this.baseValue := baseValue;
      modifiers := [];
      subscribed := {};
      notifications := [];
    }

    /** The value computed from the base and the live modifiers in stable
        priority order. */
    method CalculateCurrentValue(now: real) returns (result: real)
      ensures result == CurrentValue(now)
    {
      var active := SortByPriority(LiveOnly(modifiers));
      result := Evaluate(baseValue, active, ValuedAt(now));
    }

    /** Whether an active, unexpired modifier carries the ID. */
    function HasModifier(id: string): (b: bool)
      reads this`modifiers
      ensures b <==> exists i :: 0 <= i < |modifiers| && modifiers[i].id == id && Live(modifiers[i])
    {
      FirstLiveWithId(modifiers, id) < |modifiers|
    }

    /** The first active, unexpired modifier with the ID, if any; with
        unique IDs it is the only modifier with that ID. */
    function GetModifier(id: string): (r: Option<ModifierState>)
      reads this`modifiers
      ensures r.Some? <==> HasModifier(id)
      ensures r.Some? ==> r.value in modifiers && r.value.id == id && Live(r.value)
      ensures r.Some? && Valid() ==> forall i :: 0 <= i < |modifiers| && modifiers[i].id == id ==> modifiers[i] == r.value
    {
      var k := FirstLiveWithId(modifiers, id);
      if k < |modifiers| then Some(modifiers[k]) else None
    }

    /** Removes the first modifier with the ID; on success unsubscribes it
        and notifies the new value, otherwise changes nothing. */
    method RemoveModifier(id: string, now: real) returns (found: bool)
      modifies this
      ensures found == HasId(old(modifiers), id)
      ensures Snapshot() == Removed(old(Snapshot()), id, now)
      ensures old(Valid()) ==> Valid() && !HasId(modifiers, id)
    {
      ghost var st := Snapshot();
      var i := FindId(modifiers, id);
      if i == |modifiers| {
        return false;
      }
      if UniqueIds(modifiers) {
        RemoveFirstIdUnique(modifiers, id);
      }
      subscribed := subscribed - {id};
      modifiers := modifiers[..i] + modifiers[i + 1..];
      var value := CalculateCurrentValue(now);
      notifications := notifications + [value];
      RemovedAt(st, id, i, now);
      return true;
    }

    /** Adds a modifier: any modifier with the same ID is removed first, then
        it is subscribed, appended and activated, and the value notified.
        A null modifier (None) changes nothing. */
    method AddModifier(m: Option<ModifierState>, now: real)
      modifies this
      ensures Snapshot() == Added(old(Snapshot()), m, now)
      ensures old(Valid()) ==> Valid()
      ensures m.Some? && old(Valid()) ==> FirstWithId(modifiers, m.value.id) == |modifiers| - 1
      ensures m.Some? && old(Valid()) ==> (HasModifier(m.value.id) <==> Live(Activated(m.value, now)))
    {
      if m.None? {
        return;
      }
      var x := m.value;
      ghost var n0 := notifications;
      var removed := RemoveModifier(x.id, now);
      ghost var n1 := notifications;
      ghost var rest := modifiers;
      subscribed := subscribed + {x.id};
      modifiers := modifiers + [Activated(x, now)];
      var value := CalculateCurrentValue(now);
      notifications := notifications + [value];
      if old(Valid()) {
        AppendedIsLast(rest, Activated(x, now));
      }
    }

    /** Unsubscribes every modifier, empties the list and notifies the
        value, which is then the base value. */
    method ClearAllModifiers(now: real)
      modifies this
      ensures Valid()
      ensures Snapshot() == Cleared(old(Snapshot()))
      ensures CurrentValue(now) == baseValue
    {
      var i := 0;
      while i < |modifiers|
        invariant 0 <= i <= |modifiers|
        invariant modifiers == old(modifiers) && notifications == old(notifications)
        invariant baseValue == old(baseValue)
        invariant subscribed == old(subscribed) - IdsOf(modifiers[..i])
      {
        assert modifiers[..i + 1][..i] == modifiers[..i];
        subscribed := subscribed - {modifiers[i].id};
        i := i + 1;
      }
      assert modifiers[..i] == modifiers;
      modifiers := [];
      NoModifiersIsBase(baseValue, now);
      var value := CalculateCurrentValue(now);
      notifications := notifications + [value];
    }

    /** Sets the base value and notifies the new value; the modifiers stay. */
    method SetBaseValue(newValue: real, now: real)
      modifies this
      ensures Snapshot() == Rebased(old(Snapshot()), newValue, now)
    {
      baseValue := newValue;
      var value := CalculateCurrentValue(now);
      notifications := notifications + [value];
    }

    /** The OnExpired handler: unsubscribes the modifier and notifies the value. */
    method OnModifierExpired(id: string, now: real)
      modifies this
      ensures subscribed == old(subscribed) - {id}
      ensures notifications == old(notifications) + [ValueOf(old(baseValue), old(modifiers), now)]
      ensures modifiers == old(modifiers) && baseValue == old(baseValue)
    {
      subscribed := subscribed - {id};
      var value := CalculateCurrentValue(now);
      notifications := notifications + [value];
    }

    /** The loop of a tick: every modifier ticks, from the last to the
        first, and the expired ones are dropped; a subscribed modifier that
        expires on this tick notifies through the handler. */
    method TickModifiers(now: real)
      modifies this
      ensures modifiers == AfterTick(old(modifiers), now)
      ensures baseValue == old(baseValue)
      ensures subscribed == old(subscribed) - FiredIds(old(modifiers), now)
      ensures notifications == old(notifications) + TickNotices(baseValue, old(modifiers), 0, old(subscribed), now)
    {
      ghost var s0 := modifiers;
      ghost var n0 := notifications;
      var i := |modifiers|;
      while i > 0
        invariant 0 <= i <= |s0|
        invariant modifiers == s0[..i] + AfterTick(s0[i..], now)
        invariant baseValue == old(baseValue)
        invariant subscribed == old(subscribed) - FiredIds(s0[i..], now)
        invariant notifications == n0 + TickNotices(baseValue, s0, i, old(subscribed), now)
      {
        i := i - 1;
        WalkStep(s0, i, now, modifiers);
        TickStep(s0, i, now);
        var m := modifiers[i];
        var ticked := Ticked(m, now);
        var raised := ExpiresAt(m, now);
        modifiers := modifiers[i := ticked];
        ghost var notice := if raised && m.id in subscribed then [ValueOf(baseValue, modifiers, now)] else [];
        ghost var earlier := TickNotices(baseValue, s0, i + 1, old(subscribed), now);
        assert TickNotices(baseValue, s0, i, old(subscribed), now) == earlier + notice;
        ghost var before := notifications;
        FiredStep(old(subscribed), FiredIds(s0[i + 1..], now), m.id, raised);
        if raised && m.id in subscribed {
          OnModifierExpired(m.id, now);
        }
        assert notifications == before + notice;
        AppendAssociates(n0, earlier, notice);
        if ticked.isExpired {
          modifiers := modifiers[..i] + modifiers[i + 1..];
        }
      }
      assert s0[..0] == [] && s0[0..] == s0;
    }

    /** One tick: the modifiers tick and the expired ones are dropped, then
        the value is notified if it moved by more than the epsilon. */
    method Update(now: real)
      modifies this
      ensures Snapshot() == Tick(old(Snapshot()), now)
      ensures old(Valid()) ==> Valid()
    {
      var previousValue := CalculateCurrentValue(now);
      ghost var s0 := modifiers;
      TickModifiers(now);
      ghost var ticks := notifications;
      var currentValue := CalculateCurrentValue(now);
      ghost var moved := if Abs(previousValue - currentValue) > Epsilon then [currentValue] else [];
      if Abs(previousValue - currentValue) > Epsilon {
        notifications := notifications + [currentValue];
      }
      assert notifications == ticks + moved;
      if UniqueIds(s0) {
        AfterTickUnique(s0, now);
      }
    }
  }
}
