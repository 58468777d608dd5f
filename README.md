# StatsForge runtime stat engine, modelled in Dafny

StatsForge gives game entities numeric attributes (health, speed, ...). Each
attribute has a base value and a list of modifiers. A modifier is flat, a
percentage added against the base, or a percentage multiplier. It is also
instant, temporary, permanent or applied over time, and it has a priority.
The effective value is computed by a fixed formula:

    (base + sum of flat + base * sum of percentage-add / 100) * product of (1 + multiplier / 100)

Only live modifiers count: those activated and not yet expired. Multipliers
are compounded in a stable ascending-priority order. Each tick, every
modifier updates, and the instance evicts the ones that expired.

Around this core sit five pieces:

- a modifier factory that issues IDs from a 32-bit counter;
- an entity that maps attribute names to instances and can remove modifiers by their source;
- an attribute set (an upsert list of base values);
- an attribute database (first-wins name lookup, sorted distinct categories);
- a plain epsilon-guarded value holder.

Modules (one file each):

| file | module | models |
|---|---|---|
| types.dfy | Types | `ModifierType`, `ModifierApplication`, `AttributeType`, the 0.0001 epsilon |
| modifier.dfy | Modifiers | `AttributeModifier`: the state machine and its value over time |
| aggregation.dfy | Aggregation | the current-value formula and the tick of a whole modifier list |
| instance.dfy | Instance | `ModifiableAttributeInstance` |
| factory.dfy | Factory | `AttributeModifierHelper` |
| entity.dfy | Entity | `EntityAttributes` |
| attribute_set.dfy | AttributeSets | `AttributeSet` |
| database.dfy | Database | `AttributeDatabase` |
| attribute_instance.dfy | PlainInstance | `AttributeInstance` |

How the model is set up:

- **The clock.** `Time.time` is the explicit parameter `now`.
- **A modifier** is the datatype `ModifierState` of all its fields.
  - The class `Modifiers.AttributeModifier` holds those fields and updates them in place.
  - Its `OnExpired` raisings are counted in `expiredEvents`.
- **An instance's modifier list** is a `seq<ModifierState>` field.
  - `OnValueChanged` is the log `notifications` of the values it was called with.
  - The instance's `OnExpired` subscriptions are the set `subscribed` of modifier IDs.
- **Instance methods** are specified by pure transitions of the whole state `InstanceState`: `Removed`, `Added`, `Cleared`, `Rebased` and `Tick`. The lemmas are proved about those transitions.
- **The entity** is a class holding a `map<string, ModifiableAttributeInstance>`. Each bulk operation states the transition every affected instance takes, and that every other instance is unchanged.
- **Floats are `real`.** The epsilon comparisons keep the source's strictness: `>` in `Update` and `Modify`, `<` in `SetValue` and `Reset`.

## Model

| member | source | states |
|---|---|---|
| Types.DefaultApplication | Runtime/AttributeModifierHelper.cs:19-24 | the factories' application is Temporary exactly when the duration is positive, otherwise Permanent |
| Types.KindName | Runtime/EntityAttributes.cs:200 | the text a modifier type formats to inside an applied ID: the enum name, non-empty and free of underscores |
| Modifiers.Live | Runtime/AttributeModifier.cs:66 | the test shared by the value, the tick and the instance's filter: active and not expired |
| Modifiers.ValueAt | Runtime/AttributeModifier.cs:64-89 | definition of a modifier's contribution at now: 0 unless live; the value for Instant, Temporary and Permanent; for OverTime with a positive duration, the value times the elapsed share clamped to [0, 1]; its properties are SteadyValue, OverTimeRamp, OverTimeBounded and OverTimeMonotone |
| Modifiers.Activated | Runtime/AttributeModifier.cs:50-62 | definition of activation: no change when already active; otherwise active with start time now, and an Instant modifier also applies its value and expires; ActivateIdempotent and ActivateKeepsShape are proved about it |
| Modifiers.ExpiresAt | Runtime/AttributeModifier.cs:91-110 | a tick expires the modifier exactly when it is live, Temporary or OverTime, has a positive duration, and now >= start + duration |
| Modifiers.Ticked | Runtime/AttributeModifier.cs:91-110 | definition of a tick: unchanged unless ExpiresAt; then expired, with an OverTime modifier's applied amount pinned to its value; TickNoOp, TickExpiry and ExpiresOnce are proved about it |
| Modifiers.CreatedIsInert | Runtime/AttributeModifier.cs:36-48 | a new modifier is inactive, unexpired, has nothing applied, contributes 0 at every time and cannot be expired by a tick |
| Modifiers.ActivateIdempotent | Runtime/AttributeModifier.cs:50-55 | activating twice equals activating once; activating an active modifier changes nothing, start time included |
| Modifiers.ActivateKeepsShape | Runtime/AttributeModifier.cs:50-62 | activation records the start time and makes the modifier active; the ID, kind, value, duration and priority are unchanged |
| Modifiers.InstantActivation | Runtime/AttributeModifier.cs:57-61 | activating an Instant modifier commits its value and expires it without a tick; from then on it contributes 0 and later ticks leave it unchanged |
| Modifiers.SteadyValue | Runtime/AttributeModifier.cs:73-75 | a live Temporary or Permanent modifier contributes exactly its value |
| Modifiers.OverTimeRamp | Runtime/AttributeModifier.cs:77-84 | OverTime with no positive duration gives its value; otherwise 0 before the start, value * elapsed / duration during the ramp, and the full value after it |
| Modifiers.OverTimeBounded | Runtime/AttributeModifier.cs:77-84 | an OverTime contribution always lies between 0 and the modifier's value |
| Modifiers.OverTimeMonotone | Runtime/AttributeModifier.cs:77-84 | for a non-negative value, the OverTime contribution never decreases as time advances |
| Modifiers.TickNoOp | Runtime/AttributeModifier.cs:93-110 | a tick changes nothing and raises nothing on an inactive or expired modifier, on a Permanent or Instant one, and on one without a positive duration |
| Modifiers.TickExpiry | Runtime/AttributeModifier.cs:95-109 | a live timed modifier expires exactly when now >= start + duration; OverTime then pins the applied amount to the value, Temporary keeps it; no other field changes |
| Modifiers.ExpiresOnce | Runtime/AttributeModifier.cs:91-116 | after a modifier has expired, no later tick raises OnExpired again or changes it |
| Modifiers.Remaining | Runtime/AttributeModifier.cs:31 | time left before expiry: never negative, 0 without a positive duration or once past the end, otherwise the time up to start + duration |
| Modifiers.Clamp01 | Runtime/AttributeModifier.cs:81 | the clamp lands in [0, 1] and is the identity there |
| Modifiers.AttributeModifier.constructor | Runtime/AttributeModifier.cs:36-48 | the object starts in the Created state with no expiry raised |
| Modifiers.AttributeModifier.Activate | Runtime/AttributeModifier.cs:50-62 | the new state is the activation of the old one; it raises no OnExpired, even for Instant |
| Modifiers.AttributeModifier.GetCurrentValue | Runtime/AttributeModifier.cs:64-89 | the contribution ValueAt of the object's fields at now; 0 whenever the object is inactive or expired |
| Modifiers.AttributeModifier.RemainingTime | Runtime/AttributeModifier.cs:31 | the Remaining time of the object's fields: never negative, and 0 without a positive duration |
| Modifiers.AttributeModifier.Update | Runtime/AttributeModifier.cs:91-110 | the new state is the old one ticked; it reports and raises OnExpired exactly when the tick expires the modifier |
| Modifiers.AttributeModifier.ForceExpire | Runtime/AttributeModifier.cs:112-121 | marks the modifier expired, changes no other field, and always raises OnExpired once |
| Aggregation.SortByPriority | Runtime/ModifiableAttributeInstance.cs:52 | definition of the ordering: each modifier is inserted after every earlier one of no higher priority; SortIsSorted, SortIsStable and SortPermutes show it is a stable sort by ascending priority |
| Aggregation.SortIsSorted | Runtime/ModifiableAttributeInstance.cs:72-73 | ordering by priority yields a list sorted by ascending priority, of the same length |
| Aggregation.SortIsStable | Runtime/ModifiableAttributeInstance.cs:72-73 | modifiers of equal priority keep their relative list order (a stable OrderBy) |
| Aggregation.SortPermutes | Runtime/ModifiableAttributeInstance.cs:72-73 | ordering by priority is a permutation of the list |
| Aggregation.InsertSorted | Runtime/ModifiableAttributeInstance.cs:72-73 | inserting after every element of no higher priority keeps a sorted list sorted |
| Aggregation.FoldSort | Runtime/ModifiableAttributeInstance.cs:55-76 | any fold with an order-insensitive operation has the same result on the list and on its priority order |
| Aggregation.FoldLive | Runtime/ModifiableAttributeInstance.cs:51-53 | dropping modifiers that are not live leaves a fold unchanged when those contribute the operation's neutral value |
| Aggregation.SortKeepsKindTotal | Runtime/ModifiableAttributeInstance.cs:55-66 | the flat and percentage sums do not depend on the priority order |
| Aggregation.LiveKeepsKindTotal | Runtime/ModifiableAttributeInstance.cs:51-66 | modifiers that are not live add nothing to any sum |
| Aggregation.SortKeepsProduct | Runtime/ModifiableAttributeInstance.cs:72-76 | the product of multiplier factors does not depend on the order |
| Aggregation.LiveKeepsProduct | Runtime/ModifiableAttributeInstance.cs:51-53 | modifiers that are not live contribute factor 1 to the product |
| Aggregation.CompoundedIsProduct | Runtime/ModifiableAttributeInstance.cs:72-76 | compounding step by step multiplies the running value by the product of 1 + m/100 over the multipliers |
| Aggregation.AggregateOf | Runtime/ModifiableAttributeInstance.cs:49-79 | definition of the current value under a valuation: the three steps applied to the live modifiers in priority order; AggregateFormula gives its closed form |
| Aggregation.ValueOf | Runtime/ModifiableAttributeInstance.cs:49-79 | the current value at now: AggregateOf with every modifier valued by its contribution at now |
| Aggregation.AggregateFormula | Runtime/ModifiableAttributeInstance.cs:49-79 | the current value equals the closed form (base + Σflat + base·Σpct/100) · Π(1 + m/100) over the live modifiers of the unordered list |
| Aggregation.OrderedFormula | Runtime/ModifiableAttributeInstance.cs:55-76 | the formula reads only the sums and the product: lists that agree on them give the same value whatever their order |
| Aggregation.PercentTermIsShare | Runtime/ModifiableAttributeInstance.cs:67-70 | the zero shortcut of the percentage step is the plain share of the base in exact arithmetic |
| Aggregation.NoModifiersIsBase | Runtime/ModifiableAttributeInstance.cs:49-55 | with no modifiers the current value is the base value |
| Aggregation.NothingLiveIsBase | Runtime/ModifiableAttributeInstance.cs:49-55 | with no live modifier the current value is the base value |
| Aggregation.InertModifierChangesNothing | Runtime/ModifiableAttributeInstance.cs:51-53 | inserting a modifier that is not live anywhere in the list leaves the value unchanged |
| Aggregation.PercentagesAddToBase | Runtime/ModifiableAttributeInstance.cs:61-70 | two percentage-add modifiers add their percentages against the base, not against each other |
| Aggregation.MultipliersCompound | Runtime/ModifiableAttributeInstance.cs:72-76 | two multipliers compound: base · (1 + a/100) · (1 + b/100) |
| Aggregation.FlatAddsItsValue | Runtime/ModifiableAttributeInstance.cs:55-60 | without multipliers, adding a live permanent flat modifier raises the value by exactly its value |
| Aggregation.WorkedScenario | Runtime/ModifiableAttributeInstance.cs:49-79 | base 100 with +10 flat, +20 %, ×50 %: values 110, 130, 195, and 180 without the flat |
| Aggregation.AfterTick | Runtime/ModifiableAttributeInstance.cs:32-41 | the list after every modifier has ticked and the expired ones are removed: never longer than before, and holding no expired modifier |
| Aggregation.FiredIds | Runtime/ModifiableAttributeInstance.cs:32-41 | holds an ID exactly when some listed modifier with that ID expires at this tick |
| Aggregation.AfterTickConcat | Runtime/ModifiableAttributeInstance.cs:32-41 | the tick of a list is the tick of each part, order kept |
| Aggregation.ElapsedModifierIsEvicted | Runtime/ModifiableAttributeInstance.cs:32-41 | a modifier that the tick expires (or that had expired) is dropped: the list ticks exactly as the list without it, so it no longer contributes to any value; the list gets shorter and no expired modifier remains |
| Aggregation.AfterTickIdempotent | Runtime/ModifiableAttributeInstance.cs:28-46 | a second tick at the same time changes the list no further |
| Instance.Removed | Runtime/ModifiableAttributeInstance.cs:94-107 | definition of RemoveModifier on the whole state: the first modifier with the ID leaves and is unsubscribed, and the new value is notified; an unknown ID changes nothing |
| Instance.Added | Runtime/ModifiableAttributeInstance.cs:81-92 | definition of AddModifier: null changes nothing; otherwise the removal of that ID, then the modifier is subscribed, appended, activated and the value notified |
| Instance.Cleared | Runtime/ModifiableAttributeInstance.cs:119-127 | definition of ClearAllModifiers: listed modifiers unsubscribed, the list emptied, the base value notified |
| Instance.Rebased | Runtime/ModifiableAttributeInstance.cs:129-133 | definition of SetBaseValue: the new base, and the value it gives notified |
| Instance.TickNotices | Runtime/ModifiableAttributeInstance.cs:32-41 | the values OnModifierExpired notifies during the backward loop: one per subscribed modifier that expires, valued on the list as it stands at that moment |
| Instance.Tick | Runtime/ModifiableAttributeInstance.cs:28-47 | definition of Update: the ticked list, the fired IDs unsubscribed, the expiry notices, and one more notification only when the value moved by more than 0.0001 |
| Instance.AddedIsOnlyOne | Runtime/ModifiableAttributeInstance.cs:81-92 | after adding, exactly one modifier carries the ID: the activated new one, at the end; the others keep their order; IDs stay unique |
| Instance.AddThenRemove | Runtime/ModifiableAttributeInstance.cs:81-107 | removing the ID just added leaves the old list minus that ID, or the old list itself when the ID was new |
| Instance.SameIdReplaces | Runtime/ModifiableAttributeInstance.cs:81-92 | adding two modifiers with the same ID leaves the old list minus that ID, followed only by the second one, activated |
| Instance.RemoveFirstIdUnique | Runtime/ModifiableAttributeInstance.cs:94-107 | with unique IDs, a removal leaves no modifier with that ID and keeps IDs unique |
| Instance.HasIdIff | Runtime/ModifiableAttributeInstance.cs:96-104 | the removal's search finds the ID exactly when some modifier carries it |
| Instance.AfterTickUnique | Runtime/ModifiableAttributeInstance.cs:32-41 | eviction keeps IDs unique |
| Instance.EvictedIdGone | Runtime/ModifiableAttributeInstance.cs:32-41 | with unique IDs, the ID of a modifier that the tick expires (or that had expired) is no longer held by the instance |
| Instance.AfterTickIds | Runtime/ModifiableAttributeInstance.cs:32-41 | a tick introduces no new ID |
| Instance.FiredIdsAmong | Runtime/ModifiableAttributeInstance.cs:135-139 | only modifiers of the list can fire and be unsubscribed by a tick |
| Instance.Evaluate | Runtime/ModifiableAttributeInstance.cs:55-78 | the three summing and compounding loops compute the formula over the ordered live list |
| Instance.SumOfKind | Runtime/ModifiableAttributeInstance.cs:55-66 | the summing loop computes the total of one kind |
| Instance.FindId | Runtime/ModifiableAttributeInstance.cs:96-98 | the index loop stops at the first modifier with the ID, or at the end |
| Instance.ModifiableAttributeInstance.constructor | Runtime/ModifiableAttributeInstance.cs:22-26 | a new instance has its type and base, no modifiers, subscriptions or notifications |
| Instance.ModifiableAttributeInstance.CurrentValue | Runtime/ModifiableAttributeInstance.cs:17 | the CurrentValue property: ValueOf the base and list at now |
| Instance.ModifiableAttributeInstance.CalculateCurrentValue | Runtime/ModifiableAttributeInstance.cs:49-79 | returns the aggregate of the live modifiers in priority order |
| Instance.ModifiableAttributeInstance.HasModifier | Runtime/ModifiableAttributeInstance.cs:109-112 | true exactly when some live modifier carries the ID |
| Instance.ModifiableAttributeInstance.GetModifier | Runtime/ModifiableAttributeInstance.cs:114-117 | returns a live modifier with the ID exactly when HasModifier holds; with unique IDs it is the only one with that ID |
| Instance.ModifiableAttributeInstance.RemoveModifier | Runtime/ModifiableAttributeInstance.cs:94-107 | returns whether the ID was present; the new state is the Removed transition (the entry leaves, the rest stay in order, unsubscribed, one notification; nothing changes on false); the ID is then absent |
| Instance.ModifiableAttributeInstance.AddModifier | Runtime/ModifiableAttributeInstance.cs:81-92 | None changes nothing; otherwise the Added transition; IDs stay unique, the new one is last and is reported exactly when live after activation |
| Instance.ModifiableAttributeInstance.ClearAllModifiers | Runtime/ModifiableAttributeInstance.cs:119-127 | the list is emptied, its modifiers unsubscribed, the base notified, and the current value is the base |
| Instance.ModifiableAttributeInstance.SetBaseValue | Runtime/ModifiableAttributeInstance.cs:129-133 | only the base changes; the list is untouched and the new value is notified |
| Instance.ModifiableAttributeInstance.OnModifierExpired | Runtime/ModifiableAttributeInstance.cs:135-139 | unsubscribes the modifier and notifies the current value; nothing else changes |
| Instance.ModifiableAttributeInstance.TickModifiers | Runtime/ModifiableAttributeInstance.cs:32-41 | the backward loop leaves exactly the non-expired ticked modifiers in original order, unsubscribes the fired ones, and logs each subscribed expiry's value |
| Instance.ModifiableAttributeInstance.Update | Runtime/ModifiableAttributeInstance.cs:28-47 | the Tick transition: TickModifiers, then a notification only when the value moved by more than 0.0001; IDs stay unique |
| Factory.Increment | Runtime/AttributeModifierHelper.cs:11 | the counter's ++ adds one and wraps from the largest int to the smallest |
| Factory.Advanced | Runtime/AttributeModifierHelper.cs:9-12 | the counter after k generated IDs, always within int range; AdvancedCounts and CounterWraps are proved about it |
| Factory.AdvancedCounts | Runtime/AttributeModifierHelper.cs:9-12 | before it reaches the largest int, k calls advance the counter by exactly k |
| Factory.CounterValuesDistinct | Runtime/AttributeModifierHelper.cs:9-12 | before wrap-around no two calls see the same counter value |
| Factory.CounterWraps | Runtime/AttributeModifierHelper.cs:11 | after 2^31 generated IDs the counter is the smallest int |
| Factory.NatText | Runtime/AttributeModifierHelper.cs:11 | decimal text: at least one digit, all digits, one digit exactly below 10 |
| Factory.IntText | Runtime/AttributeModifierHelper.cs:11 | an int's text has no underscore and starts with '-' exactly when negative |
| Factory.NatTextInjective | Runtime/AttributeModifierHelper.cs:11 | different numbers have different decimal texts |
| Factory.IntTextInjective | Runtime/AttributeModifierHelper.cs:11 | different ints have different texts |
| Factory.SplitAtUnderscore | Runtime/AttributeModifierHelper.cs:11 | an underscore-free prefix is recovered from prefix_rest |
| Factory.IdText | Runtime/AttributeModifierHelper.cs:11 | the text prefix_counter_time of a generated ID |
| Factory.GeneratedIdsDistinct | Runtime/AttributeModifierHelper.cs:11 | IDs prefix_n_time with underscore-free prefixes and times differ whenever the prefix or counter value differs, whatever the time |
| Factory.CounterAfter | Runtime/AttributeModifierHelper.cs:9-22 | a custom ID leaves the counter; a generated one consumes exactly one value |
| Factory.ChosenId | Runtime/AttributeModifierHelper.cs:22 | customId ?? generated: the custom ID verbatim when given, else the generated text |
| Factory.Create | Runtime/AttributeModifierHelper.cs:14-17 | the modifier has every given field, is fresh, and keeps the given priority; source "Unknown", duration 0 and priority 0 by default |
| Factory.ByDuration | Runtime/AttributeModifierHelper.cs:19-38 | a fresh modifier of the given kind, Temporary exactly when the duration is positive, else Permanent, priority 0 |
| Factory.Buff | Runtime/AttributeModifierHelper.cs:64-70 | the stored value is the magnitude, never negative, equal to the input when that is non-negative |
| Factory.Debuff | Runtime/AttributeModifierHelper.cs:72-78 | the stored value is minus the magnitude, never positive, equal to the input when that is non-positive |
| Factory.Undated | Runtime/AttributeModifierHelper.cs:46-62 | Instant and Permanent factories: the given application, duration 0, priority 0, fresh |
| Factory.Dated | Runtime/AttributeModifierHelper.cs:40-56 | OverTime and Temporary factories: the given application, kind and duration, priority 0, fresh |
| Factory.BuffDebuffOpposite | Runtime/AttributeModifierHelper.cs:64-78 | a buff and a debuff of one magnitude carry opposite values |
| Factory.InstantIsSpentOnActivation | Runtime/AttributeModifierHelper.cs:46-50 | an Instant modifier from the factory is never live after activation and contributes 0 |
| Factory.AttributeModifierHelper.GenerateId | Runtime/AttributeModifierHelper.cs:9-12 | the ID formats the current counter value with the prefix ("mod" by default), and the counter advances by one |
| Factory.AttributeModifierHelper.IdFor | Runtime/AttributeModifierHelper.cs:17-42 | customId ?? GenerateId: the custom ID verbatim without touching the counter, else a generated one |
| Factory.AttributeModifierHelper.CreateFlat | Runtime/AttributeModifierHelper.cs:19-24 | a Flat modifier chosen by duration, with the chosen ID and counter update; source "Unknown", duration 0 and no custom ID by default |
| Factory.AttributeModifierHelper.CreatePercentage | Runtime/AttributeModifierHelper.cs:26-31 | a PercentageAdd modifier chosen by duration, with the chosen ID and counter update; source "Unknown", duration 0 and no custom ID by default |
| Factory.AttributeModifierHelper.CreateMultiplier | Runtime/AttributeModifierHelper.cs:33-38 | a PercentageMultiply modifier chosen by duration, with the chosen ID and counter update; source "Unknown", duration 0 and no custom ID by default |
| Factory.AttributeModifierHelper.CreateOverTime | Runtime/AttributeModifierHelper.cs:40-44 | an OverTime modifier of the given kind and duration; kind Flat, source "Unknown" and no custom ID by default |
| Factory.AttributeModifierHelper.CreateInstant | Runtime/AttributeModifierHelper.cs:46-50 | an Instant modifier of duration 0; kind Flat, source "Unknown" and no custom ID by default |
| Factory.AttributeModifierHelper.CreateTemporary | Runtime/AttributeModifierHelper.cs:52-56 | a Temporary modifier of the given kind and duration; kind Flat, source "Unknown" and no custom ID by default |
| Factory.AttributeModifierHelper.CreatePermanent | Runtime/AttributeModifierHelper.cs:58-62 | a Permanent modifier of duration 0; kind Flat, source "Unknown" and no custom ID by default |
| Factory.AttributeModifierHelper.CreateBuff | Runtime/AttributeModifierHelper.cs:64-70 | a buff with a non-negative value, with the chosen ID and counter update; kind Flat, source "Buff" and no custom ID by default |
| Factory.AttributeModifierHelper.CreateDebuff | Runtime/AttributeModifierHelper.cs:72-78 | a debuff with a non-positive value, with the chosen ID and counter update; kind Flat, source "Debuff" and no custom ID by default |
| Entity.Seeds | Runtime/EntityAttributes.cs:100-116 | the names seeded are exactly the names of entries with a type, each keyed by its own name |
| Entity.SeedsLastWins | Runtime/EntityAttributes.cs:106-115 | each name's seed (type and base) comes from the last entry with that name |
| Entity.SourceIds | Runtime/EntityAttributes.cs:314-319 | every collected ID belongs to a modifier with that source |
| Entity.OtherSources | Runtime/EntityAttributes.cs:308-338 | the modifiers kept are exactly those of another source |
| Entity.RemoveFirstIsFilter | Runtime/ModifiableAttributeInstance.cs:94-107 | with unique IDs, one removal by ID is the filter dropping that ID |
| Entity.RemovedAllFilters | Runtime/EntityAttributes.cs:320-321 | a sequence of removals by ID filters out exactly those IDs, keeps IDs unique and the base unchanged |
| Entity.SourceIdsFilter | Runtime/EntityAttributes.cs:314-321 | removing every collected ID leaves exactly the modifiers of other sources, in order |
| Entity.WithoutTwice | Runtime/EntityAttributes.cs:320-321 | filtering by two ID lists in turn is filtering by their concatenation |
| Entity.SourceCleared | Runtime/EntityAttributes.cs:312-322 | definition of a removal by source on one instance: RemoveModifier for each ID collected for the source, in list order |
| Entity.ClearSourceKeepsOthers | Runtime/EntityAttributes.cs:308-338 | clearing a source from an instance keeps exactly the other sources' modifiers, IDs unique, the base unchanged |
| Entity.CollectSourceIds | Runtime/EntityAttributes.cs:314-319 | the collection loop gathers the source's IDs in list order |
| Entity.RemoveEach | Runtime/EntityAttributes.cs:320-321 | the removal loop applies one RemoveModifier per collected ID |
| Entity.ClearSource | Runtime/EntityAttributes.cs:312-322 | one instance loses exactly its modifiers of that source |
| Entity.AppliedId | Runtime/EntityAttributes.cs:200 | the ID source_type_time that ApplyModifier gives the modifier it builds |
| Entity.SameFrameApplyReplaces | Runtime/EntityAttributes.cs:194-204 | two applications with one source and type at the same clock text get the same ID, so the second replaces the first |
| Entity.UnsourcedIsClearedByDefaultSource | Runtime/EntityAttributes.cs:245-249 | a modifier added without a source is listed under "Unknown", and a removal by source "Unknown" takes it away |
| Entity.EntityAttributes.constructor | Runtime/EntityAttributes.cs:13-15 | a new entity holds its set and an empty dictionary |
| Entity.EntityAttributes.InitializeAttributes | Runtime/EntityAttributes.cs:100-117 | a null set changes nothing; otherwise the dictionary is rebuilt with one fresh, empty instance per seeded name, typed and based by its last entry |
| Entity.EntityAttributes.SetAttributeSet | Runtime/EntityAttributes.cs:123-127 | installs the set and rebuilds as InitializeAttributes does |
| Entity.EntityAttributes.GetValue | Runtime/EntityAttributes.cs:138 | the named instance's current value; 0 for an unknown name |
| Entity.EntityAttributes.GetBaseValue | Runtime/EntityAttributes.cs:145 | the named instance's base; 0 for an unknown name |
| Entity.EntityAttributes.GetModifierCount | Runtime/EntityAttributes.cs:362-365 | the named instance's number of modifiers; 0 for an unknown name |
| Entity.EntityAttributes.SetValue | Runtime/EntityAttributes.cs:152-159 | only the named instance changes: cleared, then rebased; its value is then exactly the new one; an unknown name changes nothing |
| Entity.EntityAttributes.SetBaseValue | Runtime/EntityAttributes.cs:166-170 | only the named instance is rebased; its modifiers are untouched |
| Entity.EntityAttributes.ApplyModifier | Runtime/EntityAttributes.cs:194-204 | only the named instance takes the Added transition of the modifier it builds, with ID source_type_time; it is reported exactly when live; unknown names change nothing; application Permanent, duration 0, source "Unknown" and priority 0 by default |
| Entity.EntityAttributes.ApplyPrebuiltModifier | Runtime/EntityAttributes.cs:211-217 | only the named instance takes the Added transition of the given modifier |
| Entity.EntityAttributes.RemoveModifier | Runtime/EntityAttributes.cs:225-232 | true exactly when the name is known and the ID was present; only that instance takes the Removed transition |
| Entity.EntityAttributes.AddFlat | Runtime/EntityAttributes.cs:245-249 | adds a Flat modifier with ID source_Flat_time, Temporary exactly when the duration is positive; duration 0 and source "Unknown" by default |
| Entity.EntityAttributes.AddPercentage | Runtime/EntityAttributes.cs:258-262 | adds a PercentageAdd modifier with ID source_PercentageAdd_time, Temporary exactly when the duration is positive; duration 0 and source "Unknown" by default |
| Entity.EntityAttributes.AddMultiplier | Runtime/EntityAttributes.cs:271-275 | adds a PercentageMultiply modifier with ID source_PercentageMultiply_time, Temporary exactly when the duration is positive; duration 0 and source "Unknown" by default |
| Entity.EntityAttributes.ClearAllModifiers | Runtime/EntityAttributes.cs:285-301 | a named call clears only that instance; an empty name, the default, clears every instance |
| Entity.EntityAttributes.ClearModifiersBySource | Runtime/EntityAttributes.cs:308-338 | removes exactly the modifiers of the source, from the named instance or, by default, from all; every other modifier and instance stays |
| Entity.EntityAttributes.ClearSourceEverywhere | Runtime/EntityAttributes.cs:326-336 | every instance loses exactly its modifiers of that source |
| AttributeSets.FirstIndexOf | Runtime/AttributeSet.cs:23-32 | the position of the first entry of the type, or the length when none |
| AttributeSets.UpsertedFindsValue | Runtime/AttributeSet.cs:19-35 | after an upsert the type is present with the new base; an existing entry is overwritten in place (same length), a new one appended last; other entries unchanged |
| AttributeSets.UpsertedKeepsDistinct | Runtime/AttributeSet.cs:19-35 | an upsert keeps types distinct |
| AttributeSets.WithoutFirstKeepsDistinct | Runtime/AttributeSet.cs:37-49 | a removal keeps types distinct |
| AttributeSets.WithoutFirstRemovesType | Runtime/AttributeSet.cs:37-49 | with distinct types, a removed type is absent afterwards and the list is one shorter if it was present |
| AttributeSets.RemoveUndoesNewAdd | Runtime/AttributeSet.cs:19-49 | removing a type just added as new restores the list |
| AttributeSets.AttributeSet.constructor | Runtime/AttributeSet.cs:16 | a new set is empty |
| AttributeSets.AttributeSet.AddAttribute | Runtime/AttributeSet.cs:19-35 | a null type changes nothing; otherwise the list becomes the upsert; distinct types are kept |
| AttributeSets.AttributeSet.RemoveAttribute | Runtime/AttributeSet.cs:37-49 | a null type changes nothing; otherwise only the first entry of the type leaves, the rest in order |
| AttributeSets.AttributeSet.HasAttribute | Runtime/AttributeSet.cs:51-58 | true exactly when some entry has the type |
| AttributeSets.AttributeSet.GetBaseValue | Runtime/AttributeSet.cs:60-67 | the base of the first entry of the type, 0 when absent |
| Database.FirstNamedIndex | Runtime/AttributeDatabase.cs:55-68 | the position of the first present attribute with the name, or the length |
| Database.FirstNamed | Runtime/AttributeDatabase.cs:40-47 | found exactly when some present attribute has the name, and then an attribute of the list with that name |
| Database.Lookup | Runtime/AttributeDatabase.cs:55-69 | the index the rebuild leaves: every key is a non-empty name mapped to an attribute of the list with that name |
| Database.LookupAgreesWithScan | Runtime/AttributeDatabase.cs:55-68 | the lookup dictionary holds a name exactly when it is non-empty and named in the list, and maps it to the first such attribute |
| Database.CategoriesOf | Runtime/AttributeDatabase.cs:27-38 | strictly sorted, and holding exactly the categories of present attributes |
| Database.SortedUnique | Runtime/AttributeDatabase.cs:27-38 | two strictly sorted lists with the same elements are equal, so the categories are determined by the set of categories |
| Database.CategoriesOrderFree | Runtime/AttributeDatabase.cs:27-38 | lists with the same attributes in any order give the same categories |
| Database.InsertSorted | Runtime/AttributeDatabase.cs:33-36 | inserting a category keeps the list strictly sorted |
| Database.Less | Runtime/AttributeDatabase.cs:36 | ordinal order on strings; LessIrreflexive, LessAsymmetric, LessTransitive and LessTotal make it a strict total order |
| Database.LessTransitive | Runtime/AttributeDatabase.cs:36 | the category ordering is transitive |
| Database.LessTotal | Runtime/AttributeDatabase.cs:36 | any two different categories are ordered |
| Database.ByCategory | Runtime/AttributeDatabase.cs:49-53 | exactly the present attributes with the category |
| Database.Present | Runtime/AttributeDatabase.cs:73-75 | exactly the present entries, never longer |
| Database.FiltersKeepOrder | Runtime/AttributeDatabase.cs:49-53 | both filters distribute over concatenation, so they keep list order |
| Database.PresentKeepsQueries | Runtime/AttributeDatabase.cs:71-89 | dropping the null entries changes no lookup, no categories and no category filter |
| Database.AttributeDatabase.constructor | Runtime/AttributeDatabase.cs:9-10 | an empty database without a cache |
| Database.AttributeDatabase.EnsureLookup | Runtime/AttributeDatabase.cs:55-69 | afterwards the cache is the lookup of the current list |
| Database.AttributeDatabase.GetAttribute | Runtime/AttributeDatabase.cs:40-47 | an empty name gives None; otherwise the first present attribute with the name |
| Database.AttributeDatabase.Categories | Runtime/AttributeDatabase.cs:27-38 | strictly sorted, and holding a category exactly when some present attribute has it |
| Database.AttributeDatabase.GetAttributesByCategory | Runtime/AttributeDatabase.cs:49-53 | holds an attribute exactly when it is present in the list with that category, in list order |
| Database.AttributeDatabase.Validate | Runtime/AttributeDatabase.cs:71-89 | every null entry leaves, the rest in order, and the cache is invalidated |
| Database.IsWhiteSpace | Runtime/AttributeDatabase.cs:94 | the characters char.IsWhiteSpace accepts: space, tab to carriage return, and the Unicode separators |
| Database.IsBlank | Runtime/AttributeDatabase.cs:94 | string.IsNullOrWhiteSpace: every character is whitespace, the empty name included |
| Database.AttributeDatabase.CreateAttribute | Runtime/AttributeDatabase.cs:92-111 | a blank name gives None with no change; an existing name returns that attribute with the list unchanged; otherwise exactly one new attribute is appended; category "Core" by default |
| Database.AttributeDatabase.RemoveAttribute | Runtime/AttributeDatabase.cs:113-125 | false with no change for an unknown name; otherwise that attribute leaves, the list is one shorter and the cache invalidated |
| Database.FirstSlotIsFirstNamed | Runtime/AttributeDatabase.cs:113-125 | the first occurrence of the looked-up attribute is at the first named position, so the removal takes the attribute the lookup finds |
| PlainInstance.SettledIsClose | Runtime/AttributeInstance.cs:36-50 | a guarded assignment lands within the epsilon of its target and notifies exactly when it replaces the value |
| PlainInstance.SettledIdempotent | Runtime/AttributeInstance.cs:36-42 | repeating a guarded assignment changes and notifies nothing |
| PlainInstance.EpsilonAwayMoves | Runtime/AttributeInstance.cs:38 | the comparison is strict: a value exactly the epsilon away is replaced |
| PlainInstance.AttributeInstance.constructor | Runtime/AttributeInstance.cs:18-23 | the current value starts at the base |
| PlainInstance.AttributeInstance.Modify | Runtime/AttributeInstance.cs:25-34 | current += amount, base unchanged, one notification exactly when the change exceeds the epsilon |
| PlainInstance.AttributeInstance.SetValue | Runtime/AttributeInstance.cs:36-42 | within the epsilon nothing changes; otherwise the value is replaced with one notification; base unchanged |
| PlainInstance.AttributeInstance.Reset | Runtime/AttributeInstance.cs:44-50 | the guarded assignment back to the base; base unchanged |
| PlainInstance.AttributeInstance.SetBaseValue | Runtime/AttributeInstance.cs:52-56 | the base is set and the value reset, ending within the epsilon of the new base |

## Left out

- The Unity lifecycle (`Awake`, `Update`) of `EntityAttributes` is not modelled. The entity's `OnAttributeChanged` forwarding of instance notifications is also not modelled.
- The clock is the parameter `now`. The time stamp inside generated IDs is the opaque text `stamp`. `Time.time` formatted with three decimals in `ApplyModifier`'s IDs and with two in the factory's is likewise the opaque `stamp`, so that two calls share a clock text exactly when they are given the same `stamp`.
- Floats are exact `real`; rounding is not modelled. The `totalPercentageAdd != 0` shortcut is kept, and `PercentTermIsShare` shows it changes nothing in exact arithmetic.
- C# events are logs and sets: `OnValueChanged` is a log of values, and `OnExpired` raisings are a counter and a set of subscribed IDs. Multicast delegate order and handler exceptions are not modelled.
- `Update` evicts with `RemoveAt` and no unsubscription, so an evicted Instant modifier stays subscribed. The model keeps that: only modifiers that fire lose their subscription. Subscriptions are a set of IDs, not of objects, so two modifier objects sharing an ID share one subscription entry: when a later modifier with the ID of a stale, still-subscribed one is removed or cleared, the model drops the entry, while the source would leave the stale object subscribed.
- The instance's list holds modifier states, not shared objects. Aliasing is therefore lost:
  - a caller keeping a reference to an added modifier does not see its activation;
  - an outside `ForceExpire` on a listed modifier cannot reach the list.
- `Modifiers.AttributeModifier` is its own class, not linked to instances, for the same reason. `Expire` is private and is modelled inside `Update` and `ForceExpire`.
- `GetCalculationBreakdown` is not modelled; it is float-to-string formatting.
- The implicit `float` conversion is not modelled; it depends on unspecified `Dictionary` ordering.
- The entity indexer is not modelled separately; it is `GetValue`/`SetValue`.
- `TryGetAttribute`, `HasAttribute`, `GetAttributeNames`, `AllAttributes` and `AttributeCount` of `EntityAttributes` are not modelled. They are the dictionary's own lookup, membership, key set and size.
- `AttributeType` is compared by value (name and category), not by Unity object identity.
- Category and name ordering is ordinal character order on `string`. Culture-sensitive comparison is not modelled.
- In the database:
  - `Resources.Load`, the `Instance` singleton and the `AssetDatabase` calls are not modelled;
  - the duplicate-name `Debug.LogWarning` in `Validate` is not modelled;
  - a null entry is `None`.
- Database.AttributeDatabase.EnsureLookup: the rebuild test (missing cache, or a size differing from the list's) is modelled. But `Valid()` requires any built cache to match the list, because every list change in the model drops the cache. A cache made stale by an outside edit of the serialized list is not modelled.
- A null string argument and the empty string are both `""`, which makes `IsNullOrEmpty` a test for `""`. This matches the source where the source tests for null with `IsNullOrEmpty` or `IsNullOrWhiteSpace`: `ClearAllModifiers`, `ClearModifiersBySource` and the database. Elsewhere in the entity, a null name reaches `Dictionary.TryGetValue` or the dictionary indexer, which throw `ArgumentNullException`. The model has no exception path there and gives `""` its ordinary behaviour: 0, no change, or the instance stored under `""`.
  - Entity.EntityAttributes.GetValue: throws on a null name in the source; the model returns the value under `""`, or 0.
  - Entity.EntityAttributes.GetBaseValue: throws on a null name in the source; the model returns the base under `""`, or 0.
  - Entity.EntityAttributes.GetModifierCount: throws on a null name in the source; the model returns the count under `""`, or 0.
  - Entity.EntityAttributes.SetValue: throws on a null name in the source; the model acts on the instance under `""`, if any.
  - Entity.EntityAttributes.SetBaseValue: throws on a null name in the source; the model acts on the instance under `""`, if any.
  - Entity.EntityAttributes.ApplyModifier: throws on a null name in the source; the model acts on the instance under `""`, if any. `AddFlat`, `AddPercentage` and `AddMultiplier` call it and inherit this.
  - Entity.EntityAttributes.ApplyPrebuiltModifier: throws on a null name in the source; the model acts on the instance under `""`, if any.
  - Entity.EntityAttributes.RemoveModifier: throws on a null name in the source; the model acts on the instance under `""`, if any.
  - Entity.EntityAttributes.InitializeAttributes: storing an entry whose type has a null name throws in the source, part-way through the rebuild; the model stores that instance under `""`.
- Factory: factories return modifier states, not objects; `GenerateId`'s counter is an `int` with C# unchecked wrap-around.
