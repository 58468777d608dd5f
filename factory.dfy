/** The modifier factory: convenience constructors that pick the application
    from the duration, force the sign of buffs and debuffs, and draw
    generated IDs of the form `prefix_counter_time` from a shared counter. */
module Factory {
  import opened Types
  import opened Modifiers

  // ----- The shared counter: a C# `int` incremented with `++` -----

  const Int32Min: int := -0x8000_0000
  const Int32Max: int := 0x7fff_ffff

  predicate IsInt32(n: int) {
    Int32Min <= n <= Int32Max
  }

  /** `n++` on a 32-bit counter: unchecked, so the largest value wraps to the smallest. */
  function Increment(n: int): (r: int)
    requires IsInt32(n)
    ensures IsInt32(r)
    ensures n < Int32Max ==> r == n + 1
    ensures n == Int32Max ==> r == Int32Min
  {
    if n == Int32Max then Int32Min else n + 1
  }

  /** The counter after `k` IDs have been generated from `n`. */
  function Advanced(n: int, k: nat): (r: int)
    requires IsInt32(n)
    ensures IsInt32(r)
  {
    if k == 0 then n else Increment(Advanced(n, k - 1))
  }

  /** Until it reaches the largest `int`, the counter just counts up. */
  lemma {:induction false} AdvancedCounts(n: int, k: nat)
    requires IsInt32(n) && n + k <= Int32Max
    ensures Advanced(n, k) == n + k
  {
    if k > 0 {
      AdvancedCounts(n, k - 1);
    }
  }

  /** Calls made before the counter wraps around never see the same value twice. */
  lemma CounterValuesDistinct(n: int, j: nat, k: nat)
    requires IsInt32(n) && j < k && n + k <= Int32Max
    ensures Advanced(n, j) != Advanced(n, k)
  {
    AdvancedCounts(n, j);
    AdvancedCounts(n, k);
  }

  /** The counter starts at 0; after 2^31 generated IDs it wraps to the
      smallest `int`, so later IDs carry negative numbers. */
  lemma CounterWraps(k: nat)
    requires k == Int32Max + 1
    ensures Advanced(0, k) == Int32Min
  {
    AdvancedCounts(0, k - 1);
    assert Advanced(0, k) == Increment(Advanced(0, k - 1));
  }

  // ----- The text of a generated ID -----

  function DigitChar(d: int): (c: char)
    requires 0 <= d < 10
    ensures '0' <= c <= '9'
  {
    "0123456789"[d]
  }

  /** The decimal digits of a natural number. */
  function NatText(n: nat): (r: string)
    ensures |r| >= 1
    ensures forall i :: 0 <= i < |r| ==> '0' <= r[i] <= '9'
    ensures n < 10 <==> |r| == 1
  {
    if n < 10 then [DigitChar(n)] else NatText(n / 10) + [DigitChar(n % 10)]
  }

  /** The text of an `int` in an interpolated string: an optional minus sign and its digits. */
  function IntText(n: int): (r: string)
    ensures |r| >= 1
    ensures forall i :: 0 <= i < |r| ==> r[i] != '_'
    ensures r[0] == '-' <==> n < 0
  {
    if n < 0 then "-" + NatText(-n) else NatText(n)
  }

  /** Different numbers have different decimal texts. */
  lemma {:induction false} NatTextInjective(a: nat, b: nat)
    requires NatText(a) == NatText(b)
    ensures a == b
  {
    if a >= 10 && b >= 10 {
      var ta := NatText(a);
      assert ta[..|ta| - 1] == NatText(a / 10);
      assert ta[|ta| - 1] == DigitChar(a % 10);
      assert NatText(b)[..|ta| - 1] == NatText(b / 10);
      assert NatText(b)[|ta| - 1] == DigitChar(b % 10);
      NatTextInjective(a / 10, b / 10);
      assert "0123456789"[a % 10] == "0123456789"[b % 10];
    } else if a < 10 && b < 10 {
      assert "0123456789"[a] == "0123456789"[b];
    }
  }

  lemma IntTextInjective(a: int, b: int)
    requires IntText(a) == IntText(b)
    ensures a == b
  {
    var t := IntText(a);
    if a < 0 && b < 0 {
      assert t[1..] == NatText(-a);
      assert IntText(b)[1..] == NatText(-b);
      NatTextInjective(-a, -b);
    } else if a >= 0 && b >= 0 {
      NatTextInjective(a, b);
    }
  }

  /** A generated ID: the prefix, the counter value and the formatted clock. */
  function IdText(prefix: string, n: int, stamp: string): string {
    prefix + "_" + IntText(n) + "_" + stamp
  }

  predicate NoUnderscore(s: string) {
    forall i :: 0 <= i < |s| ==> s[i] != '_'
  }

  lemma UnderscoreAfter(a: string, b: string)
    ensures (a + "_" + b)[|a|] == '_'
    ensures forall i :: 0 <= i < |a| ==> (a + "_" + b)[i] == a[i]
  {
  }

  /** The first underscore splits a text uniquely when the left part has none. */
  lemma SplitAtUnderscore(a: string, b: string, c: string, d: string)
    requires NoUnderscore(a) && NoUnderscore(c)
    requires a + "_" + b == c + "_" + d
    ensures a == c && b == d
  {
    var x := a + "_" + b;
    UnderscoreAfter(a, b);
    UnderscoreAfter(c, d);
    assert |a| == |c|;
    assert a == x[..|a|] == c;
    assert b == x[|a| + 1..] == d;
  }

  /** IDs generated with underscore-free prefixes and clock texts differ as
      soon as the prefix or the counter value differs, whatever the clock. */
  lemma GeneratedIdsDistinct(p1: string, n1: int, t1: string, p2: string, n2: int, t2: string)
    requires NoUnderscore(p1) && NoUnderscore(p2) && NoUnderscore(t1) && NoUnderscore(t2)
    requires p1 != p2 || n1 != n2
    ensures IdText(p1, n1, t1) != IdText(p2, n2, t2)
  {
    if IdText(p1, n1, t1) == IdText(p2, n2, t2) {
      assert IdText(p1, n1, t1) == p1 + "_" + (IntText(n1) + "_" + t1);
      assert IdText(p2, n2, t2) == p2 + "_" + (IntText(n2) + "_" + t2);
      SplitAtUnderscore(p1, IntText(n1) + "_" + t1, p2, IntText(n2) + "_" + t2);
      SplitAtUnderscore(IntText(n1), t1, IntText(n2), t2);
      IntTextInjective(n1, n2);
    }
  }

  /** The ID a factory uses: the custom one verbatim when given (`??`), else a generated one. */
  function ChosenId(customId: Option<string>, prefix: string, counter: int, stamp: string): string {
    if customId.Some? then customId.value else IdText(prefix, counter, stamp)
  }

  /** The counter after a factory call: only a generated ID consumes a value. */
  function CounterAfter(customId: Option<string>, counter: int): (r: int)
    requires IsInt32(counter)
    ensures IsInt32(r)
    ensures customId.Some? ==> r == counter
    ensures customId.None? ==> r == Increment(counter)
  {
    if customId.Some? then counter else Increment(counter)
  }

  // ----- What each factory builds -----

  /** A freshly built modifier: inactive, unexpired, nothing applied. */
  predicate Fresh(r: ModifierState) {
    !r.isActive && !r.isExpired && r.appliedAmount == 0.0 && r.startTime == 0.0
  }

  /** `Create`: every field as given. */
  function Create(id: string, kind: ModifierType, value: real, application: ModifierApplication,
                  source: string := UnknownSource, duration: real := 0.0, priority: int := 0): (r: ModifierState)
    ensures Fresh(r)
    ensures r.id == id && r.kind == kind && r.value == value && r.application == application
    ensures r.source == source && r.duration == duration && r.priority == priority
  {
    Created(id, source, kind, application, value, duration, priority)
  }

  /** The shape shared by the duration-driven factories: temporary exactly
      when the duration is positive, otherwise permanent, priority 0. */
  function ByDuration(id: string, kind: ModifierType, value: real, source: string, duration: real): (r: ModifierState)
    ensures Fresh(r) && r.id == id && r.kind == kind && r.value == value
    ensures r.source == source && r.duration == duration && r.priority == 0
    ensures r.application == Temporary <==> duration > 0.0
    ensures r.application != Temporary ==> r.application == Permanent
  {
    Created(id, source, kind, DefaultApplication(duration), value, duration, 0)
  }

  /** `CreateBuff`: the magnitude is made non-negative. */
  function Buff(id: string, kind: ModifierType, value: real, source: string, duration: real): (r: ModifierState)
    ensures r.value >= 0.0 && (r.value == value || r.value == -value)
    ensures value >= 0.0 ==> r.value == value
    ensures r == ByDuration(id, kind, r.value, source, duration)
  {
    ByDuration(id, kind, Abs(value), source, duration)
  }

  /** `CreateDebuff`: the magnitude is made non-positive. */
  function Debuff(id: string, kind: ModifierType, value: real, source: string, duration: real): (r: ModifierState)
    ensures r.value <= 0.0 && (r.value == value || r.value == -value)
    ensures value <= 0.0 ==> r.value == value
    ensures r == ByDuration(id, kind, r.value, source, duration)
  {
    ByDuration(id, kind, -Abs(value), source, duration)
  }

  /** `CreateInstant` and `CreatePermanent`: a fixed application and no duration. */
  function Undated(id: string, kind: ModifierType, value: real, source: string, application: ModifierApplication): (r: ModifierState)
    ensures Fresh(r) && r.id == id && r.kind == kind && r.value == value && r.source == source
    ensures r.application == application && r.duration == 0.0 && r.priority == 0
  {
    Created(id, source, kind, application, value, 0.0, 0)
  }

  /** `CreateOverTime` and `CreateTemporary`: a fixed application and the given duration. */
  function Dated(id: string, kind: ModifierType, value: real, source: string,
                 application: ModifierApplication, duration: real): (r: ModifierState)
    ensures Fresh(r) && r.id == id && r.kind == kind && r.value == value && r.source == source
    ensures r.application == application && r.duration == duration && r.priority == 0
  {
    Created(id, source, kind, application, value, duration, 0)
  }

  /** A buff and a debuff of the same magnitude cancel out as flat modifiers. */
  lemma BuffDebuffOpposite(id1: string, id2: string, kind: ModifierType, value: real, source1: string, source2: string, duration: real)
    ensures Buff(id1, kind, value, source1, duration).value == -Debuff(id2, kind, value, source2, duration).value
  {
  }

  /** An instant modifier is spent by its activation: once added it is never
      reported and contributes nothing. */
  lemma InstantIsSpentOnActivation(id: string, kind: ModifierType, value: real, source: string, now: real, later: real)
    ensures !Live(Activated(Undated(id, kind, value, source, Instant), now))
    ensures ValueAt(Activated(Undated(id, kind, value, source, Instant), now), later) == 0.0
    ensures Activated(Undated(id, kind, value, source, Instant), now).appliedAmount == value
  {
    InstantActivation(Undated(id, kind, value, source, Instant), now, later);
  }

  /** The static helper's state: the next counter value. The clock text of
      each generated ID is the parameter `stamp`. */
  class AttributeModifierHelper {
    var nextId: int

    ghost predicate Valid()
      reads this
    {
      IsInt32(nextId)
    }

    constructor ()
      ensures Valid() && nextId == 0
    {
      nextId := 0;
    }

    /** `GenerateId`: formats the current counter value and advances the counter. */
    method GenerateId(stamp: string, prefix: string := "mod") returns (id: string)
      requires Valid()
      modifies this
      ensures Valid()
      ensures id == IdText(prefix, old(nextId), stamp)
      ensures nextId == Increment(old(nextId))
    {
      id := IdText(prefix, nextId, stamp);
      nextId := Increment(nextId);
    }

    /** `customId ?? GenerateId(prefix)`. */
    method IdFor(customId: Option<string>, prefix: string, stamp: string) returns (id: string)
      requires Valid()
      modifies this
      ensures Valid()
      ensures id == ChosenId(customId, prefix, old(nextId), stamp)
      ensures nextId == CounterAfter(customId, old(nextId))
    {
      if customId.Some? {
        id := customId.value;
      } else {
        id := GenerateId(stamp, prefix);
      }
    }

    method CreateFlat(value: real, stamp: string, source: string := UnknownSource, duration: real := 0.0,
                      customId: Option<string> := None)
      returns (r: ModifierState)
      requires Valid()
      modifies this
      ensures Valid() && nextId == CounterAfter(customId, old(nextId))
      ensures r == ByDuration(ChosenId(customId, "flat", old(nextId), stamp), Flat, value, source, duration)
    {
      var id := IdFor(customId, "flat", stamp);
      r := ByDuration(id, Flat, value, source, duration);
    }

    method CreatePercentage(percentage: real, stamp: string, source: string := UnknownSource, duration: real := 0.0,
                            customId: Option<string> := None)
      returns (r: ModifierState)
      requires Valid()
      modifies this
      ensures Valid() && nextId == CounterAfter(customId, old(nextId))
      ensures r == ByDuration(ChosenId(customId, "perc", old(nextId), stamp), PercentageAdd, percentage, source, duration)
    {
      var id := IdFor(customId, "perc", stamp);
      r := ByDuration(id, PercentageAdd, percentage, source, duration);
    }

    method CreateMultiplier(multiplierPercentage: real, stamp: string, source: string := UnknownSource, duration: real := 0.0,
                            customId: Option<string> := None)
      returns (r: ModifierState)
      requires Valid()
      modifies this
      ensures Valid() && nextId == CounterAfter(customId, old(nextId))
      ensures r == ByDuration(ChosenId(customId, "mult", old(nextId), stamp), PercentageMultiply, multiplierPercentage, source, duration)
    {
      var id := IdFor(customId, "mult", stamp);
      r := ByDuration(id, PercentageMultiply, multiplierPercentage, source, duration);
    }

    method CreateOverTime(totalValue: real, duration: real, stamp: string, kind: ModifierType := Flat,
                          source: string := UnknownSource, customId: Option<string> := None)
      returns (r: ModifierState)
      requires Valid()
      modifies this
      ensures Valid() && nextId == CounterAfter(customId, old(nextId))
      ensures r == Dated(ChosenId(customId, "ot", old(nextId), stamp), kind, totalValue, source, OverTime, duration)
    {
      var id := IdFor(customId, "ot", stamp);
      r := Dated(id, kind, totalValue, source, OverTime, duration);
    }

    method CreateInstant(value: real, stamp: string, kind: ModifierType := Flat, source: string := UnknownSource,
                         customId: Option<string> := None)
      returns (r: ModifierState)
      requires Valid()
      modifies this
      ensures Valid() && nextId == CounterAfter(customId, old(nextId))
      ensures r == Undated(ChosenId(customId, "instant", old(nextId), stamp), kind, value, source, Instant)
    {
      var id := IdFor(customId, "instant", stamp);
      r := Undated(id, kind, value, source, Instant);
    }

    method CreateTemporary(value: real, duration: real, stamp: string, kind: ModifierType := Flat,
                           source: string := UnknownSource, customId: Option<string> := None)
      returns (r: ModifierState)
      requires Valid()
      modifies this
      ensures Valid() && nextId == CounterAfter(customId, old(nextId))
      ensures r == Dated(ChosenId(customId, "temp", old(nextId), stamp), kind, value, source, Temporary, duration)
    {
      var id := IdFor(customId, "temp", stamp);
      r := Dated(id, kind, value, source, Temporary, duration);
    }

    method CreatePermanent(value: real, stamp: string, kind: ModifierType := Flat, source: string := UnknownSource,
                           customId: Option<string> := None)
      returns (r: ModifierState)
      requires Valid()
      modifies this
      ensures Valid() && nextId == CounterAfter(customId, old(nextId))
      ensures r == Undated(ChosenId(customId, "perm", old(nextId), stamp), kind, value, source, Permanent)
    {
      var id := IdFor(customId, "perm", stamp);
      r := Undated(id, kind, value, source, Permanent);
    }

    method CreateBuff(value: real, duration: real, stamp: string, kind: ModifierType := Flat,
                      source: string := "Buff", customId: Option<string> := None)
      returns (r: ModifierState)
      requires Valid()
      modifies this
      ensures Valid() && nextId == CounterAfter(customId, old(nextId))
      ensures r == Buff(ChosenId(customId, "buff", old(nextId), stamp), kind, value, source, duration)
    {
      var id := IdFor(customId, "buff", stamp);
      r := Buff(id, kind, value, source, duration);
    }

    method CreateDebuff(value: real, duration: real, stamp: string, kind: ModifierType := Flat,
                        source: string := "Debuff", customId: Option<string> := None)
      returns (r: ModifierState)
      requires Valid()
      modifies this
      ensures Valid() && nextId == CounterAfter(customId, old(nextId))
      ensures r == Debuff(ChosenId(customId, "debuff", old(nextId), stamp), kind, value, source, duration)
    {
      var id := IdFor(customId, "debuff", stamp);
      r := Debuff(id, kind, value, source, duration);
    }
  }
}
