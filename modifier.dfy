/** One modifier: its fixed shape (identity, kind, application, magnitude,
    duration, priority) and its small lifecycle state machine
    (created -> active -> expired). The clock is the explicit `now`. */
module Modifiers {
  import opened Types

  /** The abstract value of a modifier object at one moment. */
  datatype ModifierState = ModifierState(
    id: string,
    source: string,
    kind: ModifierType,
    application: ModifierApplication,
    value: real,
    duration: real,
    priority: int,
    startTime: real,
    appliedAmount: real,
    isActive: bool,
    isExpired: bool)

  /** The state the constructor leaves: inactive, unexpired, nothing applied. */
  function Created(id: string, source: string, kind: ModifierType, application: ModifierApplication,
                   value: real, duration: real, priority: int): ModifierState
  {
    ModifierState(id, source, kind, application, value, duration, priority, 0.0, 0.0, false, false)
  }

  /** Only an activated, not yet expired modifier takes part in an aggregate. */
  predicate Live(s: ModifierState) {
    s.isActive && !s.isExpired
  }

  function Clamp01(x: real): (r: real)
    ensures 0.0 <= r <= 1.0
    ensures 0.0 <= x <= 1.0 ==> r == x
  {
    if x < 0.0 then 0.0 else if x > 1.0 then 1.0 else x
  }

  /** The amount a modifier contributes at time `now`. */
  function ValueAt(s: ModifierState, now: real): real {
    if !Live(s) then 0.0
    else match s.application
      case Instant => s.value
      case Temporary => s.value
      case Permanent => s.value
      case OverTime =>
        if s.duration > 0.0 then s.value * Clamp01((now - s.startTime) / s.duration) else s.value
  }

  /** Activation: a no-op when already active; otherwise records the start
      time, and an Instant modifier commits its value and expires at once. */
  function Activated(s: ModifierState, now: real): ModifierState {
    if s.isActive then s
    else if s.application == Instant then
      s.(isActive := true, startTime := now, appliedAmount := s.value, isExpired := true)
    else
      s.(isActive := true, startTime := now)
  }

  /** Whether a tick at `now` expires the modifier (and so raises OnExpired). */
  predicate ExpiresAt(s: ModifierState, now: real) {
    && Live(s)
    && (s.application == Temporary || s.application == OverTime)
    && s.duration > 0.0
    && now >= s.startTime + s.duration
  }

  /** The state after one tick at `now`; an expiring OverTime modifier first
      pins its applied amount to the full magnitude. */
  function Ticked(s: ModifierState, now: real): ModifierState {
    if !ExpiresAt(s, now) then s
    else if s.application == OverTime then s.(appliedAmount := s.value, isExpired := true)
    else s.(isExpired := true)
  }

  /** Time left before natural expiry; zero when there is no positive duration. */
  function Remaining(s: ModifierState, now: real): (r: real)
    ensures r >= 0.0
    ensures s.duration <= 0.0 || now >= s.startTime + s.duration ==> r == 0.0
    ensures s.duration > 0.0 && now < s.startTime + s.duration ==> r == s.startTime + s.duration - now
  {
    if s.duration > 0.0 then
      (if s.duration - (now - s.startTime) > 0.0 then s.duration - (now - s.startTime) else 0.0)
    else 0.0
  }

  // ----- Properties of the state machine -----

  /** A freshly constructed modifier is inert: it is not live, contributes 0
      at every time, and no tick can expire it. */
  lemma CreatedIsInert(id: string, source: string, kind: ModifierType, application: ModifierApplication,
                       value: real, duration: real, priority: int, now: real)
    ensures var s := Created(id, source, kind, application, value, duration, priority);
      && !s.isActive && !s.isExpired && s.appliedAmount == 0.0
      && ValueAt(s, now) == 0.0
      && Ticked(s, now) == s && !ExpiresAt(s, now)
  {
  }

  /** Activating twice is activating once; an active modifier keeps its start time. */
  lemma ActivateIdempotent(s: ModifierState, t1: real, t2: real)
    ensures Activated(Activated(s, t1), t2) == Activated(s, t1)
    ensures s.isActive ==> Activated(s, t1) == s
  {
  }

  /** Activation only touches the lifecycle fields, and always leaves the modifier active. */
  lemma ActivateKeepsShape(s: ModifierState, now: real)
    ensures var a := Activated(s, now);
      && a.isActive
      && a.id == s.id && a.source == s.source && a.kind == s.kind && a.application == s.application
      && a.value == s.value && a.duration == s.duration && a.priority == s.priority
      && (!s.isActive ==> a.startTime == now)
      && (s.application != Instant ==> a.isExpired == s.isExpired && a.appliedAmount == s.appliedAmount)
  {
  }

  /** An Instant modifier applies its value once on activation and is expired
      from then on: it contributes 0 at every later time and no tick raises
      OnExpired for it. */
  lemma InstantActivation(s: ModifierState, now: real, later: real)
    requires s.application == Instant && !s.isActive
    ensures Activated(s, now).appliedAmount == s.value
    ensures Activated(s, now).isExpired && !Live(Activated(s, now))
    ensures ValueAt(Activated(s, now), later) == 0.0
    ensures !ExpiresAt(Activated(s, now), later) && Ticked(Activated(s, now), later) == Activated(s, now)
  {
  }

  /** An active, unexpired Temporary or Permanent modifier reports exactly its magnitude. */
  lemma SteadyValue(s: ModifierState, now: real)
    requires Live(s) && (s.application == Temporary || s.application == Permanent)
    ensures ValueAt(s, now) == s.value
  {
  }

  /** The OverTime ramp: 0 before the start, proportional to the elapsed time
      during the duration, the full magnitude from the end on; with no
      positive duration, the full magnitude at once. */
  lemma OverTimeRamp(s: ModifierState, now: real)
    requires Live(s) && s.application == OverTime
    ensures s.duration <= 0.0 ==> ValueAt(s, now) == s.value
    ensures s.duration > 0.0 && now <= s.startTime ==> ValueAt(s, now) == 0.0
    ensures s.duration > 0.0 && s.startTime <= now <= s.startTime + s.duration ==>
      ValueAt(s, now) == s.value * ((now - s.startTime) / s.duration)
    ensures s.duration > 0.0 && now >= s.startTime + s.duration ==> ValueAt(s, now) == s.value
  {
    if s.duration > 0.0 {
      RatioBounds(now - s.startTime, s.duration);
    }
  }

  /** Where a ratio of a positive denominator lies against 0 and 1. */
  lemma RatioBounds(a: real, d: real)
    requires d > 0.0
    ensures a <= 0.0 ==> a / d <= 0.0
    ensures a >= 0.0 ==> a / d >= 0.0
    ensures a <= d ==> a / d <= 1.0
    ensures a >= d ==> a / d >= 1.0
  {
    var x := a / d;
    assert x * d == a;
    if x > 0.0 {
      PositiveProduct(x, d);
    }
    if x < 0.0 {
      PositiveProduct(-x, d);
    }
    if x > 1.0 {
      PositiveProduct(x - 1.0, d);
    }
    if x < 1.0 {
      PositiveProduct(1.0 - x, d);
    }
  }

  lemma PositiveProduct(x: real, y: real)
    requires x > 0.0 && y > 0.0
    ensures x * y > 0.0
  {
  }

  /** A live OverTime modifier reports a value between 0 and its magnitude. */
  lemma OverTimeBounded(s: ModifierState, now: real)
    requires Live(s) && s.application == OverTime
    ensures s.value >= 0.0 ==> 0.0 <= ValueAt(s, now) <= s.value
    ensures s.value <= 0.0 ==> s.value <= ValueAt(s, now) <= 0.0
  {
    if s.duration > 0.0 {
      var p := Clamp01((now - s.startTime) / s.duration);
      assert ValueAt(s, now) == s.value * p;
      if s.value >= 0.0 {
        assert s.value * p <= s.value * 1.0;
      } else {
        assert s.value * p >= s.value * 1.0;
      }
    }
  }

  /** A non-negative OverTime ramp never decreases as time advances. */
  lemma OverTimeMonotone(s: ModifierState, t1: real, t2: real)
    requires Live(s) && s.application == OverTime && s.value >= 0.0
    requires t1 <= t2
    ensures ValueAt(s, t1) <= ValueAt(s, t2)
  {
    if s.duration > 0.0 {
      var x1 := (t1 - s.startTime) / s.duration;
      var x2 := (t2 - s.startTime) / s.duration;
      assert x1 * s.duration == t1 - s.startTime;
      assert x2 * s.duration == t2 - s.startTime;
      assert x1 <= x2;
      assert Clamp01(x1) <= Clamp01(x2);
      assert s.value * Clamp01(x1) <= s.value * Clamp01(x2);
    }
  }

  /** A tick changes nothing on an inactive or expired modifier, nor on a
      Permanent or Instant one, nor on one without a positive duration. */
  lemma TickNoOp(s: ModifierState, now: real)
    requires !Live(s) || s.application == Permanent || s.application == Instant || s.duration <= 0.0
    ensures !ExpiresAt(s, now) && Ticked(s, now) == s
  {
  }

  /** A live Temporary or OverTime modifier with a positive duration expires
      on a tick exactly when its duration has elapsed; OverTime pins its
      applied amount to the full magnitude first. Nothing else changes. */
  lemma TickExpiry(s: ModifierState, now: real)
    requires Live(s) && (s.application == Temporary || s.application == OverTime) && s.duration > 0.0
    ensures Ticked(s, now).isExpired <==> now >= s.startTime + s.duration
    ensures Ticked(s, now).isExpired && s.application == OverTime ==> Ticked(s, now).appliedAmount == s.value
    ensures Ticked(s, now).isExpired && s.application == Temporary ==> Ticked(s, now).appliedAmount == s.appliedAmount
    ensures Ticked(s, now).(isExpired := s.isExpired, appliedAmount := s.appliedAmount) == s
  {
  }

  /** Expiry through ticks happens at most once: once a tick has expired a
      modifier, no later tick raises OnExpired for it again. */
  lemma ExpiresOnce(s: ModifierState, now: real, later: real)
    requires ExpiresAt(s, now)
    ensures Ticked(s, now).isExpired
    ensures !ExpiresAt(Ticked(s, now), later) && Ticked(Ticked(s, now), later) == Ticked(s, now)
  {
  }

  /** A modifier as an object whose lifecycle fields change in place. */
  class AttributeModifier {
    const id: string
    const source: string
    const kind: ModifierType
    const application: ModifierApplication
    const value: real
    const duration: real
    const priority: int

    var startTime: real
    var appliedAmount: real
    var isActive: bool
    var isExpired: bool
    /** How many times OnExpired has been raised. */
    var expiredEvents: nat

    function State(): ModifierState
      reads this
    {
      ModifierState(id, source, kind, application, value, duration, priority,
                    startTime, appliedAmount, isActive, isExpired)
    }

    constructor (id: string, source: string, kind: ModifierType, application: ModifierApplication,
                 value: real, duration: real := 0.0, priority: int := 0)
      ensures State() == Created(id, source, kind, application, value, duration, priority)
      ensures expiredEvents == 0
    {
      this.id := id;
      this.source := source;
      this.kind := kind;
      this.application := application;
      this.value := value;
      this.duration := duration;
      this.priority := priority;
      this.startTime := 0.0;
      this.appliedAmount := 0.0;
      this.isActive := false;
      this.isExpired := false;
      this.expiredEvents := 0;
    }

    /** Activation never raises OnExpired, not even for an Instant modifier. */
    method Activate(now: real)
      modifies this
      ensures State() == Activated(old(State()), now)
      ensures expiredEvents == old(expiredEvents)
    {
      if isActive {
        return;
      }
      isActive := true;
      startTime := now;
      if application == Instant {
        appliedAmount := value;
        isExpired := true;
      }
    }

    function GetCurrentValue(now: real): (r: real)
      reads this
      ensures !isActive || isExpired ==> r == 0.0
    {
      ValueAt(State(), now)
    }

    function RemainingTime(now: real): (r: real)
      reads this
      ensures r >= 0.0
      ensures duration <= 0.0 ==> r == 0.0
    {
      Remaining(State(), now)
    }

    /** One tick; `raised` tells whether OnExpired was raised. */
    method Update(now: real) returns (raised: bool)
      modifies this
      ensures State() == Ticked(old(State()), now)
      ensures raised == ExpiresAt(old(State()), now)
      ensures expiredEvents == old(expiredEvents) + (if raised then 1 else 0)
    {
      raised := false;
      if !isActive || isExpired {
        return;
      }
      if application == Temporary && duration > 0.0 {
        if now >= startTime + duration {
          isExpired := true;
          expiredEvents := expiredEvents + 1;
          raised := true;
        }
      } else if application == OverTime && duration > 0.0 {
        if now >= startTime + duration {
          appliedAmount := value;
          isExpired := true;
          expiredEvents := expiredEvents + 1;
          raised := true;
        }
      }
    }

    /** Expires unconditionally and raises OnExpired, even when already expired. */
    method ForceExpire()
      modifies this
      ensures State() == old(State()).(isExpired := true)
      ensures expiredEvents == old(expiredEvents) + 1
    {
      isExpired := true;
      expiredEvents := expiredEvents + 1;
    }
  }
}
