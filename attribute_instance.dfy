/** The plain attribute holder: a base value and a current value that is
    adjusted directly, every change beyond the epsilon being notified. */
module PlainInstance {
  import opened Types

  /** The current value after a guarded assignment towards `target`: kept
      when already within the epsilon (strictly), otherwise replaced. */
  function Settled(current: real, target: real): real {
    if Abs(current - target) < Epsilon then current else target
  }

  /** Whether a guarded assignment towards `target` changes and notifies. */
  predicate Moves(current: real, target: real) {
    !(Abs(current - target) < Epsilon)
  }

  /** A guarded assignment always lands within the epsilon of its target,
      and it notifies exactly when it replaces the value. */
  lemma SettledIsClose(current: real, target: real)
    ensures Abs(Settled(current, target) - target) < Epsilon
    ensures Moves(current, target) <==> Settled(current, target) == target && Abs(current - target) >= Epsilon
    ensures !Moves(current, target) ==> Settled(current, target) == current
  {
  }

  /** Repeating a guarded assignment changes nothing and notifies nothing. */
  lemma SettledIdempotent(current: real, target: real)
    ensures Settled(Settled(current, target), target) == Settled(current, target)
    ensures !Moves(Settled(current, target), target)
  {
    SettledIsClose(current, target);
  }

  /** The boundary is strict: a value exactly the epsilon away is replaced. */
  lemma EpsilonAwayMoves(target: real)
    ensures Moves(target + Epsilon, target) && Settled(target + Epsilon, target) == target
  {
  }

  class AttributeInstance {
    const attrType: AttributeType
    var baseValue: real
    var currentValue: real
    /** The values OnValueChanged was invoked with, oldest first. */
    var notifications: seq<real>

    constructor (attrType: AttributeType, baseValue: real)
      ensures this.attrType == attrType && this.baseValue == baseValue
      ensures currentValue == baseValue && notifications == []
    {
      this.attrType := attrType;
      this.baseValue := baseValue;
      currentValue := baseValue;
      notifications := [];
    }

    /** Adds `amount`; notifies when the value moved by more than the epsilon. */
    method Modify(amount: real)
      modifies this
      ensures currentValue == old(currentValue) + amount && baseValue == old(baseValue)
      ensures notifications == old(notifications) + (if Abs(amount) > Epsilon then [currentValue] else [])
    {
      var oldValue := currentValue;
      currentValue := currentValue + amount;
      if Abs(oldValue - currentValue) > Epsilon {
        notifications := notifications + [currentValue];
      }
    }

    /** Sets the value unless it is already within the epsilon of `newValue`. */
    method SetValue(newValue: real)
      modifies this
      ensures currentValue == Settled(old(currentValue), newValue) && baseValue == old(baseValue)
      ensures notifications == old(notifications) + (if Moves(old(currentValue), newValue) then [newValue] else [])
    {
      if Abs(currentValue - newValue) < Epsilon {
        return;
      }
      currentValue := newValue;
      notifications := notifications + [currentValue];
    }

    /** Returns the value to the base unless it is already within the epsilon. */
    method Reset()
      modifies this
      ensures currentValue == Settled(old(currentValue), baseValue) && baseValue == old(baseValue)
      ensures notifications == old(notifications) + (if Moves(old(currentValue), baseValue) then [baseValue] else [])
    {
      if Abs(currentValue - baseValue) < Epsilon {
        return;
      }
      currentValue := baseValue;
      notifications := notifications + [currentValue];
    }

    /** Sets the base and resets to it. */
    method SetBaseValue(newValue: real)
      modifies this
      ensures baseValue == newValue && currentValue == Settled(old(currentValue), newValue)
      ensures notifications == old(notifications) + (if Moves(old(currentValue), newValue) then [newValue] else [])
      ensures Abs(currentValue - newValue) < Epsilon
    {
      baseValue := newValue;
      Reset();
      SettledIsClose(old(currentValue), newValue);
    }
  }
}
