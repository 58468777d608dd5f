/** Shared vocabulary of the stat engine: the two modifier enumerations, the
    attribute identity record, an Option for the source's nullable references,
    and the epsilon used by every "did the value change" test. */
module Types {

  datatype Option<+T> = None | Some(value: T)

  /** How a modifier's magnitude enters the aggregate formula. */
  datatype ModifierType = Flat | PercentageAdd | PercentageMultiply

  /** How a modifier behaves over time. */
  datatype ModifierApplication = Instant | Temporary | Permanent | OverTime

  /** The name C# gives a modifier type when it is formatted into text. */
  function KindName(k: ModifierType): (s: string)
    ensures |s| > 0 && forall i :: 0 <= i < |s| ==> s[i] != '_'
  {
    match k
    case Flat => "Flat"
    case PercentageAdd => "PercentageAdd"
    case PercentageMultiply => "PercentageMultiply"
  }

  /** An attribute identity: a stable name and a display category. */
  datatype AttributeType = AttributeType(name: string, category: string)

  /** The category an attribute type gets when none is chosen. */
  const DefaultCategory: string := "Core"

  /** The source a modifier is tagged with when the caller names none. */
  const UnknownSource: string := "Unknown"

  /** The threshold below which two values count as equal. */
  const Epsilon: real := 0.0001

  function Abs(x: real): (r: real)
    ensures r >= 0.0 && (r == x || r == -x)
  {
    if x < 0.0 then -x else x
  }

  /** The application the convenience factories pick from a duration:
      a positive duration is temporary, anything else is permanent. */
  function DefaultApplication(duration: real): (a: ModifierApplication)
    ensures a == Temporary <==> duration > 0.0
    ensures a != Temporary ==> a == Permanent
  {
    if duration > 0.0 then Temporary else Permanent
  }
}
