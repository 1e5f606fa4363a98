/** Value types shared by the visualisation helpers: scale types, domains,
    running bounds and sizes. Numbers are mathematical reals; IEEE-754
    rounding, NaN and infinities other than the bounds' sentinel are not
    modelled. */
module VisModels {

  /** The axis scale types the helpers handle. */
  datatype ScaleType = Linear | Log | SymLog

  /** The string value each scale type carries at run time. */
  function ScaleTypeName(t: ScaleType): string
  {
    match t
    case Linear => "linear"
    case Log => "log"
    case SymLog => "symlog"
  }

  /** The values of the ScaleType enumeration, in declaration order. */
  const ScaleTypeNames: seq<string> := [ScaleTypeName(Linear), ScaleTypeName(Log), ScaleTypeName(SymLog)]

  /** A value of unknown type: a string, or anything else. */
  datatype Unknown = StringValue(s: string) | OtherValue

  /** The type guard `isScaleType`: true exactly for a string that is the
      value of some scale type. */
  function IsScaleType(val: Unknown): (b: bool)
    ensures b <==> exists t: ScaleType :: val == StringValue(ScaleTypeName(t))
  {
    var r := val.StringValue? && val.s in ScaleTypeNames;
    assert r ==> val == StringValue(ScaleTypeName(Linear)) || val == StringValue(ScaleTypeName(Log))
                 || val == StringValue(ScaleTypeName(SymLog));
    r
  }

  /** A numeric `[min, max]` pair. */
  datatype Domain = Domain(min: real, max: real)

  /** A real number, or the sentinel `Infinity`. */
  datatype Extended = Finite(r: real) | Infinity

  /** `Math.min(value, e)`, where Infinity is larger than every real. */
  function MinExtended(value: real, e: Extended): (m: real)
    ensures m <= value
    ensures e.Finite? ==> m <= e.r && (m == value || m == e.r)
    ensures e.Infinity? ==> m == value
  {
    match e
    case Infinity => value
    case Finite(x) => if value < x then value else x
  }

  /** The running `[min, max, minPositive]` triple of a fold over values. */
  datatype Bounds = Bounds(min: real, max: real, minPositive: Extended)

  /** A width and a height. */
  datatype Size = Size(width: real, height: real)

  function Min(a: real, b: real): real { if a <= b then a else b }

  function Max(a: real, b: real): real { if a >= b then a else b }

  function Abs(x: real): real { if x < 0.0 then -x else x }

  /** `Math.sign` on a real. */
  function Sign(x: real): real { if x > 0.0 then 1.0 else if x < 0.0 then -1.0 else 0.0 }
}
