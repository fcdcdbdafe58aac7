/** Aggregate states: start, update by one value, final value (src/executor.rs, AggState). */
module Aggregation {
  import opened Wrappers
  import opened Storage
  import opened Planner

  datatype AggState =
    | CountState(count: i64)
    | SumState(sum: Value)
    | AvgState(sum: Value, count: i64)
    | MinState(min: Value)
    | MaxState(max: Value)
  {
    function Update(val: Value): AggState {
      if val.Null? then this
      else
        match this
        case CountState(count) => CountState(Wrap64(count + 1))
        case SumState(sum) => SumState(AddTo(sum, val))
        case AvgState(sum, count) => AvgState(AddTo(sum, val), Wrap64(count + 1))
        case MinState(min) =>
          if min.Null? || val.PartialCmp(min) == Some(Less) then MinState(val) else this
        case MaxState(max) =>
          if max.Null? || val.PartialCmp(max) == Some(Greater) then MaxState(val) else this
    }

    function Finalize(): Value {
      match this
      case CountState(count) => Int(count)
      case SumState(sum) => sum
      case AvgState(sum, count) =>
        if count == 0 then Null
        else (match sum
              case Int(s) => Float(IEEE754.div(IEEE754.ofInt(s), IEEE754.ofInt(count)))
              case Float(s) => Float(IEEE754.div(s, IEEE754.ofInt(count)))
              case _ => Null)
      case MinState(min) => min
      case MaxState(max) => max
    }
  }

  /** A running sum, in 64 bits; the first value is taken as it is and non-numeric values are ignored. */
  function AddTo(sum: Value, val: Value): Value {
    match sum
    case Null => val
    case Int(s) =>
      (match val
       case Int(v) => Int(Wrap64(s + v))
       case Float(v) => Float(IEEE754.add(IEEE754.ofInt(s), v))
       case _ => sum)
    case Float(s) =>
      (match val
       case Float(v) => Float(IEEE754.add(s, v))
       case Int(v) => Float(IEEE754.add(s, IEEE754.ofInt(v)))
       case _ => sum)
    case _ => sum
  }

  function StartState(func: string): AggState
    requires IsAggregateName(func)
  {
    if func == "count" then CountState(0)
    else if func == "sum" then SumState(Null)
    else if func == "avg" then AvgState(Null, 0)
    else if func == "min" then MinState(Null)
    else MaxState(Null)
  }

  function Fold(state: AggState, vals: seq<Value>): AggState {
    if vals == [] then state
    else Fold(state, vals[..|vals| - 1]).Update(vals[|vals| - 1])
  }

  /** The value of one aggregate over a list of argument values. */
  function Aggregate(func: string, vals: seq<Value>): Value
    requires IsAggregateName(func)
  {
    Fold(StartState(func), vals).Finalize()
  }
}
