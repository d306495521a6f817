/**
 * The failure kinds the automation engine and the process command raise, and a
 * failure-compatible Result type standing in for the C++ exceptions.
 */
module Outcomes {

  /** One constructor per exception the modelled code throws (message context kept as fields). */
  datatype Error =
    | InvalidFloatingPoint(text: string)         // keyframe time: suffixed number does not parse
    | InvalidSampleIndex(text: string)           // keyframe time: integer form does not parse
    | DuplicateKeyframeTime(time: nat, text: string)
    | ValueOutOfRange(value: real)               // numeric value outside [0,1]
    | InvalidValueType                           // value neither number nor string
    | NotAnObject                                // JSON value is not an object where one is converted
    | UnknownParameter(name: string)
    | TextValueUnsupported(name: string)         // text used in the file for a non-round-tripping parameter
    | InvalidNumber(text: string)                // strict number parsers
    | InvalidModifier(token: string)             // CLI parameter: third token other than "n"
    | NotKeyValuePair(text: string)              // CLI parameter: wrong token count
    | NormalizedValueNotANumber(text: string)
    | NormalizedValueOutOfRange(value: real)
    | CliTextValueUnsupported(name: string)      // text used on the CLI for a non-round-tripping parameter
    | MismatchedSampleRate
    | EmptyKeyframes(name: string)               // checked reading only: a member with no keyframe

  datatype Result<+T> = Ok(value: T) | Err(error: Error) {
    predicate IsFailure() {
      Err?
    }

    function PropagateFailure<U>(): Result<U>
      requires Err?
    {
      Err(error)
    }

    function Extract(): T
      requires Ok?
    {
      value
    }
  }

  datatype Option<+T> = None | Some(value: T) {
    function GetOr(default: T): T {
      match this
      case Some(v) => v
      case None => default
    }
  }
}
