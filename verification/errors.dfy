/** The failures the engine reports, with the name and message of the JavaScript error
    each one is thrown as. */
module Errors {

  datatype Error =
    | MissingSource                 // neither a path nor a literal template given
    | MultipleSources               // both a path and a literal template given
    | SourceRead(reason: string)    // the file could not be read; reason from the loader
    | KeyPatternError(pattern: string)
    | MissingKey
    | MissingValue
    | PairLength
    | IncompletePair
    | PairsType
    | RegexSyntax(message: string)  // `new RegExp` refused a spliced key; message from the engine

  const KeyPatternPrefix := "Invalid key pattern: "

  /** The `name` property of the thrown error: the custom class for a bad key pattern, the
      built-in `TypeError` and `SyntaxError` where the engine throws those, `Error` otherwise. */
  function Name(e: Error): (n: string)
    ensures n == "KeyPatternError" <==> e.KeyPatternError?
    ensures n == "TypeError" <==> e.PairsType?
    ensures n == "SyntaxError" <==> e.RegexSyntax?
    ensures n != "KeyPatternError" && n != "TypeError" && n != "SyntaxError" ==> n == "Error"
  {
    match e
    case KeyPatternError(_) => "KeyPatternError"
    case PairsType => "TypeError"
    case RegexSyntax(_) => "SyntaxError"
    case _ => "Error"
  }

  /** The `message` property of the thrown error. A read failure and a regular-expression
      syntax error carry the message of the service that raised them unchanged. */
  function Message(e: Error): (msg: string)
    ensures e.KeyPatternError? ==>
      && |msg| == |KeyPatternPrefix| + |e.pattern|
      && msg[..|KeyPatternPrefix|] == KeyPatternPrefix
      && msg[|KeyPatternPrefix|..] == e.pattern
  {
    match e
    case MissingSource => "Missing template source"
    case MultipleSources => "Cannot accept multiple template sources"
    case SourceRead(reason) => reason
    case KeyPatternError(pattern) => KeyPatternPrefix + pattern
    case MissingKey => "Key cannot be undefined when setting a new pair"
    case MissingValue => "Value must be defined for key"
    case PairLength => "Array must have length of exactly two"
    case IncompletePair => "Both items in the [key, value] array must be defined"
    case PairsType => "Supplied pairs must be an instance of Map"
    case RegexSyntax(message) => message
  }
}
