/** Values shared by the rules and the runner: JavaScript's "no value" results,
    positioned messages and the two ways a rule can fail. */
module LintTypes {

  datatype Option<+T> = None | Some(value: T)

  /** A line/column pair as the parsers report it (1-based). */
  datatype Position = Position(line: int, column: int)

  /** One object a rule pushes into its result list. Rules differ in which
      fields they fill in: hexLength sets only `message`, spaceAroundComma
      sets `column` and `message`, the others set all three. */
  datatype Message = Message(line: Option<int>, column: Option<int>, message: string)

  /** What a rule's `lint` can throw: the `Error` it raises on an unknown
      style, or the `TypeError` JavaScript raises on a property read of
      `undefined`/`null`. */
  datatype LintError = InvalidSetting(text: string) | TypeError

  /** The four ways a call of `lint` ends: `return null`, falling off the end
      (or a bare `return`) which yields `undefined`, returning a list, or
      throwing. */
  datatype LintOutcome =
    | Null
    | Undefined
    | Reported(messages: seq<Message>)
    | Threw(error: LintError)
}
