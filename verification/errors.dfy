/** Failure-compatible wrappers shared by the whole model.

    The simulator reports every failure by raising a Python exception that is
    fatal to the current run. Each raising site becomes one `Error` variant
    below; the comment on each variant names the Python exception it stands
    for. */
module Errors {

  /** An optional value: Python's `None` or a value. */
  datatype Option<+T> = None | Some(value: T) {
    function GetOr(default: T): T {
      match this
      case Some(v) => v
      case None => default
    }
  }

  datatype Error =
    | UnknownFieldType              // ValueError: join/divide met a field that is not a number or a deque
    | OperandType                   // TypeError: an arithmetic operator received None
    | ZeroDivision                  // ZeroDivisionError: a stimulus was divided by 0
    | MissingKey                    // KeyError: a CS is not in the environment
    | RepeatedCharacter             // AssertionError: a compound key repeats a character
    | EmptyReduce                   // TypeError: reduce() of an empty sequence
    | EmptyMax                      // ValueError: max() of an empty sequence
    | PopFromEmpty                  // IndexError: popleft on an empty window
    | UnsetPrevLamda                // AttributeError: previous lambda read before any trial part ran
    | MissingXiHall                 // AssertionError: xi_hall is None in get_alpha_hall
    | UnknownModel(name: string)    // NameError: unknown adaptive type
    | CannotParse(part: string, phase: string) // ValueError: a phase clause matches no form
    | BadFloat(text: string)        // ValueError: float() of a text that is not a number
    | UnrecognisedArgs(rest: seq<string>) // KeyError: command-line arguments left unmatched

  /** The outcome of an operation that may raise. */
  datatype Result<+T> = Ok(value: T) | Err(error: Error) {
    predicate IsFailure() {
      Err?
    }

    function PropagateFailure<U>(): Result<U>
      requires Err?
    {
      Err(error)
    }

    function Extract(): T
      requires Ok?
    {
      value
    }
  }
}
