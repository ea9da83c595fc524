/** Option and Result types, and the three exceptions the core raises: two
    Python built-ins and one of networkx. */
module Wrappers {

  datatype Option<+T> = None | Some(value: T)

  /** The exceptions raised by the core: a dictionary lookup of an id that is
      not in the division (KeyError), an explicit `raise ValueError(...)`, or
      networkx refusing a node that is not in the graph (NetworkXError, with
      the node's name). */
  datatype Error =
    | KeyError(key: int)
    | ValueError(message: string)
    | NetworkXError(node: string)

  datatype Result<+T> = Ok(value: T) | Err(error: Error)

  /** The result of a check that returns nothing or raises. */
  datatype Outcome = Pass | Fail(error: Error)

  /** The message of every ValueError the core raises. */
  const NotInInput: string := "Team does not exist in given input."
}
