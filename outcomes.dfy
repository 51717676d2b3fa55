/**
 * Shared result types. The Python code signals failure by raising; every
 * exception that the modelled code can raise is named in PyError, and an
 * operation that may raise returns a Result (a value) or a Status (no value).
 */
module Outcomes {

  /** Python exceptions raised by the modelled code. */
  datatype PyError =
    | IndexError      // indexing an empty list or string
    | KeyError        // looking up a missing dictionary key
    | ValueError      // unclassifiable line name, failed unpacking, sample too large
    | TypeError       // subscripting the None returned for a missing edge
    | AssertionError  // a failed `assert`
    | NoPath          // networkx.exception.NetworkXNoPath from the router
    | GraphError      // networkx.exception.NetworkXError, e.g. removing an absent node

  datatype Option<+T> = None | Some(value: T)

  datatype Result<+T> = Ok(value: T) | Err(error: PyError)

  /** Outcome of an operation that returns nothing: it finished, raised, or ended the process. */
  datatype Status = Done | Raised(error: PyError) | Exited
}
