/** Failure-carrying datatypes shared by every module of the model. */
module Wrappers {

  /** A value that may be absent: a TypeScript optional field or `undefined`. */
  datatype Option<+T> = None | Some(value: T) {
    /** The value, or `default` when absent (the `??` operator). */
    function GetOr(default: T): T {
      match this
      case Some(v) => v
      case None => default
    }
  }

  /** The outcome of an awaited call that either returns a value or throws. */
  datatype Result<+T, +E> = Success(value: T) | Failure(error: E)

  /** The outcome of an awaited call whose value is ignored: it resolves or throws. */
  datatype Outcome<+E> = Pass | Fail(error: E)

  /**
   * A message addressed either to the connection that issued the command
   * (`client.emit`) or to every connection in a group (`server.to(group).emit`).
   */
  datatype Emission<+G, +M> = ToCaller(msg: M) | ToGroup(group: G, msg: M)

  /** The one message a handler sends back to its caller, as on every error path. */
  function Reply<G, M>(m: M): seq<Emission<G, M>> {
    [ToCaller(m)]
  }
}
