/**
 * Values shared by the connection pool model: connection handles, the
 * `Conn` wrapper that pairs a handle with the time it was last returned,
 * the pool configuration and the errors and outcomes of the operations.
 */
module PoolTypes {

  /** An opaque `*grpc.ClientConn`; a nil pointer is `None` where the source accepts one. */
  type ConnId = nat

  /** One pending `connReq` delivery channel of a blocked `Get`. */
  type WaiterId = nat

  /** A reading of `time.Now()`, in ticks. */
  type Time = nat

  datatype Option<T> = None | Some(value: T)

  datatype Result<T> = Success(value: T) | Failure(error: PoolError)

  /** The wrapper `Conn{c, t}`: a handle and the time it entered the pool. */
  datatype Conn = Conn(c: ConnId, t: Time)

  /**
   * The configuration handed to `New`. The three callbacks are foreign
   * code; the model only records whether each one is set (non-nil), and
   * their results are supplied to the operations that call them.
   * `idleTimeout` is a `time.Duration`, so it may be zero or negative.
   */
  datatype Config = Config(
    initialCap: int,
    maxCap: int,
    maxIdle: int,
    hasFactory: bool,
    hasClose: bool,
    hasPing: bool,
    idleTimeout: int)

  datatype PoolError =
    | InvalidCapacity   // "invalid capacity settings"
    | InvalidFactory    // "invalid factory func settings"
    | InvalidClose      // "invalid close func settings"
    | FillFailed        // "factory is not able to fill the pool"
    | Closed            // ErrClosed, "pool is closed"
    | NilConnection     // "connection is nil. rejecting"
    | FactoryFailed     // an error returned by the factory callback
    | CloseFailed       // an error returned by the close callback
    | PingFailed        // an error returned by the ping callback

  /**
   * What one call of `Get` leaves its caller with: a connection, an error,
   * or (when the ceiling is reached) a place in the waiter queue, where
   * the real `Get` blocks on its channel.
   */
  datatype GetOutcome =
    | Got(conn: ConnId)
    | Waiting(waiter: WaiterId)
    | Failed(err: PoolError)
}
