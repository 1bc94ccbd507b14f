/**
 * The exceptions a connection sees and raises, as tagged values instead of
 * a class hierarchy, and the classification of read I/O failures.
 */
module Errors {
  import opened Protocol

  /**
   * The kinds of `IOException` the transport can raise. In Java a
   * `SocketTimeoutException` is also an `InterruptedIOException`;
   * `InterruptedIo` stands for every other `InterruptedIOException`.
   */
  datatype IoKind = SocketTimeout | InterruptedIo | ClosedByInterrupt | OtherIo

  /** `e instanceof InterruptedIOException`. */
  predicate IsInterruptedIo(k: IoKind) {
    k.SocketTimeout? || k.InterruptedIo?
  }

  /** Why a `MongoInternalException` was raised. */
  datatype InternalReason =
    | MessageTooLarge(messageLength: int32, maximum: int32)
    | UnexpectedRuntime(cause: string)

  /** The `MongoException` subclasses a connection raises (or lets through). */
  datatype MongoError =
    | SocketWrite(address: ServerAddress, cause: IoKind)
    | SocketReadTimeout(address: ServerAddress, cause: IoKind)
    | Interrupted(cause: IoKind)
    | SocketRead(address: ServerAddress, cause: IoKind)
    | Internal(reason: InternalReason)
    /** What a failing `ensureOpen` raises. */
    | NotOpen
    /** Any other `MongoException` raised by a collaborator. */
    | Other(description: string)

  /** An unchecked exception: a `MongoException` or any other `RuntimeException`. */
  datatype Unchecked = Mongo(error: MongoError) | Runtime(cause: string)

  /** Anything a collaborator can throw: an `IOException` or an unchecked exception. */
  datatype Fault = Io(kind: IoKind) | Thrown(exc: Unchecked)

  /** What a connection operation yields: a value, or the exception it throws. */
  datatype Result<+T> = Ok(value: T) | Err(exc: Unchecked)

  /**
   * `translateReadException` without its leading `close()`: a timeout first
   * (although a timeout is also an interrupted I/O), then an interruption,
   * then a generic read failure; the address and the cause are kept.
   */
  function ClassifyRead(address: ServerAddress, k: IoKind): (e: MongoError)
    ensures e.SocketReadTimeout? <==> k.SocketTimeout?
    ensures e.Interrupted? <==> !k.SocketTimeout? && (IsInterruptedIo(k) || k.ClosedByInterrupt?)
    ensures e.SocketRead? <==> !IsInterruptedIo(k) && !k.ClosedByInterrupt?
    ensures e.SocketReadTimeout? || e.Interrupted? || e.SocketRead?
    ensures e.cause == k
    ensures e.SocketReadTimeout? || e.SocketRead? ==> e.address == address
  {
    if k.SocketTimeout? then SocketReadTimeout(address, k)
    else if IsInterruptedIo(k) || k.ClosedByInterrupt? then Interrupted(k)
    else SocketRead(address, k)
  }

  /** A timeout is an interrupted I/O, yet it is classified as a timeout. */
  lemma TimeoutBeforeInterrupt(address: ServerAddress)
    ensures IsInterruptedIo(SocketTimeout)
    ensures ClassifyRead(address, SocketTimeout) == SocketReadTimeout(address, SocketTimeout)
  {
  }
}
